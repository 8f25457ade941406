/**
 What the published, buffered and logged events hold, read off the calls alone
 (backend/src/event-bus/sharded-bus.ts).
 */
module PublishedEvents {
  import opened Common
  import opened MessageSequencers
  import opened ShardedBus
  import opened BusDelivery

  // --- the partition of a flow ---

  function Power31(k: nat): nat {
    if k == 0 then 1 else 31 * Power31(k - 1)
  }

  /** The characters as the digits of a number in base 31, the first one the highest. */
  function InBase31(s: string): nat {
    if s == [] then 0 else s[0] as int * Power31(|s| - 1) + InBase31(s[1..])
  }

  lemma {:induction false} InBase31Snoc(s: string, c: char)
    ensures InBase31(s + [c]) == InBase31(s) * 31 + c as int
  {
    if s == [] {
      assert [c][1..] == [];
      assert Power31(0) == 1;
    } else {
      assert (s + [c])[0] == s[0] && (s + [c])[1..] == s[1..] + [c];
      InBase31Snoc(s[1..], c);
      Shifted(s[0] as int, Power31(|s| - 1), InBase31(s[1..]), c as int);
    }
  }

  lemma Shifted(digit: nat, power: nat, rest: nat, c: nat)
    ensures digit * (31 * power) + (rest * 31 + c) == (digit * power + rest) * 31 + c
  {
  }

  lemma WrapsAgain(a: nat, c: nat)
    ensures (a % 0x1_0000_0000 * 31 + c) % 0x1_0000_0000 == (a * 31 + c) % 0x1_0000_0000
  {
    var q := a / 0x1_0000_0000;
    assert a * 31 + c == a % 0x1_0000_0000 * 31 + c + 0x1_0000_0000 * (31 * q);
  }

  /** The rolling hash is the flow id as a number in base 31, cut to 32 bits; its remainder is the partition. */
  lemma {:induction false} HashIsInBase31(s: string)
    ensures Hash(s) == InBase31(s) % 0x1_0000_0000
  {
    if s != [] {
      var front, c := s[..|s| - 1], s[|s| - 1];
      assert s == front + [c];
      HashIsInBase31(front);
      InBase31Snoc(front, c);
      WrapsAgain(InBase31(front), c as int);
    }
  }

  lemma PartitionIs(cfg: Config, flowId: string)
    requires cfg.Valid()
    ensures PartitionOf(cfg, flowId) == InBase31(flowId) % 0x1_0000_0000 % cfg.partitionCount
  {
    HashIsInBase31(flowId);
  }

  // --- what a run publishes ---

  /** Read off the calls alone: those publishes that are called while their partition is not paused. */
  function Granted(cfg: Config, paused: set<nat>, ops: seq<Op>): (r: seq<Op>)
    requires cfg.Valid()
    ensures forall op | op in r :: op.Publish?
    decreases |ops|
  {
    if ops == [] then []
    else
      (if ops[0].Publish? && PartitionOf(cfg, ops[0].flowId) !in paused then [ops[0]] else [])
      + Granted(cfg, Repaused(paused, ops[0]), ops[1..])
  }

  /** The event holds what the caller handed in. */
  predicate AsAsked(cfg: Config, e: Event, op: Op)
    requires cfg.Valid()
  {
    && op.Publish?
    && e.flowId == op.flowId && e.partition == PartitionOf(cfg, op.flowId)
    && e.payload == op.payload && e.publishedAt == Some(op.at)
  }

  predicate AllAsAsked(cfg: Config, es: seq<Event>, asked: seq<Op>)
    requires cfg.Valid()
  {
    |es| == |asked| && forall i | 0 <= i < |es| :: AsAsked(cfg, es[i], asked[i])
  }

  lemma AsAskedConcat(cfg: Config, a: seq<Event>, b: seq<Event>, x: seq<Op>, y: seq<Op>)
    requires cfg.Valid() && AllAsAsked(cfg, a, x) && AllAsAsked(cfg, b, y)
    ensures AllAsAsked(cfg, a + b, x + y)
  {
    hide AsAsked;
  }

  lemma StepAsAsked(cfg: Config, s: BusState, op: Op)
    requires cfg.Valid() && Possible(s, op)
    ensures var (s', published) := Step(cfg, s, op);
            && s'.paused == Repaused(s.paused, op)
            && AllAsAsked(cfg, published, if op.Publish? && PartitionOf(cfg, op.flowId) !in s.paused then [op] else [])
  {
  }

  /**
   For every run, disciplined or not: the i-th event published holds the flow id, payload and time of
   the i-th publish that was called while its partition was not paused.
   */
  lemma {:induction false} PublishedAsAsked(cfg: Config, s: BusState, ops: seq<Op>)
    requires cfg.Valid() && Runnable(cfg, s, ops)
    ensures AllAsAsked(cfg, Run(cfg, s, ops).1, Granted(cfg, s.paused, ops))
    decreases |ops|
  {
    hide Step, Possible, AllAsAsked, Repaused;
    if ops == [] {
      NothingAsked(cfg);
    } else {
      StepAsAsked(cfg, s, ops[0]);
      var (s1, published) := Step(cfg, s, ops[0]);
      PublishedAsAsked(cfg, s1, ops[1..]);
      AsAskedConcat(cfg, published, Run(cfg, s1, ops[1..]).1,
                    if ops[0].Publish? && PartitionOf(cfg, ops[0].flowId) !in s.paused then [ops[0]] else [],
                    Granted(cfg, s1.paused, ops[1..]));
    }
  }

  lemma NothingAsked(cfg: Config)
    requires cfg.Valid()
    ensures AllAsAsked(cfg, [], [])
  {
  }

  // --- what a run leaves in log and buffer ---

  function ToPartition(cfg: Config, asked: seq<Op>, p: nat): seq<Op>
    requires cfg.Valid()
  {
    Where(asked, (op: Op) => op.Publish? && PartitionOf(cfg, op.flowId) == p)
  }

  lemma {:induction false} PartAsAsked(cfg: Config, es: seq<Event>, asked: seq<Op>, p: nat)
    requires cfg.Valid() && AllAsAsked(cfg, es, asked)
    ensures AllAsAsked(cfg, OfPartition(es, p), ToPartition(cfg, asked, p))
  {
    hide AsAsked;
    if es != [] {
      var e, op := es[|es| - 1], asked[|asked| - 1];
      PartAsAsked(cfg, es[..|es| - 1], asked[..|asked| - 1], p);
      assert AsAsked(cfg, e, op);
      SamePartition(cfg, e, op);
      if e.partition == p {
        AsAskedConcat(cfg, OfPartition(es[..|es| - 1], p), [e], ToPartition(cfg, asked[..|asked| - 1], p), [op]);
      }
    }
  }

  lemma SamePartition(cfg: Config, e: Event, op: Op)
    requires cfg.Valid() && AsAsked(cfg, e, op)
    ensures op.Publish? && e.partition == PartitionOf(cfg, op.flowId)
  {
  }

  /**
   From a new bus, a disciplined run leaves in (migration log ++ buffer) of a partition exactly what
   the publishes of its flows handed in, in order, numbered 1, 2, ... within each flow.
   */
  lemma ContentAsAsked(cfg: Config, s: BusState, ops: seq<Op>, p: nat)
    requires cfg.Valid() && NewBus(s) && Disciplined(cfg, s, ops) && Runnable(cfg, s, ops)
    ensures var left := Total(Run(cfg, s, ops).0, p);
            && AllAsAsked(cfg, left, ToPartition(cfg, Granted(cfg, s.paused, ops), p))
            && forall f | PartitionOf(cfg, f) == p ::
                 forall i | 0 <= i < |OfFlow(left, f)| :: OfFlow(left, f)[i].seqno == Some(i + 1)
  {
    var published := Run(cfg, s, ops).1;
    LogPlusBufferIsPublished(cfg, s, ops, p);
    NothingBefore(s, p);
    assert [] + OfPartition(published, p) == OfPartition(published, p);
    PublishedAsAsked(cfg, s, ops);
    PartAsAsked(cfg, published, Granted(cfg, s.paused, ops), p);
    forall f | PartitionOf(cfg, f) == p
      ensures var left := Total(Run(cfg, s, ops).0, p);
              forall i | 0 <= i < |OfFlow(left, f)| :: OfFlow(left, f)[i].seqno == Some(i + 1)
    {
      SeqnosAreContiguous(cfg, s, ops, f);
    }
  }

  lemma NothingBefore(s: BusState, p: nat)
    requires NewBus(s)
    ensures Total(s, p) == [] && FlightsExact(s)
  {
  }

  // --- what a flush writes ---

  /** The records of a partition in the migration log. */
  function Records(s: BusState, p: nat): seq<Record> {
    Get(s.log, p, [])
  }

  lemma {:induction false} Stamped(es: seq<Event>, id: string, node: string, at: int)
    ensures forall i | 0 <= i < |es| :: Stamp(es, id, node, at)[i] == Record(es[i], id, node, at)
  {
    if es != [] {
      Stamped(es[..|es| - 1], id, node, at);
    }
  }

  lemma StepKeepsRecords(cfg: Config, s: BusState, op: Op, p: nat)
    requires cfg.Valid() && Possible(s, op) && Elsewhere(op, p)
    ensures Records(Step(cfg, s, op).0, p) == Records(s, p)
  {
  }

  lemma {:induction false} OthersKeepRecords(cfg: Config, s: BusState, ops: seq<Op>, p: nat)
    requires cfg.Valid() && Runnable(cfg, s, ops) && AllElsewhere(ops, p)
    ensures Records(Run(cfg, s, ops).0, p) == Records(s, p)
    decreases |ops|
  {
    hide Step, Possible, Elsewhere, Records;
    if ops != [] {
      StepKeepsRecords(cfg, s, ops[0], p);
      OthersKeepRecords(cfg, Step(cfg, s, ops[0]).0, ops[1..], p);
    }
  }

  /**
   Whatever others do meanwhile, a flush adds to the log exactly the events buffered when it began,
   in order, each with the id of the migration, the name of this node and the time of the flush.
   */
  lemma FlushWrites(cfg: Config, s: BusState, p: nat, id: string, at: int, before: seq<Op>, after: seq<Op>)
    requires cfg.Valid() && p !in s.flights && AllElsewhere(before, p) && AllElsewhere(after, p)
    requires Runnable(cfg, Step(cfg, s, FlushBegin(p, id, at)).0, before)
    requires Runnable(cfg, FlushWritten(cfg, s, p, id, at, before).0, after)
    ensures var was, now := Records(s, p), Records(FlushDuring(cfg, s, p, id, at, before, after).0, p);
            && |now| == |was| + |s.Buffer(p)| && now[..|was|] == was
            && forall i | 0 <= i < |s.Buffer(p)| :: now[|was| + i] == Record(s.Buffer(p)[i], id, cfg.localNodeId, at)
  {
    hide Run, OfPartition, Quiet, AllRepaused, AllElsewhere, Stamp, Step, Records;
    var records := Stamp(s.Buffer(p), id, cfg.localNodeId, at);
    Stamped(s.Buffer(p), id, cfg.localNodeId, at);
    var begun := Step(cfg, s, FlushBegin(p, id, at)).0;
    BeginTakes(cfg, s, p, id, at);
    OthersElsewhere(cfg, begun, before, p);
    OthersKeepRecords(cfg, begun, before, p);
    var later := Run(cfg, begun, before).0;
    var written := Step(cfg, later, FlushWrite(p)).0;
    WriteAdds(cfg, later, p);
    WriteEvents(cfg, later, p);
    OthersElsewhere(cfg, written, after, p);
    OthersKeepRecords(cfg, written, after, p);
    EndKeepsRecords(cfg, Run(cfg, written, after).0, p);
    assert FlushDuring(cfg, s, p, id, at, before, after).0 == Step(cfg, Run(cfg, written, after).0, FlushEnd(p)).0;
    hide FlushDuring, FlushWritten;
    assert Records(FlushDuring(cfg, s, p, id, at, before, after).0, p) == Records(s, p) + records;
  }

  lemma BeginTakes(cfg: Config, s: BusState, p: nat, id: string, at: int)
    requires cfg.Valid() && Possible(s, FlushBegin(p, id, at))
    ensures var begun := Step(cfg, s, FlushBegin(p, id, at)).0;
            && Records(begun, p) == Records(s, p)
            && p in begun.flights && !begun.flights[p].written
            && begun.flights[p].records == Stamp(s.Buffer(p), id, cfg.localNodeId, at)
  {
  }

  lemma WriteAdds(cfg: Config, s: BusState, p: nat)
    requires cfg.Valid() && Possible(s, FlushWrite(p))
    ensures Records(Step(cfg, s, FlushWrite(p)).0, p) == Records(s, p) + s.flights[p].records
  {
    assert Records(s, p) + [] == Records(s, p);
  }

  lemma EndKeepsRecords(cfg: Config, s: BusState, p: nat)
    requires cfg.Valid() && Possible(s, FlushEnd(p))
    ensures Records(Step(cfg, s, FlushEnd(p)).0, p) == Records(s, p)
  {
  }
}
