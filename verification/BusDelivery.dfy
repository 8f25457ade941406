/**
 What every interleaving of publishes, pauses, resumes and flushes keeps
 (backend/src/event-bus/sharded-bus.ts).
 */
module BusDelivery {
  import opened Common
  import opened MessageSequencers
  import opened ShardedBus

  /**
   The discipline under which flushing is safe: a flush starts only on a paused partition, and a
   partition is not resumed while it is being flushed.
   */
  predicate Allowed(s: BusState, op: Op) {
    && Possible(s, op)
    && match op
       case FlushBegin(p, _, _) => p in s.paused
       case Resume(ps) => forall p | p in ps :: p !in s.flights
       case _ => true
  }

  ghost predicate Disciplined(cfg: Config, s: BusState, ops: seq<Op>)
    requires cfg.Valid()
    decreases |ops|
  {
    ops == [] || (Allowed(s, ops[0]) && Disciplined(cfg, Step(cfg, s, ops[0]).0, ops[1..]))
  }

  ghost predicate Runnable(cfg: Config, s: BusState, ops: seq<Op>)
    requires cfg.Valid()
    decreases |ops|
  {
    ops == [] || (Possible(s, ops[0]) && Runnable(cfg, Step(cfg, s, ops[0]).0, ops[1..]))
  }

  lemma {:induction false} DisciplinedIsRunnable(cfg: Config, s: BusState, ops: seq<Op>)
    requires cfg.Valid() && Disciplined(cfg, s, ops)
    ensures Runnable(cfg, s, ops)
    decreases |ops|
  {
    if ops != [] {
      DisciplinedIsRunnable(cfg, Step(cfg, s, ops[0]).0, ops[1..]);
    }
  }

  /** The state a run ends in, and all events it published, in order. */
  ghost function Run(cfg: Config, s: BusState, ops: seq<Op>): (BusState, seq<Event>)
    requires cfg.Valid() && Runnable(cfg, s, ops)
    decreases |ops|
  {
    if ops == [] then (s, [])
    else
      var (s1, published) := Step(cfg, s, ops[0]);
      var (s2, more) := Run(cfg, s1, ops[1..]);
      (s2, published + more)
  }

  function OfPartition(es: seq<Event>, p: nat): seq<Event> {
    Where(es, (e: Event) => e.partition == p)
  }

  function OfFlow(es: seq<Event>, f: string): seq<Event> {
    Where(es, (e: Event) => e.flowId == f)
  }

  lemma OfPartitionConcat(a: seq<Event>, b: seq<Event>, p: nat)
    ensures OfPartition(a + b, p) == OfPartition(a, p) + OfPartition(b, p)
  {
    WhereConcat(a, b, (e: Event) => e.partition == p);
  }

  // --- nothing lost, nothing twice, nothing out of order ---

  /**
   The migration log of `p` followed by its buffer. While a flush has written its records but not yet
   cleared the buffer, the buffer repeats the end of the log and is not counted.
   */
  function Total(s: BusState, p: nat): seq<Event> {
    if s.Written(p) then s.Logged(p) else s.Logged(p) + s.Buffer(p)
  }

  /** Every partition being flushed is paused, and its flush carries exactly its buffer. */
  ghost predicate FlightsExact(s: BusState) {
    forall p | p in s.flights :: p in s.paused && EventsOf(s.flights[p].records) == s.Buffer(p)
  }

  lemma StepKeepsFlightsExact(cfg: Config, s: BusState, op: Op)
    requires cfg.Valid() && Allowed(s, op) && FlightsExact(s)
    ensures FlightsExact(Step(cfg, s, op).0)
  {
    if op.FlushBegin? {
      EventsOfStamp(s.Buffer(op.partition), op.migrationId, cfg.localNodeId, op.at);
    }
  }

  lemma AfterPublishTotal(s: BusState, e: Event, p: nat)
    requires e.seqno.Some? && e.partition !in s.paused && FlightsExact(s)
    ensures Total(AfterPublish(s, e), p) == if e.partition == p then Total(s, p) + [e] else Total(s, p)
  {
    if e.partition == p {
      assert p !in s.flights;
      var logged, buffer := s.Logged(p), s.Buffer(p);
      assert logged + (buffer + [e]) == logged + buffer + [e];
    }
  }

  lemma PublishTotal(cfg: Config, s: BusState, op: Op, p: nat)
    requires cfg.Valid() && op.Publish? && FlightsExact(s)
    ensures var (s', published) := Step(cfg, s, op);
            Total(s', p) == Total(s, p) + OfPartition(published, p)
  {
    assert Total(s, p) + [] == Total(s, p) && OfPartition([], p) == [];
    var e := Numbered(cfg, s, op.flowId, op.payload, op.at);
    assert [e][..0] == [];
    assert OfPartition([e], p) == if e.partition == p then [e] else [];
    hide Total, FlightsExact, AfterPublish;
    if e.partition !in s.paused {
      AfterPublishTotal(s, e, p);
    }
  }

  lemma WriteTotal(cfg: Config, s: BusState, q: nat, p: nat)
    requires cfg.Valid() && Possible(s, FlushWrite(q)) && FlightsExact(s)
    ensures Total(Step(cfg, s, FlushWrite(q)).0, p) == Total(s, p)
  {
    hide Step, OfPartition, EventsOf;
    WriteEvents(cfg, s, q);
    if p != q {
      StepElsewhere(cfg, s, FlushWrite(q), p);
      WritePublishesNothing(cfg, s, q);
      OfNothing(p);
    }
  }

  lemma WritePublishesNothing(cfg: Config, s: BusState, q: nat)
    requires cfg.Valid() && Possible(s, FlushWrite(q))
    ensures Step(cfg, s, FlushWrite(q)).1 == [] && Step(cfg, s, FlushWrite(q)).0.buffers == s.buffers
  {
  }

  lemma OfNothing(p: nat)
    ensures OfPartition([], p) == []
  {
  }

  lemma EndTotal(cfg: Config, s: BusState, q: nat, p: nat)
    requires cfg.Valid() && Possible(s, FlushEnd(q))
    ensures Total(Step(cfg, s, FlushEnd(q)).0, p) == Total(s, p)
  {
    assert s.Logged(p) + [] == s.Logged(p);
  }

  lemma StepTotal(cfg: Config, s: BusState, op: Op, p: nat)
    requires cfg.Valid() && Allowed(s, op) && FlightsExact(s)
    ensures var (s', published) := Step(cfg, s, op);
            Total(s', p) == Total(s, p) + OfPartition(published, p)
  {
    hide FlightsExact, OfPartition, Total, AfterPublish, Numbered;
    OfNothing(p);
    match op {
      case Publish(_, _, _) => PublishTotal(cfg, s, op, p);
      case FlushWrite(q) => WriteTotal(cfg, s, q, p);
      case FlushEnd(q) => EndTotal(cfg, s, q, p);
      case _ => QuietTotal(cfg, s, op, p);
    }
  }

  lemma QuietTotal(cfg: Config, s: BusState, op: Op, p: nat)
    requires cfg.Valid() && Possible(s, op) && !op.Publish? && !op.FlushWrite? && !op.FlushEnd?
    ensures var (s', published) := Step(cfg, s, op);
            Total(s', p) == Total(s, p) + OfPartition(published, p)
  {
    assert Total(s, p) + [] == Total(s, p) && OfPartition([], p) == [];
  }

  /**
   For every disciplined interleaving, the migration log of a partition followed by its buffer is
   what it was at the start followed by exactly the events published to the partition since, in the
   order they were published.
   */
  lemma {:induction false} LogPlusBufferIsPublished(cfg: Config, s: BusState, ops: seq<Op>, p: nat)
    requires cfg.Valid() && FlightsExact(s) && Disciplined(cfg, s, ops) && Runnable(cfg, s, ops)
    ensures var (s', published) := Run(cfg, s, ops);
            FlightsExact(s') && Total(s', p) == Total(s, p) + OfPartition(published, p)
    decreases |ops|
  {
    hide Step, FlightsExact, Total, Allowed, Possible;
    if ops == [] {
      assert Total(s, p) + [] == Total(s, p);
    } else {
      var (s1, published) := Step(cfg, s, ops[0]);
      StepKeepsFlightsExact(cfg, s, ops[0]);
      StepTotal(cfg, s, ops[0], p);
      LogPlusBufferIsPublished(cfg, s1, ops[1..], p);
      var more := Run(cfg, s1, ops[1..]).1;
      OfPartitionConcat(published, more, p);
      assert Total(s, p) + OfPartition(published, p) + OfPartition(more, p)
          == Total(s, p) + OfPartition(published + more, p);
    }
  }

  // --- numbering ---

  /** The flow's next number is one more than its published events, which are numbered 1, 2, .... */
  ghost predicate NumberedInOrder(cfg: Config, s: BusState, published: seq<Event>, f: string)
    requires cfg.Valid()
  {
    var mine := OfFlow(published, f);
    && Get(s.nextSeqno, Key(f, PartitionOf(cfg, f)), 1) == |mine| + 1
    && forall i | 0 <= i < |mine| :: mine[i].seqno == Some(i + 1) && mine[i].partition == PartitionOf(cfg, f)
  }

  lemma StepNumbers(cfg: Config, s: BusState, op: Op, before: seq<Event>, f: string)
    requires cfg.Valid() && Possible(s, op) && NumberedInOrder(cfg, s, before, f)
    ensures var (s', published) := Step(cfg, s, op);
            NumberedInOrder(cfg, s', before + published, f)
  {
    var published := Step(cfg, s, op).1;
    if published == [] {
      assert before + published == before;
    } else {
      var e := published[0];
      assert before + published == before + [e];
      assert (before + [e])[..|before|] == before;
      if e.flowId != f && Key(e.flowId, e.partition) == Key(f, PartitionOf(cfg, f)) {
        KeyInjective(e.flowId, e.partition, f, PartitionOf(cfg, f));
      }
    }
  }

  /** Every interleaving, disciplined or not, numbers the published events of a flow 1, 2, ..., n. */
  lemma {:induction false} PublishesAreNumbered(cfg: Config, s: BusState, ops: seq<Op>, before: seq<Event>, f: string)
    requires cfg.Valid() && Runnable(cfg, s, ops) && NumberedInOrder(cfg, s, before, f)
    ensures var (s', published) := Run(cfg, s, ops);
            NumberedInOrder(cfg, s', before + published, f)
    decreases |ops|
  {
    hide Step, NumberedInOrder, Possible;
    if ops == [] {
      assert before + [] == before;
    } else {
      var (s1, published) := Step(cfg, s, ops[0]);
      StepNumbers(cfg, s, ops[0], before, f);
      PublishesAreNumbered(cfg, s1, ops[1..], before + published, f);
      var more := Run(cfg, s1, ops[1..]).1;
      assert before + published + more == before + (published + more);
    }
  }

  lemma {:induction false} FlowWithinPartition(cfg: Config, es: seq<Event>, f: string)
    requires cfg.Valid() && forall i | 0 <= i < |OfFlow(es, f)| :: OfFlow(es, f)[i].partition == PartitionOf(cfg, f)
    ensures OfFlow(OfPartition(es, PartitionOf(cfg, f)), f) == OfFlow(es, f)
  {
    if es != [] {
      var front, e, p := es[..|es| - 1], es[|es| - 1], PartitionOf(cfg, f);
      assert OfFlow(front, f) <= OfFlow(es, f);
      forall i | 0 <= i < |OfFlow(front, f)| ensures OfFlow(front, f)[i].partition == p {
        assert OfFlow(front, f)[i] == OfFlow(es, f)[i];
      }
      FlowWithinPartition(cfg, front, f);
      if e.flowId == f {
        assert OfFlow(es, f)[|OfFlow(front, f)|] == e;
        assert e.partition == p;
      }
      var part := OfPartition(front, p);
      assert (part + [e])[..|part|] == part;
      assert part + [] == part && OfFlow(front, f) + [] == OfFlow(front, f);
    }
  }

  predicate NewBus(s: BusState) {
    s.nextSeqno == map[] && s.buffers == map[] && s.flights == map[] && s.log == map[]
  }

  /**
   The seqnos of a flow in (migration log ++ buffer) of its partition are exactly 1, 2, ..., n in
   order, where n is the number of its successful publishes: nothing lost, doubled or reordered.
   */
  lemma SeqnosAreContiguous(cfg: Config, s: BusState, ops: seq<Op>, f: string)
    requires cfg.Valid() && NewBus(s) && Disciplined(cfg, s, ops) && Runnable(cfg, s, ops)
    ensures var (s', published) := Run(cfg, s, ops);
            var p := PartitionOf(cfg, f);
            var mine := OfFlow(Total(s', p), f);
            && mine == OfFlow(published, f)
            && forall i | 0 <= i < |mine| :: mine[i].seqno == Some(i + 1)
  {
    var p := PartitionOf(cfg, f);
    var published := Run(cfg, s, ops).1;
    LogPlusBufferIsPublished(cfg, s, ops, p);
    assert [] + OfPartition(published, p) == OfPartition(published, p);
    PublishesAreNumbered(cfg, s, ops, [], f);
    assert [] + published == published;
    FlowWithinPartition(cfg, published, f);
  }

  // --- why the pause is needed ---

  /** Anything but a step of a flush of `p`. */
  predicate Elsewhere(op: Op, p: nat) {
    match op
    case FlushBegin(q, _, _) => q != p
    case FlushWrite(q) => q != p
    case FlushFail(q) => q != p
    case FlushEnd(q) => q != p
    case _ => true
  }

  predicate AllElsewhere(ops: seq<Op>, p: nat) {
    forall op | op in ops :: Elsewhere(op, p)
  }

  function Repaused(paused: set<nat>, op: Op): set<nat> {
    match op
    case Pause(ps) => paused + (set q | q in ps)
    case Resume(ps) => paused - (set q | q in ps)
    case _ => paused
  }

  /** A publish of a flow of `p`, called while `p` is not paused. */
  predicate PublishesTo(cfg: Config, paused: set<nat>, op: Op, p: nat)
    requires cfg.Valid()
  {
    op.Publish? && PartitionOf(cfg, op.flowId) == p && p !in paused
  }

  /** Read off the calls alone: every publish of a flow of `p` is called while `p` is paused. */
  predicate Quiet(cfg: Config, paused: set<nat>, ops: seq<Op>, p: nat)
    requires cfg.Valid()
    decreases |ops|
  {
    ops == [] || (!PublishesTo(cfg, paused, ops[0], p) && Quiet(cfg, Repaused(paused, ops[0]), ops[1..], p))
  }

  function AllRepaused(paused: set<nat>, ops: seq<Op>): set<nat>
    decreases |ops|
  {
    if ops == [] then paused else AllRepaused(Repaused(paused, ops[0]), ops[1..])
  }

  lemma StepElsewhere(cfg: Config, s: BusState, op: Op, p: nat)
    requires cfg.Valid() && Possible(s, op) && Elsewhere(op, p)
    ensures var (s', published) := Step(cfg, s, op);
            && (p in s'.flights <==> p in s.flights) && (p in s.flights ==> s'.flights[p] == s.flights[p])
            && s'.Logged(p) == s.Logged(p) && s'.Buffer(p) == s.Buffer(p) + OfPartition(published, p)
            && s'.paused == Repaused(s.paused, op)
            && (OfPartition(published, p) == [] <==> !PublishesTo(cfg, s.paused, op, p))
  {
    var (s', published) := Step(cfg, s, op);
    assert OfPartition([], p) == [] && s.Buffer(p) + [] == s.Buffer(p);
    if published != [] {
      var e := published[0];
      assert published == [e] && [e][..0] == [];
      assert OfPartition([e], p) == if e.partition == p then [e] else [];
    }
  }

  lemma {:induction false} OthersElsewhere(cfg: Config, s: BusState, ops: seq<Op>, p: nat)
    requires cfg.Valid() && Runnable(cfg, s, ops) && AllElsewhere(ops, p)
    ensures var (s', published) := Run(cfg, s, ops);
            && (p in s'.flights <==> p in s.flights) && (p in s.flights ==> s'.flights[p] == s.flights[p])
            && s'.Logged(p) == s.Logged(p) && s'.Buffer(p) == s.Buffer(p) + OfPartition(published, p)
            && s'.paused == AllRepaused(s.paused, ops)
            && (OfPartition(published, p) == [] <==> Quiet(cfg, s.paused, ops, p))
    decreases |ops|
  {
    hide Step, PublishesTo, Possible, Elsewhere;
    if ops == [] {
      assert OfPartition([], p) == [] && s.Buffer(p) + [] == s.Buffer(p);
    } else {
      var (s1, published) := Step(cfg, s, ops[0]);
      var more := Run(cfg, s1, ops[1..]).1;
      StepElsewhere(cfg, s, ops[0], p);
      OthersElsewhere(cfg, s1, ops[1..], p);
      OfPartitionConcat(published, more, p);
      hide OfPartition;
      assert s.Buffer(p) + OfPartition(published, p) + OfPartition(more, p)
             == s.Buffer(p) + (OfPartition(published, p) + OfPartition(more, p));
    }
  }

  lemma {:induction false} QuietConcat(cfg: Config, paused: set<nat>, a: seq<Op>, b: seq<Op>, p: nat)
    requires cfg.Valid()
    ensures Quiet(cfg, paused, a + b, p) <==> Quiet(cfg, paused, a, p) && Quiet(cfg, AllRepaused(paused, a), b, p)
    decreases |a|
  {
    hide PublishesTo;
    if a == [] {
      assert a + b == b;
    } else {
      assert (a + b)[0] == a[0] && (a + b)[1..] == a[1..] + b;
      QuietConcat(cfg, Repaused(paused, a[0]), a[1..], b, p);
    }
  }

  /** The bus when the append of a flush of `p` that begins now has returned, others having run before it. */
  ghost function FlushWritten(cfg: Config, s: BusState, p: nat, id: string, at: int,
      before: seq<Op>): (r: (BusState, seq<Event>))
    requires cfg.Valid() && p !in s.flights && AllElsewhere(before, p)
    requires Runnable(cfg, Step(cfg, s, FlushBegin(p, id, at)).0, before)
    ensures p in r.0.flights && r.0.flights[p].written
  {
    var begun := Step(cfg, s, FlushBegin(p, id, at)).0;
    OthersElsewhere(cfg, begun, before, p);
    var (later, published) := Run(cfg, begun, before);
    (Step(cfg, later, FlushWrite(p)).0, published)
  }

  /** One whole flush of `p`, during which others take the steps `before` and `after` its append returns. */
  ghost function FlushDuring(cfg: Config, s: BusState, p: nat, id: string, at: int, before: seq<Op>, after: seq<Op>)
    : (r: (BusState, seq<Event>))
    requires cfg.Valid() && p !in s.flights && AllElsewhere(before, p) && AllElsewhere(after, p)
    requires Runnable(cfg, Step(cfg, s, FlushBegin(p, id, at)).0, before)
    requires Runnable(cfg, FlushWritten(cfg, s, p, id, at, before).0, after)
  {
    var (written, first) := FlushWritten(cfg, s, p, id, at, before);
    OthersElsewhere(cfg, written, after, p);
    var (last, second) := Run(cfg, written, after);
    (Step(cfg, last, FlushEnd(p)).0, first + second)
  }

  /**
   A flush, whatever others do meanwhile: they publish, pause, resume and flush other partitions.
   Afterwards the log holds exactly what log and buffer held when the flush began, and the buffer is
   empty. So nothing is lost if and only if every publish of a flow of this partition is called
   while the partition is paused.
   */
  lemma FlushLosesNothingIff(cfg: Config, s: BusState, p: nat, id: string, at: int, before: seq<Op>, after: seq<Op>)
    requires cfg.Valid() && p !in s.flights && AllElsewhere(before, p) && AllElsewhere(after, p)
    requires Runnable(cfg, Step(cfg, s, FlushBegin(p, id, at)).0, before)
    requires Runnable(cfg, FlushWritten(cfg, s, p, id, at, before).0, after)
    ensures var (s', published) := FlushDuring(cfg, s, p, id, at, before, after);
            && s'.Buffer(p) == [] && s'.Logged(p) == s.Logged(p) + s.Buffer(p)
            && (s'.Logged(p) + s'.Buffer(p) == s.Logged(p) + s.Buffer(p) + OfPartition(published, p)
                <==> Quiet(cfg, s.paused, before + after, p))
  {
    hide Run, Quiet, AllRepaused, OfPartition, EventsOf;
    var begun := Step(cfg, s, FlushBegin(p, id, at)).0;
    EventsOfStamp(s.Buffer(p), id, cfg.localNodeId, at);
    OthersElsewhere(cfg, begun, before, p);
    var (later, first) := Run(cfg, begun, before);
    var written := Step(cfg, later, FlushWrite(p)).0;
    WriteEvents(cfg, later, p);
    OthersElsewhere(cfg, written, after, p);
    var (last, second) := Run(cfg, written, after);
    EndEvents(cfg, last, p);
    QuietConcat(cfg, s.paused, before, after, p);
    OfPartitionConcat(first, second, p);
    hide Step;
    var was, lost := s.Logged(p) + s.Buffer(p), OfPartition(first + second, p);
    assert was + [] == was;
    assert |was + lost| == |was| + |lost|;
  }

  /** It happens: one publish between the begin and the append of a flush of a partition that is not paused is lost. */
  lemma PublishDuringFlushIsLost(cfg: Config, s: BusState, flowId: string, payload: string, id: string, at: int)
    requires cfg.Valid() && PartitionOf(cfg, flowId) !in s.flights && PartitionOf(cfg, flowId) !in s.paused
    ensures var p, before := PartitionOf(cfg, flowId), [Publish(flowId, payload, at)];
            && AllElsewhere(before, p) && AllElsewhere([], p)
            && Runnable(cfg, Step(cfg, s, FlushBegin(p, id, at)).0, before)
            && var (s', published) := FlushDuring(cfg, s, p, id, at, before, []);
               && OfPartition(published, p) == [Numbered(cfg, s, flowId, payload, at)]
               && s'.Logged(p) + s'.Buffer(p) == s.Logged(p) + s.Buffer(p)
  {
    hide Step, Numbered, OfPartition, Run, Runnable, FlushWritten, FlushDuring, Quiet;
    var p, op := PartitionOf(cfg, flowId), Publish(flowId, payload, at);
    var e := Numbered(cfg, s, flowId, payload, at);
    PublishesOne(cfg, s, flowId, payload, id, at);
    OneStep(cfg, Step(cfg, s, FlushBegin(p, id, at)).0, op);
    NoStep(cfg, FlushWritten(cfg, s, p, id, at, [op]).0);
    FlushPublishes(cfg, s, p, id, at, [op]);
    OnlyOne(e);
    FlushLosesNothingIff(cfg, s, p, id, at, [op], []);
    var s' := FlushDuring(cfg, s, p, id, at, [op], []).0;
    assert s'.Logged(p) + [] == s'.Logged(p);
  }

  lemma PublishesOne(cfg: Config, s: BusState, flowId: string, payload: string, id: string, at: int)
    requires cfg.Valid() && PartitionOf(cfg, flowId) !in s.flights && PartitionOf(cfg, flowId) !in s.paused
    ensures var e := Numbered(cfg, s, flowId, payload, at);
            && e.partition == PartitionOf(cfg, flowId)
            && var flushing := Step(cfg, s, FlushBegin(PartitionOf(cfg, flowId), id, at)).0;
            && Step(cfg, flushing, Publish(flowId, payload, at)).1 == [e]
  {
  }

  lemma NoStep(cfg: Config, s: BusState)
    requires cfg.Valid()
    ensures Runnable(cfg, s, []) && Run(cfg, s, []) == (s, [])
  {
  }

  lemma FlushPublishes(cfg: Config, s: BusState, p: nat, id: string, at: int, before: seq<Op>)
    requires cfg.Valid() && p !in s.flights && AllElsewhere(before, p)
    requires Runnable(cfg, Step(cfg, s, FlushBegin(p, id, at)).0, before)
    requires Runnable(cfg, FlushWritten(cfg, s, p, id, at, before).0, [])
    ensures FlushDuring(cfg, s, p, id, at, before, []).1 == Run(cfg, Step(cfg, s, FlushBegin(p, id, at)).0, before).1
  {
    hide Step, Runnable;
    var first := FlushWritten(cfg, s, p, id, at, before).1;
    assert first + [] == first;
  }

  lemma OneStep(cfg: Config, s: BusState, op: Op)
    requires cfg.Valid() && Possible(s, op)
    ensures Runnable(cfg, s, [op]) && Run(cfg, s, [op]) == Step(cfg, s, op)
  {
    hide Step;
    assert [op][1..] == [];
    assert Step(cfg, s, op).1 + [] == Step(cfg, s, op).1;
  }

  lemma OnlyOne(e: Event)
    ensures OfPartition([e], e.partition) == [e]
  {
    var keep := (x: Event) => x.partition == e.partition;
    assert [e][..0] == [];
    WhereLast([e], keep);
    WhereLast([], keep);
    assert OfPartition([e], e.partition) == Where([e], keep);
    assert [] + [e] == [e];
  }

  /** The same in the case of one setting of the pause: paused throughout, or nobody publishes to the partition. */
  lemma QuietWithoutPauses(cfg: Config, paused: set<nat>, ops: seq<Op>, p: nat)
    requires cfg.Valid() && forall op | op in ops :: !op.Pause? && !op.Resume?
    ensures Quiet(cfg, paused, ops, p)
            <==> p in paused || forall op | op in ops && op.Publish? :: PartitionOf(cfg, op.flowId) != p
    decreases |ops|
  {
    if ops != [] {
      assert ops == [ops[0]] + ops[1..];
      QuietWithoutPauses(cfg, paused, ops[1..], p);
    }
  }

  lemma WriteEvents(cfg: Config, s: BusState, p: nat)
    requires cfg.Valid() && Possible(s, FlushWrite(p))
    ensures var s' := Step(cfg, s, FlushWrite(p)).0;
            && p in s'.flights && s'.flights[p].written && s'.paused == s.paused
            && s'.Logged(p) == s.Logged(p) + EventsOf(s.flights[p].records)
  {
    assert s.Logged(p) + [] == s.Logged(p);
    EventsOfConcat(Get(s.log, p, []), s.flights[p].records);
  }

  lemma EndEvents(cfg: Config, s: BusState, p: nat)
    requires cfg.Valid() && Possible(s, FlushEnd(p))
    ensures var s' := Step(cfg, s, FlushEnd(p)).0; s'.Buffer(p) == [] && s'.Logged(p) == s.Logged(p)
  {
  }
}
