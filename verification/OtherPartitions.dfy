/**
 What a rebalance leaves alone: the state of a partition that is not migrating follows from the
 steps of the other callers (backend/src/event-bus/sharded-bus.ts,
 backend/src/event-bus/partition-owner.rs).
 */
module OtherPartitions {
  import opened Common
  import opened MessageSequencers
  import opened ShardedBus
  import opened BusDelivery
  import opened PublishedEvents
  import PO = PartitionOwners

  /** One rebalance at a time: others do not resume or flush a migrating partition. */
  predicate Foreign(op: Op, ps: seq<nat>) {
    match op
    case Publish(_, _, _) => true
    case Pause(_) => true
    case Resume(qs) => forall q | q in qs :: q !in ps
    case FlushBegin(q, _, _) => q !in ps
    case FlushWrite(q) => q !in ps
    case FlushFail(q) => q !in ps
    case FlushEnd(q) => q !in ps
  }

  predicate AllForeign(ops: seq<Op>, ps: seq<nat>) {
    forall op | op in ops :: Foreign(op, ps)
  }

  /** A step of the rebalance itself on the bus. */
  predicate Own(op: Op, ps: seq<nat>) {
    match op
    case Publish(_, _, _) => false
    case Pause(qs) => forall q | q in qs :: q in ps
    case Resume(qs) => forall q | q in qs :: q in ps
    case FlushBegin(q, _, _) => q in ps
    case FlushWrite(q) => q in ps
    case FlushFail(q) => q in ps
    case FlushEnd(q) => q in ps
  }

  /** Two states of the bus agree on everything about a partition. */
  ghost predicate SameAt(cfg: Config, s: BusState, t: BusState, q: nat)
    requires cfg.Valid()
  {
    && (q in s.paused <==> q in t.paused)
    && s.Buffer(q) == t.Buffer(q) && Records(s, q) == Records(t, q)
    && (q in s.flights <==> q in t.flights) && (q in s.flights ==> s.flights[q] == t.flights[q])
    && forall f | PartitionOf(cfg, f) == q :: Get(s.nextSeqno, Key(f, q), 1) == Get(t.nextSeqno, Key(f, q), 1)
  }

  ghost predicate SameElsewhere(cfg: Config, s: BusState, t: BusState, ps: seq<nat>)
    requires cfg.Valid()
  {
    forall q: nat | q !in ps :: SameAt(cfg, s, t, q)
  }

  lemma SameTransitive(cfg: Config, s: BusState, t: BusState, u: BusState, ps: seq<nat>)
    requires cfg.Valid() && SameElsewhere(cfg, s, t, ps) && SameElsewhere(cfg, t, u, ps)
    ensures SameElsewhere(cfg, s, u, ps)
  {
    forall q: nat | q !in ps ensures SameAt(cfg, s, u, q) {
      assert SameAt(cfg, s, t, q) && SameAt(cfg, t, u, q);
    }
  }

  lemma SameReflexive(cfg: Config, s: BusState, ps: seq<nat>)
    requires cfg.Valid()
    ensures SameElsewhere(cfg, s, s, ps)
  {
  }

  /** A publish to one partition leaves every other one as it was. */
  lemma PublishElsewhere(cfg: Config, s: BusState, op: Op, q: nat)
    requires cfg.Valid() && op.Publish? && PartitionOf(cfg, op.flowId) != q
    ensures SameAt(cfg, Step(cfg, s, op).0, s, q)
  {
    var p := PartitionOf(cfg, op.flowId);
    forall f | PartitionOf(cfg, f) == q ensures Key(f, q) != Key(op.flowId, p) {
      if Key(f, q) == Key(op.flowId, p) {
        KeyInjective(f, q, op.flowId, p);
      }
    }
  }

  lemma PublishSame(cfg: Config, s: BusState, t: BusState, op: Op, q: nat)
    requires cfg.Valid() && op.Publish? && PartitionOf(cfg, op.flowId) == q && SameAt(cfg, s, t, q)
    ensures SameAt(cfg, Step(cfg, s, op).0, Step(cfg, t, op).0, q)
  {
    forall f | Key(f, q) == Key(op.flowId, q) ensures f == op.flowId {
      KeyInjective(f, q, op.flowId, q);
    }
  }

  /** A step of another caller does the same to a partition in both states. */
  lemma StepSameAt(cfg: Config, s: BusState, t: BusState, op: Op, ps: seq<nat>, q: nat)
    requires cfg.Valid() && Foreign(op, ps) && q !in ps && SameAt(cfg, s, t, q)
    requires Possible(s, op) && Possible(t, op)
    ensures SameAt(cfg, Step(cfg, s, op).0, Step(cfg, t, op).0, q)
  {
    var s', t' := Step(cfg, s, op).0, Step(cfg, t, op).0;
    if op.Publish? {
      if PartitionOf(cfg, op.flowId) == q {
        PublishSame(cfg, s, t, op, q);
      } else {
        PublishElsewhere(cfg, s, op, q);
        PublishElsewhere(cfg, t, op, q);
      }
    }
  }

  lemma StepSame(cfg: Config, s: BusState, t: BusState, op: Op, ps: seq<nat>)
    requires cfg.Valid() && Foreign(op, ps) && Possible(s, op) && SameElsewhere(cfg, s, t, ps)
    ensures Possible(t, op) && SameElsewhere(cfg, Step(cfg, s, op).0, Step(cfg, t, op).0, ps)
  {
    assert Possible(t, op) by {
      assert (op.FlushBegin? || op.FlushWrite? || op.FlushFail? || op.FlushEnd?) ==> SameAt(cfg, s, t, op.partition);
    }
    hide Step, SameAt, Foreign, Possible;
    forall q: nat | q !in ps ensures SameAt(cfg, Step(cfg, s, op).0, Step(cfg, t, op).0, q) {
      StepSameAt(cfg, s, t, op, ps, q);
    }
  }

  lemma {:induction false} RunSame(cfg: Config, s: BusState, t: BusState, ops: seq<Op>, ps: seq<nat>)
    requires cfg.Valid() && AllForeign(ops, ps) && SameElsewhere(cfg, s, t, ps) && Runnable(cfg, s, ops)
    ensures Runnable(cfg, t, ops) && SameElsewhere(cfg, Run(cfg, s, ops).0, Run(cfg, t, ops).0, ps)
    decreases |ops|
  {
    hide Step, Possible, Foreign, SameElsewhere;
    if ops != [] {
      StepSame(cfg, s, t, ops[0], ps);
      RunSame(cfg, Step(cfg, s, ops[0]).0, Step(cfg, t, ops[0]).0, ops[1..], ps);
    }
  }

  lemma {:induction false} RunAppend(cfg: Config, s: BusState, a: seq<Op>, b: seq<Op>)
    requires cfg.Valid() && Runnable(cfg, s, a) && Runnable(cfg, Run(cfg, s, a).0, b)
    ensures Runnable(cfg, s, a + b) && Run(cfg, s, a + b).0 == Run(cfg, Run(cfg, s, a).0, b).0
    decreases |a|
  {
    hide Step, Possible;
    if a == [] {
      assert a + b == b;
    } else {
      assert (a + b)[0] == a[0] && (a + b)[1..] == a[1..] + b;
      RunAppend(cfg, Step(cfg, s, a[0]).0, a[1..], b);
    }
  }

  /** On partitions that are not migrating, `s'` is what the steps of others alone make of `s`. */
  ghost predicate BusAside(cfg: Config, ps: seq<nat>, s: BusState, s': BusState, ops: seq<Op>)
    requires cfg.Valid()
  {
    AllForeign(ops, ps) && Runnable(cfg, s, ops) && SameElsewhere(cfg, s', Run(cfg, s, ops).0, ps)
  }

  lemma BusAsideTransitive(cfg: Config, ps: seq<nat>, s: BusState, s1: BusState, s2: BusState, a: seq<Op>, b: seq<Op>)
    requires cfg.Valid() && BusAside(cfg, ps, s, s1, a) && BusAside(cfg, ps, s1, s2, b)
    ensures BusAside(cfg, ps, s, s2, a + b)
  {
    hide SameElsewhere, Run, Runnable, Foreign;
    RunSame(cfg, s1, Run(cfg, s, a).0, b, ps);
    RunAppend(cfg, s, a, b);
    SameTransitive(cfg, s2, Run(cfg, s1, b).0, Run(cfg, s, a + b).0, ps);
  }

  lemma BusAsideStep(cfg: Config, ps: seq<nat>, s: BusState, op: Op)
    requires cfg.Valid() && Foreign(op, ps) && Possible(s, op)
    ensures BusAside(cfg, ps, s, Step(cfg, s, op).0, [op])
  {
    hide Step, SameElsewhere, Foreign, Possible;
    OneStep(cfg, s, op);
    SameReflexive(cfg, Step(cfg, s, op).0, ps);
  }

  lemma OwnStepSame(cfg: Config, s: BusState, op: Op, ps: seq<nat>)
    requires cfg.Valid() && Own(op, ps) && Possible(s, op)
    ensures SameElsewhere(cfg, Step(cfg, s, op).0, s, ps)
  {
  }

  /** The pauses of the others decide which partitions that are not migrating are paused. */
  lemma {:induction false} RunPauses(cfg: Config, s: BusState, ops: seq<Op>)
    requires cfg.Valid() && Runnable(cfg, s, ops)
    ensures Run(cfg, s, ops).0.paused == AllRepaused(s.paused, ops)
    decreases |ops|
  {
    hide Possible, Step, Repaused;
    if ops != [] {
      StepAsAsked(cfg, s, ops[0]);
      RunPauses(cfg, Step(cfg, s, ops[0]).0, ops[1..]);
    }
  }

  predicate Names(op: Op, q: nat) {
    (op.Pause? || op.Resume?) && q in op.partitions
  }

  lemma {:induction false} UnnamedStays(paused: set<nat>, ops: seq<Op>, q: nat)
    requires forall op | op in ops :: !Names(op, q)
    ensures q in AllRepaused(paused, ops) <==> q in paused
    decreases |ops|
  {
    if ops != [] {
      assert ops[0] in ops && forall op | op in ops[1..] :: op in ops;
      UnnamedStays(Repaused(paused, ops[0]), ops[1..], q);
    }
  }

  // --- the owner ---

  ghost predicate OwnerSameAt(o: PO.OwnerState, t: PO.OwnerState, q: nat) {
    o.Buffer(q) == t.Buffer(q) && (q in o.fences <==> q in t.fences) && (q in o.fences ==> o.fences[q] == t.fences[q])
  }

  ghost predicate OwnerSame(o: PO.OwnerState, t: PO.OwnerState, ps: seq<nat>) {
    forall q: nat | q !in ps :: OwnerSameAt(o, t, q)
  }

  function OwnerRun(o: PO.OwnerState, ops: seq<PO.OwnerOp>): PO.OwnerState
    decreases |ops|
  {
    if ops == [] then o else OwnerRun(PO.OwnerStep(o, ops[0]).0, ops[1..])
  }

  lemma OwnerStepSame(o: PO.OwnerState, t: PO.OwnerState, op: PO.OwnerOp, ps: seq<nat>)
    requires OwnerSame(o, t, ps)
    ensures OwnerSame(PO.OwnerStep(o, op).0, PO.OwnerStep(t, op).0, ps)
  {
    forall q: nat | q !in ps ensures OwnerSameAt(PO.OwnerStep(o, op).0, PO.OwnerStep(t, op).0, q) {
      assert OwnerSameAt(o, t, q);
    }
  }

  lemma {:induction false} OwnerRunSame(o: PO.OwnerState, t: PO.OwnerState, ops: seq<PO.OwnerOp>, ps: seq<nat>)
    requires OwnerSame(o, t, ps)
    ensures OwnerSame(OwnerRun(o, ops), OwnerRun(t, ops), ps)
    decreases |ops|
  {
    hide OwnerSame;
    if ops != [] {
      OwnerStepSame(o, t, ops[0], ps);
      OwnerRunSame(PO.OwnerStep(o, ops[0]).0, PO.OwnerStep(t, ops[0]).0, ops[1..], ps);
    }
  }

  lemma {:induction false} OwnerRunAppend(o: PO.OwnerState, a: seq<PO.OwnerOp>, b: seq<PO.OwnerOp>)
    ensures OwnerRun(o, a + b) == OwnerRun(OwnerRun(o, a), b)
    decreases |a|
  {
    if a == [] {
      assert a + b == b;
    } else {
      assert (a + b)[0] == a[0] && (a + b)[1..] == a[1..] + b;
      OwnerRunAppend(PO.OwnerStep(o, a[0]).0, a[1..], b);
    }
  }

  /** One call on the owner among those of others. */
  ghost predicate Amid(o: PO.OwnerState, o': PO.OwnerState, op: PO.OwnerOp, others: seq<PO.OwnerOp>) {
    exists k :: 0 <= k <= |others| && o' == OwnerRun(PO.OwnerStep(OwnerRun(o, others[..k]), op).0, others[k..])
  }

  lemma AmidIs(o: PO.OwnerState, op: PO.OwnerOp, a: seq<PO.OwnerOp>, b: seq<PO.OwnerOp>)
    ensures Amid(o, OwnerRun(PO.OwnerStep(OwnerRun(o, a), op).0, b), op, a + b)
  {
    assert (a + b)[..|a|] == a && (a + b)[|a|..] == b;
  }

  lemma OwnerRunSnoc(o: PO.OwnerState, ops: seq<PO.OwnerOp>, op: PO.OwnerOp)
    ensures OwnerRun(o, ops + [op]) == PO.OwnerStep(OwnerRun(o, ops), op).0
  {
    OwnerRunAppend(o, ops, [op]);
    assert [op][1..] == [];
  }

  /** On partitions that are not migrating, `o'` is what the calls of others alone make of `o`. */
  ghost predicate OwnerAside(ps: seq<nat>, o: PO.OwnerState, o': PO.OwnerState, ops: seq<PO.OwnerOp>) {
    OwnerSame(o', OwnerRun(o, ops), ps)
  }

  lemma OwnerAsideTransitive(ps: seq<nat>, o: PO.OwnerState, o1: PO.OwnerState, o2: PO.OwnerState,
      a: seq<PO.OwnerOp>, b: seq<PO.OwnerOp>)
    requires OwnerAside(ps, o, o1, a) && OwnerAside(ps, o1, o2, b)
    ensures OwnerAside(ps, o, o2, a + b)
  {
    OwnerRunSame(o1, OwnerRun(o, a), b, ps);
    OwnerRunAppend(o, a, b);
    hide OwnerRun, OwnerSameAt;
    var x, y := OwnerRun(o1, b), OwnerRun(o, a + b);
    forall q: nat | q !in ps ensures OwnerSameAt(o2, y, q) {
      OwnerSameTransitive(o2, x, y, q);
    }
  }

  lemma OwnerSameTransitive(o: PO.OwnerState, t: PO.OwnerState, u: PO.OwnerState, q: nat)
    requires OwnerSameAt(o, t, q) && OwnerSameAt(t, u, q)
    ensures OwnerSameAt(o, u, q)
  {
  }

  lemma OwnerAsideRun(ps: seq<nat>, o: PO.OwnerState, ops: seq<PO.OwnerOp>)
    ensures OwnerAside(ps, o, OwnerRun(o, ops), ops)
  {
  }
}
