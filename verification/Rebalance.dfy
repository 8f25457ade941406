/**
 The rebalance protocol (backend/src/event-bus/rebalance-coordinator.ts) over the sharded bus, with
 a `PartitionOwner` (backend/src/event-bus/partition-owner.rs) behind the owner control.

 Every `await` of `rebalance` is a point where other callers run. What they do and whether the
 awaited call throws is an input, the `schedule`, so what is proved below holds for every
 interleaving and every failure. Others may publish to any partition, pause any, resume, flush and
 fail flushes of partitions that are not migrating, and make any call on the owner except with this
 migration's own token; steps the discipline of the bus forbids are skipped.
 */
module Rebalancing {
  import opened Common
  import opened MessageSequencers
  import opened ShardedBus
  import opened BusDelivery
  import opened PublishedEvents
  import opened OtherPartitions
  import PO = PartitionOwners

  datatype Plan = Plan(nextOwners: map<nat, string>, migrating: seq<nat>)

  /** What happens around the effect of one awaited call. */
  datatype Fate = Succeeds | ThrowsBefore | ThrowsAfter
  datatype Turn = Turn(fate: Fate, now: int, before: Others, after: Others)
  datatype Others = Others(onBus: seq<Op>, onOwner: seq<PO.OwnerOp>)

  /** The effects of the protocol, in the order they took place. */
  datatype Action =
    | Fence(partition: nat)
    | Drain(partition: nat)
    | Flush(partition: nat)
    | Confirm(partition: nat)
    | Assume(partition: nat)
    | UpdateOwners
    | ResumeAll

  datatype Failure = Thrown | FenceNotConfirmed(partition: nat)

  /** What the old side still held when the new owner was told to take over a partition. */
  datatype Handover = Handover(
    partition: nat,
    unflushed: seq<Event>,
    undrainedAtConfirm: seq<PO.Message>,
    undrained: seq<PO.Message>,
    stillFenced: bool)

  predicate Clean(h: Handover) {
    h.unflushed == [] && h.undrainedAtConfirm == [] && (h.stillFenced ==> h.undrained == [])
  }

  // --- the order of effects ---

  function Fences(ps: seq<nat>): seq<Action> {
    if ps == [] then [] else Fences(ps[..|ps| - 1]) + [Fence(ps[|ps| - 1])]
  }

  function Move(p: nat): seq<Action> {
    [Drain(p), Flush(p), Confirm(p), Assume(p)]
  }

  function Moves(ps: seq<nat>): seq<Action> {
    if ps == [] then [] else Moves(ps[..|ps| - 1]) + Move(ps[|ps| - 1])
  }

  /** The effects of a rebalance that goes through. */
  function Script(ps: seq<nat>): seq<Action> {
    Fences(ps) + Moves(ps) + [UpdateOwners, ResumeAll]
  }

  lemma {:induction false} FencesPrefix(ps: seq<nat>, i: nat)
    requires i <= |ps|
    ensures Fences(ps[..i]) <= Fences(ps)
  {
    if i < |ps| {
      FencesPrefix(ps[..|ps| - 1], i);
      assert ps[..|ps| - 1][..i] == ps[..i];
    } else {
      assert ps[..i] == ps;
    }
  }

  lemma {:induction false} MovesPrefix(ps: seq<nat>, i: nat)
    requires i <= |ps|
    ensures Moves(ps[..i]) <= Moves(ps)
  {
    if i < |ps| {
      MovesPrefix(ps[..|ps| - 1], i);
      assert ps[..|ps| - 1][..i] == ps[..i];
    } else {
      assert ps[..i] == ps;
    }
  }

  lemma PrefixBehind<T>(head: seq<T>, a: seq<T>, b: seq<T>)
    requires a <= b
    ensures head + a <= head + b
  {
    assert head + b == (head + a) + b[|a|..];
  }

  lemma PrefixWithin<T>(fences: seq<T>, before: seq<T>, move: seq<T>, k: nat, moves: seq<T>, tail: seq<T>)
    requires k <= |move| && before + move <= moves
    ensures fences + before + move[..k] <= fences + moves + tail
  {
    PrefixBehind(before, move[..k], move);
    assert before + move[..k] <= moves;
    PrefixBehind(fences, before + move[..k], moves);
    assert fences + (before + move[..k]) == fences + before + move[..k];
    assert fences + moves <= fences + moves + tail;
  }

  /** The first `k` effects of moving one partition, after those before it, begin the script. */
  lemma MoveInScript(ps: seq<nat>, i: nat, k: nat)
    requires i < |ps| && k <= 4
    ensures Fences(ps) + Moves(ps[..i]) + Move(ps[i])[..k] <= Script(ps)
  {
    assert ps[..i + 1][..i] == ps[..i];
    MovesPrefix(ps, i + 1);
    PrefixWithin(Fences(ps), Moves(ps[..i]), Move(ps[i]), k, Moves(ps), [UpdateOwners, ResumeAll]);
  }

  lemma MoveSteps(j: seq<Action>, p: nat)
    ensures j + Move(p)[..0] == j
    ensures j + Move(p)[..1] == j + [Drain(p)]
    ensures j + Move(p)[..2] == j + [Drain(p)] + [Flush(p)]
    ensures j + Move(p)[..3] == j + [Drain(p)] + [Flush(p)] + [Confirm(p)]
    ensures j + Move(p)[..4] == j + [Drain(p)] + [Flush(p)] + [Confirm(p)] + [Assume(p)]
  {
  }

  /** A run that stops while moving partitions has not gone through the script. */
  lemma StopsShort(ps: seq<nat>, i: nat, k: nat)
    requires i < |ps| && k <= 4
    ensures Fences(ps) + Moves(ps[..i]) + Move(ps[i])[..k] != Script(ps)
  {
    MovesAre(ps);
    MovesAre(ps[..i]);
  }

  lemma OneMoreMove(ps: seq<nat>, i: nat)
    requires i < |ps|
    ensures Fences(ps) + Moves(ps[..i]) + Move(ps[i])[..4] == Fences(ps) + Moves(ps[..i + 1])
  {
    assert ps[..i + 1][..i] == ps[..i];
    assert Move(ps[i])[..4] == Move(ps[i]);
    assert Fences(ps) + Moves(ps[..i]) + Move(ps[i]) == Fences(ps) + (Moves(ps[..i]) + Move(ps[i]));
  }

  lemma OneMoreFence(ps: seq<nat>, i: nat)
    requires i < |ps|
    ensures Fences(ps[..i + 1]) == Fences(ps[..i]) + [Fence(ps[i])]
  {
    assert ps[..i + 1][..i] == ps[..i];
  }

  lemma FencesInScript(ps: seq<nat>, i: nat)
    requires i <= |ps|
    ensures Fences(ps[..i]) <= Script(ps) && Fences(ps[..i]) != Script(ps)
  {
    FencesPrefix(ps, i);
    FencesAre(ps);
    FencesAre(ps[..i]);
    var rest := Moves(ps) + [UpdateOwners, ResumeAll];
    assert Script(ps) == Fences(ps) + rest;
  }

  lemma {:induction false} FencesAre(ps: seq<nat>)
    ensures |Fences(ps)| == |ps| && forall i | 0 <= i < |ps| :: Fences(ps)[i] == Fence(ps[i])
  {
    if ps != [] {
      FencesAre(ps[..|ps| - 1]);
    }
  }

  lemma {:induction false} MovesAre(ps: seq<nat>)
    ensures |Moves(ps)| == 4 * |ps|
    ensures forall i | 0 <= i < |ps| :: Moves(ps)[4 * i..4 * i + 4] == Move(ps[i])
  {
    if ps != [] {
      var front, last := ps[..|ps| - 1], ps[|ps| - 1];
      MovesAre(front);
      var before := Moves(front);
      assert Moves(ps) == before + Move(last) && |Move(last)| == 4;
      hide Moves, Move;
      forall i | 0 <= i < |ps| ensures Moves(ps)[4 * i..4 * i + 4] == Move(ps[i]) {
        if i < |front| {
          SliceBefore(before, Move(last), 4 * i, 4 * i + 4);
        } else {
          assert 4 * i == |before|;
        }
      }
    }
  }

  lemma SliceBefore<T>(a: seq<T>, b: seq<T>, lo: nat, hi: nat)
    requires lo <= hi <= |a|
    ensures (a + b)[lo..hi] == a[lo..hi]
  {
  }

  /** The safety of an order of effects. */
  predicate Safe(ps: seq<nat>, trace: seq<Action>) {
    && (forall i | 0 <= i < |trace| && trace[i].Assume? ::
          && (forall p | p in ps :: Fence(p) in trace[..i])
          && i >= 3
          && trace[i - 3..i] == [Drain(trace[i].partition), Flush(trace[i].partition), Confirm(trace[i].partition)])
    && (forall i | 0 <= i < |trace| && (trace[i].UpdateOwners? || trace[i].ResumeAll?) ::
          forall p | p in ps :: Assume(p) in trace[..i])
  }

  lemma ActionAt(ps: seq<nat>, i: nat)
    requires i < |Script(ps)|
    ensures |Script(ps)| == 5 * |ps| + 2
    ensures i < |ps| ==> Script(ps)[i] == Fence(ps[i])
    ensures |ps| <= i < 5 * |ps| ==>
              var j := i - |ps|;
              Script(ps)[i] == Move(ps[j / 4])[j % 4] && Script(ps)[i - j % 4..i - j % 4 + 4] == Move(ps[j / 4])
  {
    hide Fences, Moves;
    FencesAre(ps);
    MovesAre(ps);
    if |ps| <= i < 5 * |ps| {
      var j := i - |ps|;
      var q := j / 4;
      assert Moves(ps)[4 * q..4 * q + 4] == Move(ps[q]);
      assert Moves(ps)[4 * q..4 * q + 4][j % 4] == Moves(ps)[j];
      assert Script(ps)[|ps| + 4 * q..|ps| + 4 * q + 4] == Moves(ps)[4 * q..4 * q + 4];
    }
  }

  lemma FencedBefore(ps: seq<nat>, trace: seq<Action>, i: nat, p: nat)
    requires trace <= Script(ps) && |ps| <= i < |trace| && p in ps
    ensures Fence(p) in trace[..i]
  {
    var k :| 0 <= k < |ps| && ps[k] == p;
    ActionAt(ps, k);
    assert trace[..i][k] == Fence(p);
  }

  lemma AssumedBefore(ps: seq<nat>, trace: seq<Action>, i: nat, p: nat)
    requires trace <= Script(ps) && i < |trace| && (trace[i].UpdateOwners? || trace[i].ResumeAll?) && p in ps
    ensures Assume(p) in trace[..i]
  {
    ActionAt(ps, i);
    assert i >= 5 * |ps|;
    var k :| 0 <= k < |ps| && ps[k] == p;
    var at := |ps| + 4 * k + 3;
    ActionAt(ps, at);
    assert trace[..i][at] == Assume(p);
  }

  lemma LastTwo(ps: seq<nat>)
    ensures |Script(ps)| == 5 * |ps| + 2 && Script(ps)[5 * |ps|..] == [UpdateOwners, ResumeAll]
  {
    FencesAre(ps);
    MovesAre(ps);
  }

  lemma JustBeforeAssume(ps: seq<nat>, trace: seq<Action>, i: nat)
    requires trace <= Script(ps) && i < |trace| && trace[i].Assume?
    ensures i >= |ps| + 3
    ensures trace[i - 3..i] == [Drain(trace[i].partition), Flush(trace[i].partition), Confirm(trace[i].partition)]
  {
    hide Script, Fences, Moves;
    ActionAt(ps, i);
    LastTwo(ps);
    var j := i - |ps|;
    assert 0 <= j < 4 * |ps| && j % 4 == 3;
    var move := Move(ps[j / 4]);
    assert Script(ps)[i - 3..i + 1] == move;
    assert trace[i - 3..i + 1] == Script(ps)[i - 3..i + 1];
    assert trace[i - 3..i] == trace[i - 3..i + 1][..3];
  }

  /**
   However far a rebalance gets: a partition is assumed only after every migrating partition was
   fenced, and right after it was itself drained, flushed and confirmed; and owners change and
   partitions resume only after every migrating partition was assumed.
   */
  lemma ScriptIsSafe(ps: seq<nat>, trace: seq<Action>)
    requires trace <= Script(ps)
    ensures Safe(ps, trace)
  {
    hide Script;
    forall i | 0 <= i < |trace| && trace[i].Assume?
      ensures forall p | p in ps :: Fence(p) in trace[..i]
      ensures i >= 3
      ensures trace[i - 3..i] == [Drain(trace[i].partition), Flush(trace[i].partition), Confirm(trace[i].partition)]
    {
      JustBeforeAssume(ps, trace, i);
      forall p | p in ps ensures Fence(p) in trace[..i] {
        FencedBefore(ps, trace, i, p);
      }
    }
    forall i, p | 0 <= i < |trace| && (trace[i].UpdateOwners? || trace[i].ResumeAll?) && p in ps
      ensures Assume(p) in trace[..i]
    {
      AssumedBefore(ps, trace, i, p);
    }
  }

  // --- what others can do meanwhile ---

  /** What others did while a part of the protocol ran: the steps they took, and the events these published. */
  datatype Meanwhile = Meanwhile(published: seq<Event>, onBus: seq<Op>, onOwner: seq<PO.OwnerOp>) {
    function Then(next: Meanwhile): Meanwhile {
      Meanwhile(published + next.published, onBus + next.onBus, onOwner + next.onOwner)
    }
  }

  const NOTHING := Meanwhile([], [], [])

  /** The bus and the old owner. */
  datatype World = World(bus: BusState, owner: PO.OwnerState)

  predicate InTurn(op: Op, t: Turn) {
    op in t.before.onBus || op in t.after.onBus
  }

  predicate InTurnOnOwner(op: PO.OwnerOp, t: Turn) {
    op in t.before.onOwner || op in t.after.onOwner
  }

  /** Every step taken is one that some turn holds. */
  ghost predicate From(m: Meanwhile, turns: set<Turn>) {
    && (forall op | op in m.onBus :: exists t :: t in turns && InTurn(op, t))
    && (forall op | op in m.onOwner :: exists t :: t in turns && InTurnOnOwner(op, t))
  }

  lemma FromThen(a: Meanwhile, b: Meanwhile, ta: set<Turn>, tb: set<Turn>, turns: set<Turn>)
    requires From(a, ta) && From(b, tb) && ta <= turns && tb <= turns
    ensures From(a.Then(b), turns)
  {
    hide InTurn, InTurnOnOwner;
  }

  /** On partitions that are not migrating, the world is what the steps of the others alone have made of it. */
  ghost predicate Aside(cfg: Config, ps: seq<nat>, w: World, w': World, turns: set<Turn>, m: Meanwhile)
    requires cfg.Valid()
  {
    && From(m, turns)
    && BusAside(cfg, ps, w.bus, w'.bus, m.onBus)
    && OwnerAside(ps, w.owner, w'.owner, m.onOwner)
  }

  lemma AsideThen(cfg: Config, ps: seq<nat>, w: World, w1: World, w2: World,
      ta: set<Turn>, tb: set<Turn>, turns: set<Turn>, a: Meanwhile, b: Meanwhile)
    requires cfg.Valid() && Aside(cfg, ps, w, w1, ta, a) && Aside(cfg, ps, w1, w2, tb, b)
    requires ta <= turns && tb <= turns
    ensures Aside(cfg, ps, w, w2, turns, a.Then(b))
  {
    hide From, BusAside, OwnerAside;
    FromThen(a, b, ta, tb, turns);
    BusAsideTransitive(cfg, ps, w.bus, w1.bus, w2.bus, a.onBus, b.onBus);
    OwnerAsideTransitive(ps, w.owner, w1.owner, w2.owner, a.onOwner, b.onOwner);
  }

  lemma AsideOwn(cfg: Config, ps: seq<nat>, w: World, w': World)
    requires cfg.Valid() && SameElsewhere(cfg, w'.bus, w.bus, ps) && OwnerSame(w'.owner, w.owner, ps)
    ensures Aside(cfg, ps, w, w', {}, NOTHING)
  {
    hide SameElsewhere, OwnerSame;
  }

  lemma AsideBus(cfg: Config, ps: seq<nat>, w: World, op: Op)
    requires cfg.Valid() && Own(op, ps) && Possible(w.bus, op)
    ensures Aside(cfg, ps, w, w.(bus := Step(cfg, w.bus, op).0), {}, NOTHING)
  {
    OwnStepSame(cfg, w.bus, op, ps);
    AsideOwn(cfg, ps, w, w.(bus := Step(cfg, w.bus, op).0));
  }

  lemma AsideOwner(cfg: Config, ps: seq<nat>, w: World, op: PO.OwnerOp)
    requires cfg.Valid() && (op.Activate? || op.Drain?) && op.partition in ps
    ensures Aside(cfg, ps, w, w.(owner := PO.OwnerStep(w.owner, op).0), {}, NOTHING)
  {
    SameReflexive(cfg, w.bus, ps);
    AsideOwn(cfg, ps, w, w.(owner := PO.OwnerStep(w.owner, op).0));
  }

  lemma AsideStill(cfg: Config, ps: seq<nat>, w: World)
    requires cfg.Valid()
    ensures Aside(cfg, ps, w, w, {}, NOTHING)
  {
    SameReflexive(cfg, w.bus, ps);
    AsideOwn(cfg, ps, w, w);
  }

  lemma ThenNothing(m: Meanwhile)
    ensures m.Then(NOTHING) == m && NOTHING.Then(m) == m
  {
  }

  /** Others run, the protocol takes a step of its own, others run again. */
  lemma AsideAround(cfg: Config, ps: seq<nat>, w: World, w1: World, w2: World, w3: World,
      turns: set<Turn>, a: Meanwhile, b: Meanwhile)
    requires cfg.Valid() && Aside(cfg, ps, w, w1, turns, a)
    requires Aside(cfg, ps, w1, w2, {}, NOTHING) && Aside(cfg, ps, w2, w3, turns, b)
    ensures Aside(cfg, ps, w, w3, turns, a.Then(b))
  {
    hide Aside;
    ThenNothing(a);
    AsideThen(cfg, ps, w, w1, w2, turns, {}, turns, a, NOTHING);
    AsideThen(cfg, ps, w, w2, w3, turns, turns, turns, a, b);
  }

  // --- the logs of the migrating partitions ---

  ghost predicate LogsKept(s: BusState, s': BusState, ps: seq<nat>) {
    forall p | p in ps :: Records(s', p) == Records(s, p)
  }

  /** What was added to a log carries the migration's id and this node's name. */
  predicate Stamps(was: seq<Record>, now: seq<Record>, id: string, node: string) {
    && |was| <= |now| && now[..|was|] == was
    && forall i | |was| <= i < |now| :: now[i].migrationId == id && now[i].ownerNodeId == node
  }

  ghost predicate LogsStamped(s: BusState, s': BusState, ps: seq<nat>, id: string, node: string) {
    forall p | p in ps :: Stamps(Records(s, p), Records(s', p), id, node)
  }

  lemma LogsKeptThen(s: BusState, s1: BusState, s2: BusState, ps: seq<nat>)
    requires LogsKept(s, s1, ps) && LogsKept(s1, s2, ps)
    ensures LogsKept(s, s2, ps)
  {
    hide Records;
  }

  lemma LogsStampedThen(s: BusState, s1: BusState, s2: BusState, ps: seq<nat>, id: string, node: string)
    requires LogsKept(s, s1, ps) || LogsStamped(s, s1, ps, id, node)
    requires LogsKept(s1, s2, ps) || LogsStamped(s1, s2, ps, id, node)
    ensures LogsStamped(s, s2, ps, id, node)
  {
    hide Records;
    forall p | p in ps ensures Stamps(Records(s, p), Records(s2, p), id, node) {
      StampsThen(Records(s, p), Records(s1, p), Records(s2, p), id, node);
    }
  }

  lemma StampsThen(a: seq<Record>, b: seq<Record>, c: seq<Record>, id: string, node: string)
    requires a == b || Stamps(a, b, id, node)
    requires b == c || Stamps(b, c, id, node)
    ensures Stamps(a, c, id, node)
  {
    assert a[..|a|] == a && b[..|b|] == b;
    if b == c {
    } else {
      assert c[..|a|] == b[..|a|];
      forall i | |a| <= i < |c| ensures c[i].migrationId == id && c[i].ownerNodeId == node {
        assert i < |b| ==> c[i] == b[i];
      }
    }
  }

  /** What stays as it is for the migrating partitions while others run. */
  ghost predicate Undisturbed(s: BusState, s': BusState, ps: seq<nat>) {
    && FlightsExact(s') && s'.owners == s.owners
    && (forall p | p in ps && p in s.paused :: p in s'.paused && s'.Buffer(p) == s.Buffer(p))
    && (forall p | p in ps :: p in s'.flights <==> p in s.flights)
    && (forall p | p in ps && p in s.flights :: s'.flights[p] == s.flights[p])
    && LogsKept(s, s', ps)
  }

  /** For every partition, log plus buffer grew by exactly what was published to it. */
  ghost predicate TotalsGrew(s: BusState, s': BusState, published: seq<Event>) {
    forall p: nat :: Total(s', p) == Total(s, p) + OfPartition(published, p)
  }

  /** A token still confirmed was confirmed all along, and its partition's buffer is untouched. */
  ghost predicate OwnerKept(o: PO.OwnerState, o': PO.OwnerState, token: string) {
    forall p: nat | o'.Confirms(p, token) :: o.Confirms(p, token) && o'.Buffer(p) == o.Buffer(p)
  }

  lemma StepGrows(cfg: Config, s: BusState, op: Op)
    requires cfg.Valid() && FlightsExact(s) && Allowed(s, op)
    ensures var (s', published) := Step(cfg, s, op); FlightsExact(s') && TotalsGrew(s, s', published)
  {
    StepKeepsFlightsExact(cfg, s, op);
    var (s', published) := Step(cfg, s, op);
    hide Step;
    forall p: nat ensures Total(s', p) == Total(s, p) + OfPartition(published, p) {
      StepTotal(cfg, s, op, p);
    }
  }

  lemma StepUndisturbed(cfg: Config, s: BusState, op: Op, ps: seq<nat>)
    requires cfg.Valid() && FlightsExact(s) && Allowed(s, op) && Foreign(op, ps)
    ensures Undisturbed(s, Step(cfg, s, op).0, ps)
  {
    StepKeepsFlightsExact(cfg, s, op);
  }

  lemma GrewTransitive(s: BusState, s1: BusState, s2: BusState, a: seq<Event>, b: seq<Event>)
    requires TotalsGrew(s, s1, a) && TotalsGrew(s1, s2, b)
    ensures TotalsGrew(s, s2, a + b)
  {
    hide Total, OfPartition;
    forall p: nat ensures Total(s2, p) == Total(s, p) + OfPartition(a + b, p) {
      OfPartitionConcat(a, b, p);
      assert Total(s2, p) == Total(s1, p) + OfPartition(b, p);
      assert Total(s1, p) == Total(s, p) + OfPartition(a, p);
      assert Total(s, p) + (OfPartition(a, p) + OfPartition(b, p))
          == Total(s, p) + OfPartition(a, p) + OfPartition(b, p);
    }
  }

  lemma GrewReflexive(s: BusState)
    ensures TotalsGrew(s, s, [])
  {
    forall p: nat ensures Total(s, p) == Total(s, p) + OfPartition([], p) {
      assert OfPartition([], p) == [];
    }
  }

  lemma OwnerStepKept(o: PO.OwnerState, op: PO.OwnerOp, token: string)
    requires !op.Append? ==> op.token != token
    ensures OwnerKept(o, PO.OwnerStep(o, op).0, token)
  {
  }

  // --- when nothing goes wrong ---

  /** Others leave the fences of the migrating partitions alone. */
  predicate Peaceful(o: Others, ps: seq<nat>) {
    forall op | op in o.onOwner && op.Activate? :: op.partition !in ps
  }

  predicate PeacefulTurn(turn: Turn, ps: seq<nat>) {
    Peaceful(turn.before, ps) && Peaceful(turn.after, ps)
  }

  /** The awaited call succeeds while others leave the fences alone. */
  predicate Smooth(turn: Turn, ps: seq<nat>) {
    turn.fate == Succeeds && PeacefulTurn(turn, ps)
  }

  predicate AllSucceed(schedule: nat -> Turn, from: nat, to: nat) {
    forall i: nat | from <= i < to :: schedule(i).fate == Succeeds
  }

  predicate AllPeaceful(schedule: nat -> Turn, from: nat, to: nat, ps: seq<nat>) {
    forall i: nat | from <= i < to :: PeacefulTurn(schedule(i), ps)
  }

  lemma BothPhases(schedule: nat -> Turn, n: nat, ps: seq<nat>)
    ensures AllSucceed(schedule, 0, 5 * n) <==> AllSucceed(schedule, 0, n) && AllSucceed(schedule, n, 5 * n)
    ensures AllPeaceful(schedule, 0, 5 * n, ps) <==>
            AllPeaceful(schedule, 0, n, ps) && AllPeaceful(schedule, n, 5 * n, ps)
  {
    hide PeacefulTurn;
  }

  /** No fence of the token on a migrating partition was lost. */
  ghost predicate FencesHeld(o: PO.OwnerState, o': PO.OwnerState, ps: seq<nat>, token: string) {
    forall p | p in ps && o.Confirms(p, token) :: o'.Confirms(p, token)
  }

  lemma PeacefulStep(o: PO.OwnerState, op: PO.OwnerOp, ps: seq<nat>, token: string)
    requires !op.Append? ==> op.token != token
    requires op.Activate? ==> op.partition !in ps
    ensures FencesHeld(o, PO.OwnerStep(o, op).0, ps, token)
  {
  }

  /** The turns of one partition in the second phase. */
  function TurnsAt(schedule: nat -> Turn, at: nat): (turns: seq<Turn>)
    ensures |turns| == 4
  {
    [schedule(at), schedule(at + 1), schedule(at + 2), schedule(at + 3)]
  }

  lemma AllSmooth(schedule: nat -> Turn, from: nat, to: nat, at: nat, ps: seq<nat>)
    requires from <= at && at + 4 <= to
    requires AllSucceed(schedule, from, to) && AllPeaceful(schedule, from, to, ps)
    ensures forall t | t in TurnsAt(schedule, at) :: Smooth(t, ps)
  {
  }

  predicate AllHeld(o: PO.OwnerState, ps: seq<nat>, token: string) {
    forall i | 0 <= i < |ps| :: o.Confirms(ps[i], token)
  }

  lemma StillHeld(o: PO.OwnerState, o': PO.OwnerState, ps: seq<nat>, token: string)
    requires AllHeld(o, ps, token) && FencesHeld(o, o', ps, token)
    ensures AllHeld(o', ps, token)
  {
    forall i | 0 <= i < |ps| ensures o'.Confirms(ps[i], token) {
      assert ps[i] in ps && o.Confirms(ps[i], token);
    }
  }

  lemma OneMoreHeld(o: PO.OwnerState, o': PO.OwnerState, ps: seq<nat>, i: nat, token: string)
    requires i < |ps| && AllHeld(o, ps[..i], token) && FencesHeld(o, o', ps, token) && o'.Confirms(ps[i], token)
    ensures AllHeld(o', ps[..i + 1], token)
  {
    var front, more := ps[..i], ps[..i + 1];
    forall j | 0 <= j < |more| ensures o'.Confirms(more[j], token) {
      if j < i {
        assert more[j] == front[j] && front[j] in ps && o.Confirms(front[j], token);
      }
    }
  }

  lemma OneMoreSuccess(schedule: nat -> Turn, i: nat, n: nat, ps: seq<nat>)
    requires i < n && AllSucceed(schedule, 0, i)
    ensures AllSucceed(schedule, 0, i + 1) <==> schedule(i).fate == Succeeds
    ensures AllSucceed(schedule, 0, n) && AllPeaceful(schedule, 0, n, ps) ==> Smooth(schedule(i), ps)
    ensures AllPeaceful(schedule, 0, n, ps) && schedule(i).fate == Succeeds ==> Smooth(schedule(i), ps)
  {
    hide PeacefulTurn;
  }

  lemma HeldAt(o: PO.OwnerState, ps: seq<nat>, i: nat, token: string)
    requires i < |ps| && AllHeld(o, ps, token)
    ensures o.Confirms(ps[i], token)
  {
  }

  lemma FourMore(schedule: nat -> Turn, from: nat, at: nat)
    requires from <= at && AllSucceed(schedule, from, at)
    requires forall t | t in TurnsAt(schedule, at) :: t.fate == Succeeds
    ensures AllSucceed(schedule, from, at + 4)
  {
    var turns := TurnsAt(schedule, at);
    forall i: nat | at <= i < at + 4 ensures schedule(i).fate == Succeeds {
      assert schedule(i) == turns[i - at];
    }
  }

  /** All migrating partitions are paused and none is being flushed. */
  ghost predicate Ready(s: BusState, ps: seq<nat>) {
    FlightsExact(s) && forall p | p in ps :: p in s.paused && p !in s.flights
  }

  /** What every part of the protocol between the pause and the resume keeps. */
  ghost predicate Carried(s: BusState, s': BusState, ps: seq<nat>, published: seq<Event>) {
    && Ready(s', ps) && s'.owners == s.owners && TotalsGrew(s, s', published)
    && forall p | p in ps && s.Buffer(p) == [] :: s'.Buffer(p) == []
  }

  lemma CarriedTransitive(s: BusState, s1: BusState, s2: BusState, ps: seq<nat>, a: seq<Event>, b: seq<Event>)
    requires Carried(s, s1, ps, a) && Carried(s1, s2, ps, b)
    ensures Carried(s, s2, ps, a + b) && Ready(s2, ps)
  {
    GrewTransitive(s, s1, s2, a, b);
  }

  lemma CarriedBuffer(s: BusState, s': BusState, ps: seq<nat>, p: nat, published: seq<Event>)
    requires p in ps && Carried(s, s', ps, published)
    ensures Ready(s', ps) && (s.Buffer(p) == [] ==> s'.Buffer(p) == [])
  {
  }

  lemma CarriedReflexive(s: BusState, ps: seq<nat>)
    requires Ready(s, ps)
    ensures Carried(s, s, ps, [])
  {
    GrewReflexive(s);
  }

  /** Pausing the migrating partitions makes them ready. */
  lemma PausedIsReady(cfg: Config, s: BusState, ps: seq<nat>)
    requires cfg.Valid() && FlightsExact(s) && forall p | p in ps :: p !in s.flights
    ensures var s' := Step(cfg, s, Pause(ps)).0;
            Ready(s', ps) && s'.owners == s.owners && TotalsGrew(s, s', [])
  {
    StepGrows(cfg, s, Pause(ps));
  }

  lemma CarriedOn(s: BusState, s1: BusState, s2: BusState, ps: seq<nat>, a: seq<Event>, b: seq<Event>)
    requires TotalsGrew(s, s1, a) && s1.owners == s.owners && Carried(s1, s2, ps, b)
    ensures TotalsGrew(s, s2, a + b) && s2.owners == s.owners
    ensures Ready(s2, ps) && FlightsExact(s2) && forall p | p in ps :: p in s2.paused
    ensures a == [] ==> TotalsGrew(s, s2, b)
  {
    GrewTransitive(s, s1, s2, a, b);
    assert [] + b == b;
  }

  /** The first `n` partitions hold nothing that is not in their logs. */
  ghost predicate Flushed(s: BusState, ps: seq<nat>, n: nat)
    requires n <= |ps|
  {
    forall i | 0 <= i < n :: s.Buffer(ps[i]) == []
  }

  lemma OneMoreFlushed(s: BusState, s': BusState, ps: seq<nat>, n: nat, published: seq<Event>)
    requires n < |ps| && Flushed(s, ps, n) && Carried(s, s', ps, published) && s'.Buffer(ps[n]) == []
    ensures Flushed(s', ps, n + 1)
  {
    forall i | 0 <= i < n + 1 ensures s'.Buffer(ps[i]) == [] {
      if i < n {
        assert ps[i] in ps && s.Buffer(ps[i]) == [];
      }
    }
  }

  /** The handovers of the first `n` partitions. */
  predicate HandedOver(hs: seq<Handover>, ps: seq<nat>, n: nat)
    requires n <= |ps|
  {
    |hs| == n && (forall i | 0 <= i < n :: hs[i].partition == ps[i]) && forall h | h in hs :: Clean(h)
  }

  lemma AllClean(hs: seq<Handover>, ps: seq<nat>)
    requires HandedOver(hs, ps, |ps|)
    ensures forall h | h in hs :: Clean(h)
  {
  }

  lemma NothingFenced(o: PO.OwnerState, ps: seq<nat>, token: string, schedule: nat -> Turn)
    ensures Fences(ps[..0]) == [] && AllSucceed(schedule, 0, 0) && AllHeld(o, ps[..0], token)
  {
  }

  /** Nothing has been moved yet. */
  lemma BeforeMoves(s: BusState, ps: seq<nat>, schedule: nat -> Turn)
    requires Ready(s, ps)
    ensures Carried(s, s, ps, []) && Fences(ps) + Moves(ps[..0]) == Fences(ps)
    ensures HandedOver([], ps, 0) && Flushed(s, ps, 0) && AllSucceed(schedule, |ps|, |ps|)
  {
    CarriedReflexive(s, ps);
  }

  lemma OneMoreHandedOver(hs: seq<Handover>, more: seq<Handover>, ps: seq<nat>, n: nat)
    requires n < |ps| && HandedOver(hs, ps, n) && |more| <= 1
    requires forall h | h in more :: h.partition == ps[n] && Clean(h)
    ensures |more| == 1 ==> HandedOver(hs + more, ps, n + 1)
    ensures forall h | h in hs + more :: Clean(h)
  {
    hide Clean;
    if |more| == 1 {
      assert more[0] in more;
    }
  }

  /** The same while `p` is being flushed. */
  ghost predicate Flushing(s: BusState, s': BusState, ps: seq<nat>, p: nat, written: bool, published: seq<Event>) {
    && FlightsExact(s') && s'.owners == s.owners && TotalsGrew(s, s', published)
    && (forall q | q in ps :: q in s'.paused && (q in s'.flights <==> q == p))
    && (p in s'.flights && s'.flights[p].written == written)
    && forall q | q in ps && s.Buffer(q) == [] :: s'.Buffer(q) == []
  }

  lemma BeginFlushing(cfg: Config, s: BusState, ps: seq<nat>, p: nat, id: string, at: int)
    requires cfg.Valid() && Ready(s, ps) && p in ps
    ensures Flushing(s, Step(cfg, s, FlushBegin(p, id, at)).0, ps, p, false, [])
  {
    StepGrows(cfg, s, FlushBegin(p, id, at));
  }

  lemma OthersWhileFlushing(s: BusState, s1: BusState, s2: BusState, ps: seq<nat>, p: nat, w: bool, a: seq<Event>,
      b: seq<Event>)
    requires Flushing(s, s1, ps, p, w, a) && p in ps && Undisturbed(s1, s2, ps) && TotalsGrew(s1, s2, b)
    ensures Flushing(s, s2, ps, p, w, a + b)
  {
    GrewTransitive(s, s1, s2, a, b);
  }

  lemma WriteFlushing(cfg: Config, s: BusState, s1: BusState, ps: seq<nat>, p: nat, a: seq<Event>)
    requires cfg.Valid() && Flushing(s, s1, ps, p, false, a) && p in ps
    ensures Flushing(s, Step(cfg, s1, FlushWrite(p)).0, ps, p, true, a)
  {
    StepGrows(cfg, s1, FlushWrite(p));
    GrewTransitive(s, s1, Step(cfg, s1, FlushWrite(p)).0, a, []);
    assert a + [] == a;
  }

  lemma StopFlushing(cfg: Config, s: BusState, s1: BusState, ps: seq<nat>, p: nat, w: bool, a: seq<Event>)
    requires cfg.Valid() && Flushing(s, s1, ps, p, w, a) && p in ps
    ensures var s2 := Step(cfg, s1, if w then FlushEnd(p) else FlushFail(p)).0;
            Carried(s, s2, ps, a) && (w ==> s2.Buffer(p) == [])
  {
    var op := if w then FlushEnd(p) else FlushFail(p);
    StepGrows(cfg, s1, op);
    GrewTransitive(s, s1, Step(cfg, s1, op).0, a, []);
    assert a + [] == a;
  }

  // --- bookkeeping of one awaited call and of the phases ---

  lemma QuietLogs(cfg: Config, s: BusState, op: Op, ps: seq<nat>)
    requires cfg.Valid() && Possible(s, op) && !op.FlushWrite?
    ensures LogsKept(s, Step(cfg, s, op).0, ps)
  {
  }

  /** Writing a flight puts its stamped records into the log of its partition. */
  lemma WriteStamps(cfg: Config, s: BusState, ps: seq<nat>, p: nat, es: seq<Event>, id: string, at: int)
    requires cfg.Valid() && Possible(s, FlushWrite(p)) && s.flights[p].records == Stamp(es, id, cfg.localNodeId, at)
    ensures LogsStamped(s, Step(cfg, s, FlushWrite(p)).0, ps, id, cfg.localNodeId)
  {
    Stamped(es, id, cfg.localNodeId, at);
    WriteAdds(cfg, s, p);
    hide Stamp;
    var s' := Step(cfg, s, FlushWrite(p)).0;
    forall q | q in ps ensures Stamps(Records(s, q), Records(s', q), id, cfg.localNodeId) {
      if q != p {
        StepKeepsRecords(cfg, s, FlushWrite(p), q);
      }
    }
  }

  lemma LogsStampedOr(s: BusState, s': BusState, ps: seq<nat>, id: string, node: string)
    requires LogsKept(s, s', ps)
    ensures LogsStamped(s, s', ps, id, node)
  {
    LogsStampedThen(s, s', s', ps, id, node);
  }

  /** The turns from `lo` up to `hi`. */
  ghost function TurnSet(schedule: nat -> Turn, lo: nat, hi: nat): set<Turn> {
    set i: nat | lo <= i < hi :: schedule(i)
  }

  ghost function SetOf(turns: seq<Turn>): set<Turn> {
    set t | t in turns
  }

  lemma TurnsWithin(schedule: nat -> Turn, lo: nat, hi: nat, at: nat)
    ensures lo <= at < hi ==> {schedule(at)} <= TurnSet(schedule, lo, hi)
    ensures lo <= at && at + 4 <= hi ==> SetOf(TurnsAt(schedule, at)) <= TurnSet(schedule, lo, hi)
  {
    if lo <= at && at + 4 <= hi {
      var turns := TurnsAt(schedule, at);
      forall t | t in turns ensures t in TurnSet(schedule, lo, hi) {
        var k :| 0 <= k < 4 && turns[k] == t;
        assert t == schedule(at + k);
      }
    }
  }

  lemma PhaseTurns(schedule: nat -> Turn, n: nat)
    ensures TurnSet(schedule, 0, n) <= TurnSet(schedule, 0, 5 * n)
    ensures TurnSet(schedule, n, 5 * n) <= TurnSet(schedule, 0, 5 * n)
  {
  }

  lemma Widened(cfg: Config, ps: seq<nat>, w: World, w': World, some: set<Turn>, turns: set<Turn>, m: Meanwhile)
    requires cfg.Valid() && Aside(cfg, ps, w, w', some, m) && some <= turns
    ensures Aside(cfg, ps, w, w', turns, m)
  {
    hide BusAside, OwnerAside;
    assert From(m, turns) by {
      hide InTurn, InTurnOnOwner;
    }
  }

  /**
   A partition that is not migrating is paused afterwards exactly when the pauses and resumes of the
   others leave it so; when none of theirs names it, exactly when it was before.
   */
  lemma PausedElsewhere(cfg: Config, ps: seq<nat>, w: World, w': World, turns: set<Turn>, m: Meanwhile)
    requires cfg.Valid() && Aside(cfg, ps, w, w', turns, m)
    ensures forall q: nat | q !in ps :: q in w'.bus.paused <==> q in AllRepaused(w.bus.paused, m.onBus)
    ensures forall q: nat | q !in ps && !NamedIn(turns, q) :: q in w'.bus.paused <==> q in w.bus.paused
  {
    hide Run, Runnable, AllRepaused, OwnerAside;
    RunPauses(cfg, w.bus, m.onBus);
    var t := Run(cfg, w.bus, m.onBus).0;
    forall q: nat | q !in ps ensures q in w'.bus.paused <==> q in AllRepaused(w.bus.paused, m.onBus) {
      assert SameAt(cfg, w'.bus, t, q);
    }
    forall q: nat | q !in ps && !NamedIn(turns, q) ensures q in w'.bus.paused <==> q in w.bus.paused {
      UnnamedStays(w.bus.paused, m.onBus, q);
    }
  }

  /** Some step of some turn pauses or resumes the partition. */
  ghost predicate NamedIn(turns: set<Turn>, q: nat) {
    exists t, op :: t in turns && InTurn(op, t) && Names(op, q)
  }

  lemma ReleaseGrows(s: BusState, s1: BusState, s2: BusState, ps: seq<nat>, a: seq<Event>)
    requires TotalsGrew(s, s1, a) && s2.log == s1.log && s2.buffers == s1.buffers && s2.flights == s1.flights
    requires Ready(s1, ps) && Flushed(s1, ps, |ps|) && s2.paused == s1.paused - (set p | p in ps)
    ensures TotalsGrew(s, s2, a) && FlightsExact(s2)
    ensures forall p | p in ps :: p !in s2.paused && s2.Buffer(p) == []
  {
    forall p: nat ensures Total(s2, p) == Total(s, p) + OfPartition(a, p) {
      assert Total(s2, p) == Total(s1, p);
    }
  }

  lemma BeforeOthers(cfg: Config, ps: seq<nat>, w: World)
    requires cfg.Valid() && FlightsExact(w.bus)
    ensures Undisturbed(w.bus, w.bus, ps) && TotalsGrew(w.bus, w.bus, [])
    ensures BusAside(cfg, ps, w.bus, w.bus, []) && OwnerAside(ps, w.owner, w.owner, [])
  {
    GrewReflexive(w.bus);
    SameReflexive(cfg, w.bus, ps);
  }

  lemma UndisturbedThen(s: BusState, s1: BusState, s2: BusState, ps: seq<nat>)
    requires Undisturbed(s, s1, ps) && Undisturbed(s1, s2, ps)
    ensures Undisturbed(s, s2, ps)
  {
    hide Records, FlightsExact;
  }

  /** Others take one more step on the bus. */
  lemma OneMoreStep(cfg: Config, ps: seq<nat>, s: BusState, was: BusState, op: Op, so: Meanwhile)
    requires cfg.Valid() && FlightsExact(was) && Allowed(was, op) && Foreign(op, ps)
    requires Undisturbed(s, was, ps) && TotalsGrew(s, was, so.published) && BusAside(cfg, ps, s, was, so.onBus)
    ensures var (s', more) := Step(cfg, was, op);
            && FlightsExact(s') && Undisturbed(s, s', ps) && TotalsGrew(s, s', so.published + more)
            && BusAside(cfg, ps, s, s', so.onBus + [op])
  {
    StepGrows(cfg, was, op);
    StepUndisturbed(cfg, was, op, ps);
    BusAsideStep(cfg, ps, was, op);
    hide Undisturbed, TotalsGrew, BusAside, Step, FlightsExact, Foreign;
    var (s', more) := Step(cfg, was, op);
    UndisturbedThen(s, was, s', ps);
    GrewTransitive(s, was, s', so.published, more);
    BusAsideTransitive(cfg, ps, s, was, s', so.onBus, [op]);
  }

  lemma FromOthers(m: Meanwhile, o: Others, turn: Turn)
    requires o == turn.before || o == turn.after
    requires (forall op | op in m.onBus :: op in o.onBus) && forall op | op in m.onOwner :: op in o.onOwner
    ensures From(m, {turn})
  {
    assert turn in {turn};
    forall op | op in m.onBus ensures exists t :: t in {turn} && InTurn(op, t) {
      assert InTurn(op, turn);
    }
    forall op | op in m.onOwner ensures exists t :: t in {turn} && InTurnOnOwner(op, t) {
      assert InTurnOnOwner(op, turn);
    }
  }

  lemma InSet(turns: seq<Turn>)
    ensures forall i | 0 <= i < |turns| :: {turns[i]} <= SetOf(turns)
  {
  }

  lemma BeforePhase(cfg: Config, ps: seq<nat>, w: World, turns: set<Turn>)
    requires cfg.Valid()
    ensures Aside(cfg, ps, w, w, turns, NOTHING) && LogsKept(w.bus, w.bus, ps)
  {
    AsideStill(cfg, ps, w);
    Widened(cfg, ps, w, w, {}, turns, NOTHING);
  }

  /** One more awaited call of moving a partition. */
  lemma Onward(cfg: Config, ps: seq<nat>, w: World, w1: World, w2: World, turn: Turn, all: set<Turn>,
      a: Meanwhile, b: Meanwhile, id: string)
    requires cfg.Valid() && turn in all
    requires Aside(cfg, ps, w, w1, all, a) && Aside(cfg, ps, w1, w2, {turn}, b)
    requires Carried(w.bus, w1.bus, ps, a.published) && Carried(w1.bus, w2.bus, ps, b.published)
    requires LogsStamped(w.bus, w1.bus, ps, id, cfg.localNodeId)
    requires LogsKept(w1.bus, w2.bus, ps) || LogsStamped(w1.bus, w2.bus, ps, id, cfg.localNodeId)
    ensures Aside(cfg, ps, w, w2, all, a.Then(b)) && Carried(w.bus, w2.bus, ps, a.Then(b).published)
    ensures LogsStamped(w.bus, w2.bus, ps, id, cfg.localNodeId) && Ready(w2.bus, ps)
  {
    hide Aside, LogsKept, LogsStamped, Carried, Ready;
    AsideThen(cfg, ps, w, w1, w2, all, {turn}, all, a, b);
    CarriedTransitive(w.bus, w1.bus, w2.bus, ps, a.published, b.published);
    LogsStampedThen(w.bus, w1.bus, w2.bus, ps, id, cfg.localNodeId);
  }

  /** Everything that holds while `p` is being flushed. */
  ghost predicate Midway(cfg: Config, ps: seq<nat>, p: nat, id: string, w: World, w': World, turn: Turn,
      written: bool, m: Meanwhile)
    requires cfg.Valid()
  {
    && Flushing(w.bus, w'.bus, ps, p, written, m.published) && Aside(cfg, ps, w, w', {turn}, m)
    && LogsStamped(w.bus, w'.bus, ps, id, cfg.localNodeId)
  }

  lemma MidwayIs(cfg: Config, ps: seq<nat>, p: nat, id: string, w: World, w': World, turn: Turn, written: bool,
      m: Meanwhile)
    requires cfg.Valid() && Midway(cfg, ps, p, id, w, w', turn, written, m)
    ensures FlightsExact(w'.bus) && p in w'.bus.flights && w'.bus.flights[p].written == written
  {
  }

  lemma MidwayBegins(cfg: Config, ps: seq<nat>, p: nat, id: string, w: World, turn: Turn)
    requires cfg.Valid() && Ready(w.bus, ps) && p in ps
    ensures var w' := w.(bus := Step(cfg, w.bus, FlushBegin(p, id, turn.now)).0);
            && Midway(cfg, ps, p, id, w, w', turn, false, NOTHING) && p in w'.bus.flights
            && w'.bus.flights[p].records == Stamp(w.bus.Buffer(p), id, cfg.localNodeId, turn.now)
  {
    var op := FlushBegin(p, id, turn.now);
    var w' := w.(bus := Step(cfg, w.bus, op).0);
    BeginFlushing(cfg, w.bus, ps, p, id, turn.now);
    AsideBus(cfg, ps, w, op);
    QuietLogs(cfg, w.bus, op, ps);
    BeginTakes(cfg, w.bus, p, id, turn.now);
    hide Step, Aside, LogsKept, LogsStamped;
    Widened(cfg, ps, w, w', {}, {turn}, NOTHING);
    LogsStampedOr(w.bus, w'.bus, ps, id, cfg.localNodeId);
  }

  lemma MidwayOthers(cfg: Config, ps: seq<nat>, p: nat, id: string, w: World, w1: World, w2: World, turn: Turn,
      written: bool, a: Meanwhile, b: Meanwhile)
    requires cfg.Valid() && p in ps && Midway(cfg, ps, p, id, w, w1, turn, written, a)
    requires Undisturbed(w1.bus, w2.bus, ps) && TotalsGrew(w1.bus, w2.bus, b.published)
    requires Aside(cfg, ps, w1, w2, {turn}, b)
    ensures Midway(cfg, ps, p, id, w, w2, turn, written, a.Then(b))
    ensures p in w1.bus.flights && p in w2.bus.flights && w2.bus.flights[p] == w1.bus.flights[p]
  {
    hide Aside, LogsStamped, TotalsGrew;
    OthersWhileFlushing(w.bus, w1.bus, w2.bus, ps, p, written, a.published, b.published);
    AsideThen(cfg, ps, w, w1, w2, {turn}, {turn}, {turn}, a, b);
    LogsStampedThen(w.bus, w1.bus, w2.bus, ps, id, cfg.localNodeId);
  }

  lemma MidwayWrites(cfg: Config, ps: seq<nat>, p: nat, id: string, w: World, w1: World, turn: Turn, es: seq<Event>,
      m: Meanwhile)
    requires cfg.Valid() && p in ps && Midway(cfg, ps, p, id, w, w1, turn, false, m) && p in w1.bus.flights
    requires w1.bus.flights[p].records == Stamp(es, id, cfg.localNodeId, turn.now)
    ensures Possible(w1.bus, FlushWrite(p))
    ensures Midway(cfg, ps, p, id, w, w1.(bus := Step(cfg, w1.bus, FlushWrite(p)).0), turn, true, m)
  {
    var w2 := w1.(bus := Step(cfg, w1.bus, FlushWrite(p)).0);
    WriteFlushing(cfg, w.bus, w1.bus, ps, p, m.published);
    AsideBus(cfg, ps, w1, FlushWrite(p));
    WriteStamps(cfg, w1.bus, ps, p, es, id, turn.now);
    hide Step, Aside, LogsStamped, LogsKept, Flushing, Stamp;
    AsideThen(cfg, ps, w, w1, w2, {turn}, {}, {turn}, m, NOTHING);
    ThenNothing(m);
    LogsStampedThen(w.bus, w1.bus, w2.bus, ps, id, cfg.localNodeId);
  }

  lemma MidwayStops(cfg: Config, ps: seq<nat>, p: nat, id: string, w: World, w1: World, turn: Turn, written: bool,
      m: Meanwhile)
    requires cfg.Valid() && p in ps && Midway(cfg, ps, p, id, w, w1, turn, written, m)
    ensures var op := if written then FlushEnd(p) else FlushFail(p);
            && Possible(w1.bus, op)
            && var w2 := w1.(bus := Step(cfg, w1.bus, op).0);
               && Carried(w.bus, w2.bus, ps, m.published) && Aside(cfg, ps, w, w2, {turn}, m)
               && LogsStamped(w.bus, w2.bus, ps, id, cfg.localNodeId) && (written ==> w2.bus.Buffer(p) == [])
  {
    var op := if written then FlushEnd(p) else FlushFail(p);
    var w2 := w1.(bus := Step(cfg, w1.bus, op).0);
    StopFlushing(cfg, w.bus, w1.bus, ps, p, written, m.published);
    AsideBus(cfg, ps, w1, op);
    QuietLogs(cfg, w1.bus, op, ps);
    hide Step, Aside, LogsStamped, LogsKept, Flushing, Carried;
    AsideThen(cfg, ps, w, w1, w2, {turn}, {}, {turn}, m, NOTHING);
    ThenNothing(m);
    LogsStampedThen(w.bus, w1.bus, w2.bus, ps, id, cfg.localNodeId);
  }

  /** The owners change and the partitions resume. */
  lemma Released(cfg: Config, ps: seq<nat>, w: World, w3: World, w4: World, w5: World, turns: set<Turn>,
      m: Meanwhile, id: string)
    requires cfg.Valid() && Aside(cfg, ps, w, w3, turns, m) && LogsStamped(w.bus, w3.bus, ps, id, cfg.localNodeId)
    requires TotalsGrew(w.bus, w3.bus, m.published) && Ready(w3.bus, ps) && Flushed(w3.bus, ps, |ps|)
    requires w4 == w3.(bus := w3.bus.(owners := w4.bus.owners))
    requires w5 == w4.(bus := Step(cfg, w4.bus, Resume(ps)).0)
    ensures Aside(cfg, ps, w, w5, turns, m) && LogsStamped(w.bus, w5.bus, ps, id, cfg.localNodeId)
    ensures TotalsGrew(w.bus, w5.bus, m.published) && FlightsExact(w5.bus) && w5.bus.owners == w4.bus.owners
    ensures forall p | p in ps :: p !in w5.bus.paused && w5.bus.Buffer(p) == []
  {
    ReleaseGrows(w.bus, w3.bus, w5.bus, ps, m.published);
    AsideOwners(cfg, ps, w3, w4);
    AsideBus(cfg, ps, w4, Resume(ps));
    assert LogsKept(w3.bus, w5.bus, ps);
    hide Aside, LogsKept, LogsStamped, Step, TotalsGrew, FlightsExact;
    AsideThen(cfg, ps, w, w3, w4, turns, {}, turns, m, NOTHING);
    ThenNothing(m);
    AsideThen(cfg, ps, w, w4, w5, turns, {}, turns, m, NOTHING);
    LogsStampedThen(w.bus, w3.bus, w5.bus, ps, id, cfg.localNodeId);
  }

  lemma AsideOwners(cfg: Config, ps: seq<nat>, w: World, w': World)
    requires cfg.Valid() && w' == w.(bus := w.bus.(owners := w'.bus.owners))
    ensures Aside(cfg, ps, w, w', {}, NOTHING)
  {
    AsideOwn(cfg, ps, w, w');
  }

  // --- the coordinator ---

  class RebalanceCoordinator {
    const bus: ShardedEventBus
    const owner: PO.PartitionOwner
    /** The effects of the current rebalance; each is entered where it takes place. */
    var journal: seq<Action>

    constructor (bus: ShardedEventBus, owner: PO.PartitionOwner)
      ensures this.bus == bus && this.owner == owner && journal == []
    {
      this.bus, this.owner, journal := bus, owner, [];
    }

    ghost function Here(): World
      reads bus, bus.sequencer, bus.migrationLog, owner
    {
      World(bus.State(), owner.State())
    }

    /** Other callers run; `turn` is the turn whose others these are. */
    method OthersRun(o: Others, ps: seq<nat>, token: string, ghost turn: Turn) returns (m: Meanwhile)
      requires bus.Valid() && FlightsExact(bus.State()) && (o == turn.before || o == turn.after)
      modifies bus, bus.sequencer`nextSeqno, bus.migrationLog, owner
      ensures Undisturbed(old(bus.State()), bus.State(), ps)
      ensures TotalsGrew(old(bus.State()), bus.State(), m.published)
      ensures OwnerKept(old(owner.State()), owner.State(), token)
      ensures Peaceful(o, ps) ==> FencesHeld(old(owner.State()), owner.State(), ps, token)
      ensures Aside(bus.cfg, ps, old(Here()), Here(), {turn}, m)
      ensures owner.State() == OwnerRun(old(owner.State()), m.onOwner)
    {
      hide BusAside, OwnerAside, Undisturbed, TotalsGrew;
      m := NOTHING;
      BeforeOthers(bus.cfg, ps, Here());
      for i := 0 to |o.onBus|
        invariant FlightsExact(bus.State()) && Undisturbed(old(bus.State()), bus.State(), ps)
        invariant TotalsGrew(old(bus.State()), bus.State(), m.published)
        invariant owner.State() == old(owner.State())
        invariant BusAside(bus.cfg, ps, old(bus.State()), bus.State(), m.onBus)
        invariant m.onOwner == [] && forall op | op in m.onBus :: op in o.onBus
      {
        var op := o.onBus[i];
        if Allowed(bus.State(), op) && Foreign(op, ps) {
          ghost var was, so := bus.State(), m;
          OneMoreStep(bus.cfg, ps, old(bus.State()), was, op, so);
          var more := bus.Take(op);
          m := Meanwhile(m.published + more, m.onBus + [op], m.onOwner);
        }
      }
      for i := 0 to |o.onOwner|
        invariant Undisturbed(old(bus.State()), bus.State(), ps)
        invariant TotalsGrew(old(bus.State()), bus.State(), m.published)
        invariant BusAside(bus.cfg, ps, old(bus.State()), bus.State(), m.onBus)
        invariant OwnerKept(old(owner.State()), owner.State(), token)
        invariant Peaceful(o, ps) ==> FencesHeld(old(owner.State()), owner.State(), ps, token)
        invariant owner.State() == OwnerRun(old(owner.State()), m.onOwner)
        invariant (forall op | op in m.onBus :: op in o.onBus) && forall op | op in m.onOwner :: op in o.onOwner
      {
        var op := o.onOwner[i];
        if op.Append? || op.token != token {
          OwnerStepKept(owner.State(), op, token);
          if Peaceful(o, ps) {
            PeacefulStep(owner.State(), op, ps, token);
          }
          OwnerRunSnoc(old(owner.State()), m.onOwner, op);
          owner.Take(op);
          m := Meanwhile(m.published, m.onBus, m.onOwner + [op]);
        }
      }
      OwnerAsideRun(ps, old(owner.State()), m.onOwner);
      FromOthers(m, o, turn);
    }

    method AwaitFence(p: nat, ps: seq<nat>, token: string, turn: Turn)
      returns (done: bool, ok: bool, m: Meanwhile)
      requires bus.Valid() && Ready(bus.State(), ps) && p in ps
      modifies this`journal, bus, bus.sequencer`nextSeqno, bus.migrationLog, owner
      ensures Carried(old(bus.State()), bus.State(), ps, m.published)
      ensures Aside(bus.cfg, ps, old(Here()), Here(), {turn}, m) && LogsKept(old(bus.State()), bus.State(), ps)
      ensures ok ==> done
      ensures journal == old(journal) + if done then [Fence(p)] else []
      ensures ok ==> turn.fate == Succeeds
      ensures Smooth(turn, ps) ==>
                ok && FencesHeld(old(owner.State()), owner.State(), ps, token) && owner.State().Confirms(p, token)
      ensures if done then Amid(old(owner.State()), owner.State(), PO.Activate(p, token), m.onOwner)
              else owner.State() == OwnerRun(old(owner.State()), m.onOwner)
    {
      hide Aside, LogsKept, TotalsGrew, OwnerRun, Amid;
      ghost var w0 := Here();
      m := OthersRun(turn.before, ps, token, turn);
      if turn.fate == ThrowsBefore {
        return false, false, m;
      }
      ghost var w1 := Here();
      AsideOwner(bus.cfg, ps, w1, PO.Activate(p, token));
      owner.ActivateFence(p, token);
      journal := journal + [Fence(p)];
      ghost var w2 := Here();
      var more := OthersRun(turn.after, ps, token, turn);
      AmidIs(w0.owner, PO.Activate(p, token), m.onOwner, more.onOwner);
      AsideAround(bus.cfg, ps, w0, w1, w2, Here(), {turn}, m, more);
      CarriedTransitive(w0.bus, w2.bus, bus.State(), ps, m.published, more.published);
      LogsKeptThen(w0.bus, w2.bus, bus.State(), ps);
      return true, turn.fate == Succeeds, m.Then(more);
    }

    /** Drains the old owner; a drain without the token in force is refused, and so throws. */
    method AwaitDrain(p: nat, ps: seq<nat>, token: string, turn: Turn)
      returns (done: bool, ok: bool, m: Meanwhile)
      requires bus.Valid() && Ready(bus.State(), ps) && p in ps
      modifies this`journal, bus, bus.sequencer`nextSeqno, bus.migrationLog, owner
      ensures Carried(old(bus.State()), bus.State(), ps, m.published)
      ensures Aside(bus.cfg, ps, old(Here()), Here(), {turn}, m) && LogsKept(old(bus.State()), bus.State(), ps)
      ensures ok ==> done
      ensures journal == old(journal) + if done then [Drain(p)] else []
      ensures done && owner.State().Confirms(p, token) ==> owner.State().Buffer(p) == []
      ensures ok ==> turn.fate == Succeeds
      ensures Smooth(turn, ps) && old(owner.State()).Confirms(p, token) ==>
                ok && FencesHeld(old(owner.State()), owner.State(), ps, token)
      ensures if done then Amid(old(owner.State()), owner.State(), PO.Drain(p, token), m.onOwner)
              else owner.State() == OwnerRun(old(owner.State()), m.onOwner)
    {
      hide Aside, LogsKept, TotalsGrew, OwnerRun, Amid;
      ghost var w0 := Here();
      m := OthersRun(turn.before, ps, token, turn);
      if turn.fate == ThrowsBefore {
        return false, false, m;
      }
      ghost var w1 := Here();
      AsideOwner(bus.cfg, ps, w1, PO.Drain(p, token));
      var drained := owner.DrainPartition(p, token);
      if drained.Err? {
        return false, false, m;
      }
      journal := journal + [Drain(p)];
      ghost var w2 := Here();
      var more := OthersRun(turn.after, ps, token, turn);
      AmidIs(w0.owner, PO.Drain(p, token), m.onOwner, more.onOwner);
      AsideAround(bus.cfg, ps, w0, w1, w2, Here(), {turn}, m, more);
      CarriedTransitive(w0.bus, w2.bus, bus.State(), ps, m.published, more.published);
      LogsKeptThen(w0.bus, w2.bus, bus.State(), ps);
      return true, turn.fate == Succeeds, m.Then(more);
    }

    method AwaitFlush(p: nat, ps: seq<nat>, migrationId: string, token: string, turn: Turn)
      returns (done: bool, m: Meanwhile)
      requires bus.Valid() && Ready(bus.State(), ps) && p in ps
      modifies this`journal, bus, bus.sequencer`nextSeqno, bus.migrationLog, owner
      ensures Carried(old(bus.State()), bus.State(), ps, m.published)
      ensures Aside(bus.cfg, ps, old(Here()), Here(), {turn}, m)
      ensures LogsStamped(old(bus.State()), bus.State(), ps, migrationId, bus.cfg.localNodeId)
      ensures OwnerKept(old(owner.State()), owner.State(), token)
      ensures journal == old(journal) + if done then [Flush(p)] else []
      ensures done ==> bus.State().Buffer(p) == [] && turn.fate == Succeeds
      ensures Smooth(turn, ps) ==> done && FencesHeld(old(owner.State()), owner.State(), ps, token)
      ensures owner.State() == OwnerRun(old(owner.State()), m.onOwner)
    {
      hide TotalsGrew, FlightsExact, Carried, Aside, LogsStamped, Stamp, OwnerRun, Midway, Undisturbed, Step;
      ghost var w0 := Here();
      MidwayBegins(bus.cfg, ps, p, migrationId, w0, turn);
      bus.BeginFlush(p, migrationId, turn.now);
      ghost var w1 := Here();
      MidwayIs(bus.cfg, ps, p, migrationId, w0, w1, turn, false, NOTHING);
      m := OthersRun(turn.before, ps, token, turn);
      ghost var w2, a := Here(), m;
      MidwayOthers(bus.cfg, ps, p, migrationId, w0, w1, w2, turn, false, NOTHING, a);
      ThenNothing(a);
      if turn.fate != Succeeds {
        MidwayStops(bus.cfg, ps, p, migrationId, w0, w2, turn, false, a);
        bus.FailFlush(p);
        return false, m;
      }
      MidwayWrites(bus.cfg, ps, p, migrationId, w0, w2, turn, w0.bus.Buffer(p), a);
      bus.WriteFlush(p);
      ghost var w3 := Here();
      MidwayIs(bus.cfg, ps, p, migrationId, w0, w3, turn, true, a);
      var more := OthersRun(turn.after, ps, token, turn);
      OwnerRunAppend(w0.owner, a.onOwner, more.onOwner);
      MidwayOthers(bus.cfg, ps, p, migrationId, w0, w3, Here(), turn, true, a, more);
      MidwayStops(bus.cfg, ps, p, migrationId, w0, Here(), turn, true, a.Then(more));
      var _ := bus.EndFlush(p);
      journal := journal + [Flush(p)];
      return true, m.Then(more);
    }

    method AwaitConfirm(p: nat, ps: seq<nat>, token: string, turn: Turn)
      returns (confirmed: bool, ok: bool, undrained: seq<PO.Message>, m: Meanwhile)
      requires bus.Valid() && Ready(bus.State(), ps) && p in ps
      modifies this`journal, bus, bus.sequencer`nextSeqno, bus.migrationLog, owner
      ensures Carried(old(bus.State()), bus.State(), ps, m.published)
      ensures Aside(bus.cfg, ps, old(Here()), Here(), {turn}, m) && LogsKept(old(bus.State()), bus.State(), ps)
      ensures OwnerKept(old(owner.State()), owner.State(), token)
      ensures journal == old(journal) + if confirmed then [Confirm(p)] else []
      ensures confirmed ==> old(owner.State()).Confirms(p, token) && undrained == old(owner.State()).Buffer(p)
      ensures ok ==> turn.fate == Succeeds
      ensures Smooth(turn, ps) && old(owner.State()).Confirms(p, token) ==>
                ok && confirmed && FencesHeld(old(owner.State()), owner.State(), ps, token)
      ensures owner.State() == OwnerRun(old(owner.State()), m.onOwner)
    {
      hide Aside, LogsKept, TotalsGrew, OwnerRun;
      ghost var w0 := Here();
      m := OthersRun(turn.before, ps, token, turn);
      if turn.fate == ThrowsBefore {
        return false, false, [], m;
      }
      confirmed := owner.ConfirmFence(p, token);
      undrained := owner.State().Buffer(p);
      if confirmed {
        journal := journal + [Confirm(p)];
      }
      ghost var w1 := Here();
      var more := OthersRun(turn.after, ps, token, turn);
      OwnerRunAppend(w0.owner, m.onOwner, more.onOwner);
      AsideThen(bus.cfg, ps, w0, w1, Here(), {turn}, {turn}, {turn}, m, more);
      CarriedTransitive(w0.bus, w1.bus, bus.State(), ps, m.published, more.published);
      LogsKeptThen(w0.bus, w1.bus, bus.State(), ps);
      return confirmed, turn.fate == Succeeds, undrained, m.Then(more);
    }

    method AwaitAssume(p: nat, ps: seq<nat>, token: string, undrainedAtConfirm: seq<PO.Message>, turn: Turn)
      returns (done: bool, ok: bool, h: Handover, m: Meanwhile)
      requires bus.Valid() && Ready(bus.State(), ps) && p in ps && bus.State().Buffer(p) == []
      requires owner.State().Confirms(p, token) ==> owner.State().Buffer(p) == []
      modifies this`journal, bus, bus.sequencer`nextSeqno, bus.migrationLog, owner
      ensures Carried(old(bus.State()), bus.State(), ps, m.published)
      ensures Aside(bus.cfg, ps, old(Here()), Here(), {turn}, m) && LogsKept(old(bus.State()), bus.State(), ps)
      ensures ok ==> done
      ensures journal == old(journal) + if done then [Assume(p)] else []
      ensures h.partition == p && h.undrainedAtConfirm == undrainedAtConfirm
      ensures h.unflushed == [] && (h.stillFenced ==> h.undrained == [])
      ensures ok ==> turn.fate == Succeeds
      ensures Smooth(turn, ps) ==> ok && FencesHeld(old(owner.State()), owner.State(), ps, token)
      ensures owner.State() == OwnerRun(old(owner.State()), m.onOwner)
    {
      hide Aside, LogsKept, TotalsGrew, OwnerRun;
      ghost var w0 := Here();
      m := OthersRun(turn.before, ps, token, turn);
      h := Handover(p, bus.State().Buffer(p), undrainedAtConfirm, owner.State().Buffer(p),
                    owner.State().Confirms(p, token));
      if turn.fate == ThrowsBefore {
        return false, false, h, m;
      }
      journal := journal + [Assume(p)];
      ghost var w1 := Here();
      var more := OthersRun(turn.after, ps, token, turn);
      OwnerRunAppend(w0.owner, m.onOwner, more.onOwner);
      AsideThen(bus.cfg, ps, w0, w1, Here(), {turn}, {turn}, {turn}, m, more);
      CarriedTransitive(w0.bus, w1.bus, bus.State(), ps, m.published, more.published);
      LogsKeptThen(w0.bus, w1.bus, bus.State(), ps);
      return true, turn.fate == Succeeds, h, m.Then(more);
    }

    /** The second phase for one partition: `effects` of its four effects took place. */
    method MovePartition(p: nat, ps: seq<nat>, migrationId: string, token: string, turns: seq<Turn>)
      returns (failure: Option<Failure>, effects: nat, handovers: seq<Handover>, m: Meanwhile)
      requires bus.Valid() && Ready(bus.State(), ps) && p in ps && |turns| == 4
      modifies this`journal, bus, bus.sequencer`nextSeqno, bus.migrationLog, owner
      ensures Carried(old(bus.State()), bus.State(), ps, m.published)
      ensures Aside(bus.cfg, ps, old(Here()), Here(), SetOf(turns), m)
      ensures LogsStamped(old(bus.State()), bus.State(), ps, migrationId, bus.cfg.localNodeId)
      ensures effects <= 4 && journal == old(journal) + Move(p)[..effects]
      ensures failure.None? ==> effects == 4
      ensures |handovers| == if effects == 4 then 1 else 0
      ensures forall h | h in handovers :: h.partition == p && Clean(h)
      ensures failure.None? ==> bus.State().Buffer(p) == [] && forall t | t in turns :: t.fate == Succeeds
      ensures (forall t | t in turns :: Smooth(t, ps)) && old(owner.State()).Confirms(p, token) ==>
                failure.None? && FencesHeld(old(owner.State()), owner.State(), ps, token)
    {
      hide Carried, Ready, PeacefulTurn, Smooth, TotalsGrew, Move, Aside, LogsKept, LogsStamped, SetOf, FlightsExact;
      MoveSteps(journal, p);
      InSet(turns);
      assert turns == [turns[0], turns[1], turns[2], turns[3]];
      ghost var all, id, node := SetOf(turns), migrationId, bus.cfg.localNodeId;
      ghost var w0 := Here();
      var done, ok, m1 := AwaitDrain(p, ps, token, turns[0]);
      m := m1;
      ghost var w1 := Here();
      CarriedBuffer(w0.bus, w1.bus, ps, p, m1.published);
      Widened(bus.cfg, ps, w0, w1, {turns[0]}, all, m1);
      LogsStampedOr(w0.bus, w1.bus, ps, id, node);
      if !ok {
        return Some(Thrown), if done then 1 else 0, [], m;
      }
      var flushed, m2 := AwaitFlush(p, ps, migrationId, token, turns[1]);
      ghost var w2 := Here();
      Onward(bus.cfg, ps, w0, w1, w2, turns[1], all, m1, m2, id);
      m := m1.Then(m2);
      if !flushed {
        return Some(Thrown), 1, [], m;
      }
      var confirmed, answered, undrained, m3 := AwaitConfirm(p, ps, token, turns[2]);
      ghost var w3, so := Here(), m;
      CarriedBuffer(w2.bus, w3.bus, ps, p, m3.published);
      Onward(bus.cfg, ps, w0, w2, w3, turns[2], all, so, m3, id);
      m := m.Then(m3);
      if !answered {
        return Some(Thrown), if confirmed then 3 else 2, [], m;
      }
      if !confirmed {
        return Some(FenceNotConfirmed(p)), 2, [], m;
      }
      var assumed, finished, h, m4 := AwaitAssume(p, ps, token, undrained, turns[3]);
      so := m;
      CarriedBuffer(w3.bus, bus.State(), ps, p, m4.published);
      Onward(bus.cfg, ps, w0, w3, Here(), turns[3], all, so, m4, id);
      m := m.Then(m4);
      return if finished then None else Some(Thrown), if assumed then 4 else 3, if assumed then [h] else [], m;
    }

    /** The first phase: fence the old owners one after the other. */
    method FencePhase(ps: seq<nat>, token: string, schedule: nat -> Turn)
      returns (ok: bool, m: Meanwhile)
      requires bus.Valid() && Ready(bus.State(), ps) && journal == []
      modifies this`journal, bus, bus.sequencer`nextSeqno, bus.migrationLog, owner
      ensures Carried(old(bus.State()), bus.State(), ps, m.published)
      ensures Aside(bus.cfg, ps, old(Here()), Here(), TurnSet(schedule, 0, |ps|), m)
      ensures LogsKept(old(bus.State()), bus.State(), ps)
      ensures if ok then journal == Fences(ps) else journal <= Script(ps) && journal != Script(ps)
      ensures ok ==> AllSucceed(schedule, 0, |ps|)
      ensures AllPeaceful(schedule, 0, |ps|, ps) && AllSucceed(schedule, 0, |ps|) ==>
                ok && AllHeld(owner.State(), ps, token)
    {
      hide Aside, LogsKept, TurnSet, Carried, Ready, Smooth, AllSucceed, AllPeaceful, AllHeld, FencesHeld, Amid;
      hide OwnerRun, Script, Fences;
      ghost var w0, turns, n := Here(), TurnSet(schedule, 0, |ps|), |ps|;
      m := NOTHING;
      CarriedReflexive(w0.bus, ps);
      BeforePhase(bus.cfg, ps, w0, turns);
      NothingFenced(w0.owner, ps, token, schedule);
      for i := 0 to |ps|
        invariant Carried(w0.bus, bus.State(), ps, m.published) && Ready(bus.State(), ps)
        invariant Aside(bus.cfg, ps, w0, Here(), turns, m) && LogsKept(w0.bus, bus.State(), ps)
        invariant journal == Fences(ps[..i])
        invariant AllSucceed(schedule, 0, i)
        invariant AllPeaceful(schedule, 0, n, ps) ==> AllHeld(owner.State(), ps[..i], token)
      {
        ghost var w1, so := Here(), m;
        OneMoreSuccess(schedule, i, n, ps);
        var done, finished, more := AwaitFence(ps[i], ps, token, schedule(i));
        m := m.Then(more);
        TurnsWithin(schedule, 0, n, i);
        AsideThen(bus.cfg, ps, w0, w1, Here(), turns, {schedule(i)}, turns, so, more);
        LogsKeptThen(w0.bus, w1.bus, bus.State(), ps);
        CarriedTransitive(w0.bus, w1.bus, bus.State(), ps, so.published, more.published);
        OneMoreFence(ps, i);
        if !finished {
          FencesInScript(ps, i);
          FencesInScript(ps, i + 1);
          return false, m;
        }
        if AllPeaceful(schedule, 0, n, ps) {
          OneMoreHeld(w1.owner, owner.State(), ps, i, token);
        }
      }
      assert ps[..|ps|] == ps;
      return true, m;
    }

    /** The second phase: move the partitions one after the other. */
    method MovePhase(ps: seq<nat>, migrationId: string, token: string, schedule: nat -> Turn)
      returns (failure: Option<Failure>, handovers: seq<Handover>, m: Meanwhile)
      requires bus.Valid() && Ready(bus.State(), ps) && journal == Fences(ps)
      modifies this`journal, bus, bus.sequencer`nextSeqno, bus.migrationLog, owner
      ensures Carried(old(bus.State()), bus.State(), ps, m.published)
      ensures Aside(bus.cfg, ps, old(Here()), Here(), TurnSet(schedule, |ps|, 5 * |ps|), m)
      ensures LogsStamped(old(bus.State()), bus.State(), ps, migrationId, bus.cfg.localNodeId)
      ensures failure.None? ==> journal == Fences(ps) + Moves(ps)
      ensures failure.Some? ==> journal <= Script(ps) && journal != Script(ps)
      ensures forall h | h in handovers :: Clean(h)
      ensures failure.None? ==> HandedOver(handovers, ps, |ps|) && Flushed(bus.State(), ps, |ps|)
      ensures failure.None? ==> AllSucceed(schedule, |ps|, 5 * |ps|)
      ensures (&& AllSucceed(schedule, |ps|, 5 * |ps|) && AllPeaceful(schedule, |ps|, 5 * |ps|, ps)
               && AllHeld(old(owner.State()), ps, token)) ==> failure.None?
    {
      hide Carried, Script, Fences, Moves, Move, Clean, Flushed, HandedOver, Aside, LogsKept, LogsStamped, TurnSet;
      hide AllSucceed, AllPeaceful, Smooth, AllHeld, FencesHeld, TurnsAt, SetOf;
      ghost var smooth := && AllSucceed(schedule, |ps|, 5 * |ps|) && AllPeaceful(schedule, |ps|, 5 * |ps|, ps)
                          && AllHeld(owner.State(), ps, token);
      ghost var w0, turns := Here(), TurnSet(schedule, |ps|, 5 * |ps|);
      handovers, m := [], NOTHING;
      BeforeMoves(w0.bus, ps, schedule);
      BeforePhase(bus.cfg, ps, w0, turns);
      LogsStampedOr(w0.bus, w0.bus, ps, migrationId, bus.cfg.localNodeId);
      for i := 0 to |ps|
        invariant Ready(bus.State(), ps) && Carried(w0.bus, bus.State(), ps, m.published)
        invariant Aside(bus.cfg, ps, w0, Here(), turns, m)
        invariant LogsStamped(w0.bus, bus.State(), ps, migrationId, bus.cfg.localNodeId)
        invariant journal == Fences(ps) + Moves(ps[..i])
        invariant HandedOver(handovers, ps, i) && Flushed(bus.State(), ps, i)
        invariant AllSucceed(schedule, |ps|, |ps| + 4 * i)
        invariant smooth ==> AllHeld(owner.State(), ps, token)
      {
        ghost var w1, so, hs := Here(), m, handovers;
        var at := |ps| + 4 * i;
        if smooth {
          AllSmooth(schedule, |ps|, 5 * |ps|, at, ps);
          HeldAt(w1.owner, ps, i, token);
        }
        TurnsWithin(schedule, |ps|, 5 * |ps|, at);
        var failed, effects, more, others := MovePartition(ps[i], ps, migrationId, token, TurnsAt(schedule, at));
        m, handovers := m.Then(others), handovers + more;
        AsideThen(bus.cfg, ps, w0, w1, Here(), turns, SetOf(TurnsAt(schedule, at)), turns, so, others);
        LogsStampedThen(w0.bus, w1.bus, bus.State(), ps, migrationId, bus.cfg.localNodeId);
        CarriedTransitive(w0.bus, w1.bus, bus.State(), ps, so.published, others.published);
        OneMoreHandedOver(hs, more, ps, i);
        if failed.Some? {
          MoveInScript(ps, i, effects);
          StopsShort(ps, i, effects);
          return failed, handovers, m;
        }
        FourMore(schedule, |ps|, at);
        OneMoreFlushed(w1.bus, bus.State(), ps, i, others.published);
        OneMoreMove(ps, i);
        if smooth {
          StillHeld(w1.owner, owner.State(), ps, token);
        }
      }
      assert ps[..|ps|] == ps;
      AllClean(handovers, ps);
      return None, handovers, m;
    }

    /**
     Runs a migration. Whatever others do and wherever it throws, the effects that took place begin
     the script; nothing published is lost; what a new owner takes over was flushed and, as long as
     the fence was held, drained; a failure leaves the owners as they were and the partitions paused.
     Partitions that are not migrating end as the steps of the others alone would leave them.
     */
    method Rebalance(plan: Plan, migrationId: string, token: string, schedule: nat -> Turn)
      returns (r: Result<string, Failure>, handovers: seq<Handover>, m: Meanwhile)
      requires bus.Valid() && FlightsExact(bus.State())
      requires forall p | p in plan.migrating :: p !in bus.State().flights
      modifies this`journal, bus, bus.sequencer`nextSeqno, bus.migrationLog, owner
      ensures journal <= Script(plan.migrating) && (r.Ok? <==> journal == Script(plan.migrating))
      ensures Safe(plan.migrating, journal)
      ensures r.Ok? ==> r.value == migrationId && bus.State().owners == plan.nextOwners
      ensures r.Ok? ==> forall p | p in plan.migrating :: p !in bus.State().paused && bus.State().Buffer(p) == []
      ensures r.Err? ==> bus.State().owners == old(bus.State()).owners
      ensures r.Err? ==> forall p | p in plan.migrating :: p in bus.State().paused
      ensures forall h | h in handovers :: Clean(h)
      ensures r.Ok? ==> && |handovers| == |plan.migrating|
                        && forall i | 0 <= i < |handovers| :: handovers[i].partition == plan.migrating[i]
      ensures r.Ok? ==> AllSucceed(schedule, 0, 5 * |plan.migrating|)
      ensures AllPeaceful(schedule, 0, 5 * |plan.migrating|, plan.migrating) ==>
                (r.Ok? <==> AllSucceed(schedule, 0, 5 * |plan.migrating|))
      ensures FlightsExact(bus.State()) && TotalsGrew(old(bus.State()), bus.State(), m.published)
      ensures LogsStamped(old(bus.State()), bus.State(), plan.migrating, migrationId, bus.cfg.localNodeId)
      ensures var turns := TurnSet(schedule, 0, 5 * |plan.migrating|);
              && Aside(bus.cfg, plan.migrating, old(Here()), Here(), turns, m)
              && (forall q: nat | q !in plan.migrating ::
                    q in bus.State().paused <==> q in AllRepaused(old(bus.State()).paused, m.onBus))
              && (forall q: nat | q !in plan.migrating && !NamedIn(turns, q) ::
                    q in bus.State().paused <==> q in old(bus.State()).paused)
    {
      hide TotalsGrew, FlightsExact, Clean, Safe, Fences, Moves, Carried, Ready, Flushed, AllSucceed, AllPeaceful;
      hide AllHeld, Aside, LogsKept, LogsStamped, TurnSet, NamedIn, AllRepaused, Step;
      var ps := plan.migrating;
      ghost var n, node := |ps|, bus.cfg.localNodeId;
      ghost var turns := TurnSet(schedule, 0, 5 * n);
      BothPhases(schedule, n, ps);
      PhaseTurns(schedule, n);
      journal := [];
      ghost var w0 := Here();
      PausedIsReady(bus.cfg, w0.bus, ps);
      AsideBus(bus.cfg, ps, w0, Pause(ps));
      QuietLogs(bus.cfg, w0.bus, Pause(ps), ps);
      bus.PauseProduction(ps);
      ghost var w1 := Here();
      var ok, m1 := FencePhase(ps, token, schedule);
      ghost var w2 := Here();
      CarriedOn(w0.bus, w1.bus, w2.bus, ps, [], m1.published);
      AsideThen(bus.cfg, ps, w0, w1, w2, {}, TurnSet(schedule, 0, n), turns, NOTHING, m1);
      ThenNothing(m1);
      LogsKeptThen(w0.bus, w1.bus, w2.bus, ps);
      m := m1;
      if !ok {
        ScriptIsSafe(ps, journal);
        LogsStampedOr(w0.bus, w2.bus, ps, migrationId, node);
        PausedElsewhere(bus.cfg, ps, w0, w2, turns, m1);
        return Err(Thrown), [], m;
      }
      var failure, hs, m2 := MovePhase(ps, migrationId, token, schedule);
      ghost var w3 := Here();
      CarriedOn(w0.bus, w2.bus, w3.bus, ps, m1.published, m2.published);
      AsideThen(bus.cfg, ps, w0, w2, w3, turns, TurnSet(schedule, n, 5 * n), turns, m1, m2);
      LogsStampedThen(w0.bus, w2.bus, w3.bus, ps, migrationId, node);
      m := m1.Then(m2);
      if failure.Some? {
        ScriptIsSafe(ps, journal);
        PausedElsewhere(bus.cfg, ps, w0, w3, turns, m);
        return Err(failure.value), hs, m;
      }
      bus.UpdatePartitionOwners(plan.nextOwners);
      journal := journal + [UpdateOwners];
      ghost var w4 := Here();
      bus.ResumeProduction(ps);
      journal := journal + [ResumeAll];
      assert journal == Fences(ps) + Moves(ps) + [UpdateOwners, ResumeAll];
      Released(bus.cfg, ps, w0, w3, w4, Here(), turns, m, migrationId);
      PausedElsewhere(bus.cfg, ps, w0, Here(), turns, m);
      ScriptIsSafe(ps, journal);
      return Ok(migrationId), hs, m;
    }
  }
}
