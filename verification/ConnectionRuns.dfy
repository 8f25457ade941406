/** Whole runs of the connection pool: size, timers, generations, races, and what the events tell. */
module ConnectionRuns {
  import opened Common
  import opened ConnectionPools

  function RunFrom(capacity: nat, p: Pool, ops: seq<Op>): Pool {
    if ops == [] then p else Step(capacity, RunFrom(capacity, p, ops[..|ops| - 1]), ops[|ops| - 1])
  }

  function Run(capacity: nat, ops: seq<Op>): Pool { RunFrom(capacity, EMPTY, ops) }

  /**
   In every reachable state there are at most `capacity` slots, none is stored as disconnected, each
   disconnecting slot holds exactly one armed timer and no connected slot holds one.
   */
  lemma {:induction false} RunKeeps(capacity: nat, p: Pool, ops: seq<Op>)
    requires Consistent(capacity, p)
    ensures Consistent(capacity, RunFrom(capacity, p, ops))
  {
    if ops != [] {
      RunKeeps(capacity, p, ops[..|ops| - 1]);
      StepKeeps(capacity, RunFrom(capacity, p, ops[..|ops| - 1]), ops[|ops| - 1]);
    }
  }

  // --- generations ---

  /** The generation an operation has just placed in a node's slot, if it placed one. */
  function Placed(capacity: nat, p: Pool, op: Op, n: string): Option<int> {
    if op.Add? && op.nodeId == n && Refused(capacity, p, n, op.connectionGen).None? then Some(op.connectionGen)
    else if op.Reconnect? && op.nodeId == n && Refused(capacity, Leave(p, n, None, op.now), n, op.connectionGen).None?
    then Some(op.connectionGen)
    else None
  }

  /** The generations accepted for a node since its slot was last empty. */
  function Accepted(capacity: nat, ops: seq<Op>, n: string): seq<int> {
    if ops == [] || n !in Run(capacity, ops).slots then []
    else
      var front, op := ops[..|ops| - 1], ops[|ops| - 1];
      var placed := Placed(capacity, Run(capacity, front), op, n);
      Accepted(capacity, front, n) + if placed.Some? then [placed.value] else []
  }

  predicate Increasing(gens: seq<int>) {
    forall i | 0 < i < |gens| :: gens[i - 1] < gens[i]
  }

  lemma SlotIn(capacity: nat, p: Pool, n: string)
    requires Consistent(capacity, p)
    ensures n in p.slots ==> SlotOk(p, n)
  {
  }

  /** What one step does to the slot of a node. */
  lemma StepSlot(capacity: nat, p: Pool, op: Op, n: string)
    requires Consistent(capacity, p)
    ensures var q, placed := Step(capacity, p, op), Placed(capacity, p, op, n);
            && (placed.Some? ==> n in q.slots && q.slots[n].connectionGen == placed.value
                                 && (n in p.slots ==> placed.value > p.slots[n].connectionGen || placed.value == 0))
            && (placed.None? && n in q.slots ==> n in p.slots && q.slots[n].connectionGen == p.slots[n].connectionGen)
  {
    hide Consistent, TimerOk;
    SlotIn(capacity, p, n);
    if op.Reconnect? {
      LeaveKeeps(capacity, p, op.nodeId, None, op.now);
      SlotIn(capacity, Leave(p, op.nodeId, None, op.now), n);
    }
  }

  lemma AcceptedStep(capacity: nat, ops: seq<Op>, n: string)
    requires ops != []
    ensures var front, op := ops[..|ops| - 1], ops[|ops| - 1];
            var p := Run(capacity, front);
            && Run(capacity, ops) == Step(capacity, p, op)
            && Accepted(capacity, ops, n) ==
               if n !in Run(capacity, ops).slots then []
               else if Placed(capacity, p, op, n).Some?
               then Accepted(capacity, front, n) + [Placed(capacity, p, op, n).value]
               else Accepted(capacity, front, n)
  {
    hide Step, Placed;
    assert Accepted(capacity, ops[..|ops| - 1], n) + [] == Accepted(capacity, ops[..|ops| - 1], n);
  }

  lemma {:induction false} AcceptedEndsInTheSlot(capacity: nat, ops: seq<Op>, n: string)
    ensures var a, p := Accepted(capacity, ops, n), Run(capacity, ops);
            && (n in p.slots <==> a != [])
            && (n in p.slots ==> a[|a| - 1] == p.slots[n].connectionGen)
            && RisingOrLegacy(a)
  {
    if ops == [] {
      assert Accepted(capacity, ops, n) == [];
    } else {
      hide Run, Accepted, Step, Consistent, Placed, RisingOrLegacy;
      var front, op := ops[..|ops| - 1], ops[|ops| - 1];
      AcceptedEndsInTheSlot(capacity, front, n);
      FromEmpty(capacity, front);
      StepSlot(capacity, Run(capacity, front), op, n);
      AcceptedStep(capacity, ops, n);
      RisingSnoc(Accepted(capacity, front, n), Placed(capacity, Run(capacity, front), op, n));
    }
  }

  lemma FromEmpty(capacity: nat, ops: seq<Op>)
    ensures Consistent(capacity, Run(capacity, ops))
  {
    RunKeeps(capacity, EMPTY, ops);
  }

  predicate RisingOrLegacy(gens: seq<int>) {
    forall i | 0 < i < |gens| :: gens[i - 1] < gens[i] || gens[i] == 0
  }

  lemma RisingSnoc(a: seq<int>, gen: Option<int>)
    requires RisingOrLegacy(a)
    ensures RisingOrLegacy([])
    ensures gen.Some? && (a == [] || gen.value > a[|a| - 1] || gen.value == 0) ==> RisingOrLegacy(a + [gen.value])
  {
  }

  lemma {:induction false} AcceptedWasAsked(capacity: nat, ops: seq<Op>, n: string, g: int)
    requires g in Accepted(capacity, ops, n)
    ensures exists op | op in ops :: (op.Add? || op.Reconnect?) && op.connectionGen == g
  {
    hide Step, Refused;
    var front, op := ops[..|ops| - 1], ops[|ops| - 1];
    assert op in ops;
    if g in Accepted(capacity, front, n) {
      AcceptedWasAsked(capacity, front, n, g);
      var o :| o in front && (o.Add? || o.Reconnect?) && o.connectionGen == g;
      assert o in ops;
    }
  }

  /**
   While a node's slot stays occupied the accepted generations strictly increase exactly when no
   later one is the legacy generation 0 (generations are unsigned).
   */
  lemma GenerationsIncreaseIff(capacity: nat, ops: seq<Op>, n: string)
    requires forall op | op in ops && (op.Add? || op.Reconnect?) :: op.connectionGen >= 0
    ensures var a := Accepted(capacity, ops, n); Increasing(a) <==> forall i | 0 < i < |a| :: a[i] != 0
  {
    AcceptedEndsInTheSlot(capacity, ops, n);
    var a := Accepted(capacity, ops, n);
    forall i | 0 <= i < |a| ensures a[i] >= 0 {
      AcceptedWasAsked(capacity, ops, n, a[i]);
    }
    if Increasing(a) {
      forall i | 0 < i < |a| ensures a[i] != 0 {
        assert a[i - 1] < a[i];
      }
    }
  }

  /** So with non-zero generations they strictly increase. */
  lemma GenerationsIncrease(capacity: nat, ops: seq<Op>, n: string)
    requires forall op | op in ops && (op.Add? || op.Reconnect?) :: op.connectionGen != 0
    ensures Increasing(Accepted(capacity, ops, n))
  {
    AcceptedEndsInTheSlot(capacity, ops, n);
    var a := Accepted(capacity, ops, n);
    forall i | 0 < i < |a| ensures a[i - 1] < a[i] {
      AcceptedWasAsked(capacity, ops, n, a[i]);
    }
  }

  // --- late disconnects and races ---

  predicate Touches(op: Op, n: string) {
    match op
    case Fire(_) => false
    case Clear => true
    case _ => op.nodeId == n
  }

  /** A disconnect carrying a generation below `g`. */
  predicate Stale(op: Op, g: int) {
    op.BeginDisconnect? && op.gen.Some? && op.gen.value < g
  }

  /** What can reach a node without changing its slot `s`; a reconnect only when it brings exactly what is there. */
  predicate Harmless(op: Op, s: Slot) {
    || op.Add?
    || Stale(op, s.connectionGen)
    || (op.Reconnect? && op.connectionGen == s.connectionGen == 0 && op.socket == s.socket)
  }

  lemma SlotStaysIff(capacity: nat, p: Pool, op: Op, n: string)
    requires Consistent(capacity, p) && Holds(p, n, Connected)
    ensures var q := Step(capacity, p, op);
            n in q.slots && q.slots[n] == p.slots[n] <==> (Touches(op, n) ==> Harmless(op, p.slots[n]))
  {
    assert SlotOk(p, n);
    if op.Fire? && op.timer in p.armed {
      FireRemoves(capacity, p, op.timer);
    } else if op.Reconnect? {
      ReconnectExactly(capacity, p, op.nodeId, op.socket, op.connectionGen, op.now);
    } else if op.Add? && op.nodeId == n {
      AddToConnected(capacity, p, n, op.socket, op.connectionGen);
    }
    hide Consistent, SlotOk, TimerOk;
  }

  /** The node's slot is the same at the beginning and after every operation. */
  ghost predicate Stays(capacity: nat, p: Pool, ops: seq<Op>, n: string)
    requires n in p.slots
  {
    forall k | 0 <= k <= |ops| ::
      n in RunFrom(capacity, p, ops[..k]).slots && RunFrom(capacity, p, ops[..k]).slots[n] == p.slots[n]
  }

  lemma StaysSnoc(capacity: nat, p: Pool, ops: seq<Op>, n: string)
    requires n in p.slots && ops != []
    ensures var q := RunFrom(capacity, p, ops);
            Stays(capacity, p, ops, n) <==>
            Stays(capacity, p, ops[..|ops| - 1], n) && n in q.slots && q.slots[n] == p.slots[n]
  {
    hide RunFrom;
    var front := ops[..|ops| - 1];
    assert ops[..|ops|] == ops;
    assert forall k | 0 <= k <= |front| :: front[..k] == ops[..k];
    if Stays(capacity, p, ops, n) {
      assert n in RunFrom(capacity, p, ops[..|ops|]).slots;
      forall k | 0 <= k <= |front|
        ensures n in RunFrom(capacity, p, front[..k]).slots && RunFrom(capacity, p, front[..k]).slots[n] == p.slots[n]
      {
        assert n in RunFrom(capacity, p, ops[..k]).slots;
      }
    }
  }

  /**
   A node is connected, and anything follows. Its slot stays exactly as it is through all of it if and
   only if what reaches this node are adds, with whatever generations, which are all refused,
   disconnects carrying a lower generation, and reconnects that bring exactly what is there.
   */
  lemma {:induction false} ConnectedSurvivesIff(capacity: nat, p: Pool, ops: seq<Op>, n: string)
    requires Consistent(capacity, p) && Holds(p, n, Connected)
    ensures Stays(capacity, p, ops, n) <==> forall op | op in ops && Touches(op, n) :: Harmless(op, p.slots[n])
    ensures Stays(capacity, p, ops, n) ==> n in RunFrom(capacity, p, ops).slots
    ensures Stays(capacity, p, ops, n) ==> RunFrom(capacity, p, ops).slots[n] == p.slots[n]
  {
    if ops == [] {
      StaysAtFirst(capacity, p, n);
    } else {
      var front, op := ops[..|ops| - 1], ops[|ops| - 1];
      assert op in ops && forall o | o in front :: o in ops;
      assert forall o | o in ops :: o in front || o == op;
      ConnectedSurvivesIff(capacity, p, front, n);
      StaysSnoc(capacity, p, ops, n);
      RunKeeps(capacity, p, front);
      var q := RunFrom(capacity, p, front);
      if Stays(capacity, p, front, n) {
        SlotStaysIff(capacity, q, op, n);
      }
      hide Consistent, Step, Stays;
    }
  }

  lemma StaysAtFirst(capacity: nat, p: Pool, n: string)
    requires n in p.slots
    ensures Stays(capacity, p, [], n)
  {
  }

  predicate Adds(op: Op) {
    op.Add? || op.Reconnect?
  }

  lemma {:induction false} WithoutAdds(capacity: nat, p: Pool, ops: seq<Op>, n: string)
    requires Consistent(capacity, p) && n in p.slots && forall op | op in ops :: !Adds(op)
    ensures var q := RunFrom(capacity, p, ops);
            if n in q.slots then q.slots[n].connectionGen == p.slots[n].connectionGen else |q.slots| < capacity
    ensures RunFrom(capacity, p, ops).slots.Keys <= p.slots.Keys
  {
    if ops != [] {
      var front, op := ops[..|ops| - 1], ops[|ops| - 1];
      assert op in ops && forall o | o in front :: o in ops;
      WithoutAdds(capacity, p, front, n);
      RunKeeps(capacity, p, front);
      StepSlot(capacity, RunFrom(capacity, p, front), op, n);
      var q := RunFrom(capacity, p, ops);
      StepShrinks(capacity, RunFrom(capacity, p, front), op);
      hide Step, Consistent;
    }
    var q := RunFrom(capacity, p, ops);
    if n !in q.slots {
      FewerKeys(q.slots.Keys, p.slots.Keys, n);
      assert |q.slots.Keys| == |q.slots| && |p.slots.Keys| == |p.slots|;
    }
  }

  lemma StepShrinks(capacity: nat, p: Pool, op: Op)
    requires !Adds(op)
    ensures Step(capacity, p, op).slots.Keys <= p.slots.Keys
  {
  }

  lemma FewerKeys(a: set<string>, b: set<string>, n: string)
    requires a <= b && n in b && n !in a
    ensures |a| < |b|
  {
    assert b == a + (b - a);
    assert n in b - a;
  }

  /**
   A reconnect wins its race. The node's slot holds some generation, connected or leaving; a
   reconnect with a higher one arrives among disconnects, evictions and timers in any order before
   it, and afterwards only adds and disconnects with lower generations reach this node. It ends connected
   with the new socket and generation.
   */
  lemma ReconnectWins(capacity: nat, p: Pool, before: seq<Op>, n: string, socket: int, gen: int, now: int,
      after: seq<Op>)
    requires Consistent(capacity, p) && n in p.slots && p.slots[n].connectionGen < gen
    requires forall op | op in before :: !Adds(op)
    requires forall op | op in after && Touches(op, n) :: op.Add? || Stale(op, gen)
    ensures var q := RunFrom(capacity, RunFrom(capacity, p, before + [Reconnect(n, socket, gen, now)]), after);
            n in q.slots && q.slots[n] == Live(socket, gen)
  {
    var mid := RunFrom(capacity, p, before);
    var ops := before + [Reconnect(n, socket, gen, now)];
    assert ops[..|ops| - 1] == before;
    RunKeeps(capacity, p, before);
    RunKeeps(capacity, p, ops);
    WithoutAdds(capacity, p, before, n);
    ReconnectExactly(capacity, mid, n, socket, gen, now);
    ConnectedSurvivesIff(capacity, RunFrom(capacity, p, ops), after, n);
  }

  /**
   What one reconnect does, in every state it can meet. A refused reconnect does not leave a live
   connection alone: the slot is left disconnecting, with its old socket and generation.
   */
  lemma ReconnectExactly(capacity: nat, p: Pool, n: string, socket: int, gen: int, now: int)
    requires Consistent(capacity, p)
    ensures var q := Step(capacity, p, Reconnect(n, socket, gen, now));
            && (Holds(q, n, Connected) <==> Admits(capacity, p, n, gen))
            && (Admits(capacity, p, n, gen) ==> q.slots[n] == Live(socket, gen))
            && (!Admits(capacity, p, n, gen) && n in p.slots ==>
                  && Holds(q, n, Disconnecting)
                  && q.slots[n].socket == p.slots[n].socket && q.slots[n].connectionGen == p.slots[n].connectionGen)
            && (!Admits(capacity, p, n, gen) && n !in p.slots ==> q == p)
            && (forall m | m != n :: (m in q.slots <==> m in p.slots) && (m in p.slots ==> q.slots[m] == p.slots[m]))
  {
    ReconnectOutcome(capacity, p, n, gen, now);
    assert n in p.slots ==> SlotOk(p, n);
    hide Consistent, SlotOk, Admits, Refused;
    var q := Leave(p, n, None, now);
    if Refused(capacity, q, n, gen).None? {
      assert Added(capacity, q, n, socket, gen).slots == q.slots[n := Live(socket, gen)];
    } else {
      assert Added(capacity, q, n, socket, gen).slots == q.slots;
    }
  }

  // --- the grace window in time ---

  /** One turn of the event loop: the timers that are due fire, then one operation runs. */
  datatype Turn = Turn(now: int, due: seq<nat>, op: Op)

  function TurnRun(capacity: nat, turns: seq<Turn>): Pool {
    if turns == [] then EMPTY
    else
      var last := turns[|turns| - 1];
      Step(capacity, FireAll(TurnRun(capacity, turns[..|turns| - 1]), last.due), last.op)
  }

  /** The clock never goes back, operations read it, and due timers fire first, in any order. */
  ghost predicate Prompt(capacity: nat, turns: seq<Turn>) {
    turns != [] ==>
      var front, last := turns[..|turns| - 1], turns[|turns| - 1];
      && Prompt(capacity, front)
      && (front != [] ==> front[|front| - 1].now <= last.now)
      && (last.op.BeginDisconnect? || last.op.Reconnect? ==> last.op.now == last.now)
      && (last.op.Fire? ==> last.op.timer !in FireAll(TurnRun(capacity, front), last.due).armed)
      && var armed := TurnRun(capacity, front).armed;
         forall t | t in armed :: t in last.due <==> armed[t].deadline <= last.now
  }

  /** At the end of every turn, no slot has been disconnecting for 500 ms or more. */
  lemma {:induction false} GraceIsBounded(capacity: nat, turns: seq<Turn>)
    requires Prompt(capacity, turns) && turns != []
    ensures Consistent(capacity, TurnRun(capacity, turns))
    ensures var p, now := TurnRun(capacity, turns), turns[|turns| - 1].now;
            forall n | n in p.slots && p.slots[n].state.Disconnecting? :: InWindow(p.slots[n], now)
  {
    var front, last := turns[..|turns| - 1], turns[|turns| - 1];
    var p := TurnRun(capacity, front);
    if front != [] {
      GraceIsBounded(capacity, front);
    } else {
      assert p == EMPTY;
    }
    FireAllKeeps(capacity, p, last.due);
    FireDueIs(capacity, p, last.due, last.now);
    var mid := FireAll(p, last.due);
    StepKeeps(capacity, mid, last.op);
    var q := Step(capacity, mid, last.op);
    hide Consistent, Step, FireAll, SlotOk, TimerOk;
    forall n | n in q.slots && q.slots[n].state.Disconnecting? ensures InWindow(q.slots[n], last.now) {
      StepLeaving(capacity, mid, last.op, n);
      if n in mid.slots && q.slots[n] == mid.slots[n] {
        assert n in p.slots && mid.slots[n] == p.slots[n] && !IsDue(p.slots[n], last.now);
        assert front != [];
        assert InWindow(p.slots[n], front[|front| - 1].now);
      } else {
        assert q.slots[n].disconnectingAt == Some(last.now);
      }
    }
  }

  predicate InWindow(s: Slot, now: int) {
    s.disconnectingAt.Some? && s.disconnectingAt.value <= now < s.disconnectingAt.value + RECONNECT_GRACE_MS
  }

  /** A slot found leaving after a step was left alone by it, or began to leave in it. */
  lemma StepLeaving(capacity: nat, p: Pool, op: Op, n: string)
    requires Consistent(capacity, p) && Holds(Step(capacity, p, op), n, Disconnecting)
    ensures var s := Step(capacity, p, op).slots[n];
            || (n in p.slots && s == p.slots[n])
            || ((op.BeginDisconnect? || op.Reconnect?) && s.disconnectingAt == Some(op.now))
  {
    hide Consistent, Refused, Cancelled;
  }

  // --- what the events tell ---

  /** The state of a node according to the emitted events alone. */
  function Told(events: seq<PoolEvent>, n: string): Option<ConnectionState> {
    if events == [] then None
    else
      match events[|events| - 1]
      case Joined(m) => if m == n then Some(Connected) else Told(events[..|events| - 1], n)
      case Rejoined(m) => if m == n then Some(Connected) else Told(events[..|events| - 1], n)
      case Leaving(m) => if m == n then Some(Disconnecting) else Told(events[..|events| - 1], n)
      case Left(m) => if m == n then None else Told(events[..|events| - 1], n)
      case Rejected(_, _) => Told(events[..|events| - 1], n)
  }

  function Actual(p: Pool, n: string): Option<ConnectionState> {
    if n in p.slots then Some(p.slots[n].state) else None
  }

  lemma ToldOne(events: seq<PoolEvent>, e: PoolEvent, n: string)
    ensures Told(events + [e], n) ==
            match e
            case Rejected(_, _) => Told(events, n)
            case Left(m) => if m == n then None else Told(events, n)
            case Leaving(m) => if m == n then Some(Disconnecting) else Told(events, n)
            case Joined(m) => if m == n then Some(Connected) else Told(events, n)
            case Rejoined(m) => if m == n then Some(Connected) else Told(events, n)
  {
    assert (events + [e])[..|events|] == events;
  }

  /** A pool that listeners know leaves them informed by being cleared if and only if it was empty. */
  lemma ClearTellsIff(capacity: nat, p: Pool)
    requires forall n :: Told(p.events, n) == Actual(p, n)
    ensures var q := Step(capacity, p, Clear);
            (forall n :: Told(q.events, n) == Actual(q, n)) <==> p.slots == map[]
  {
    var q := Step(capacity, p, Clear);
    forall n ensures Told(q.events, n) == Actual(q, n) <==> n !in p.slots {
      assert Told(p.events, n) == Actual(p, n);
    }
    if p.slots != map[] {
      assert exists n :: n in p.slots;
    }
  }

  /** The node was in the pool when `ops[i]` cleared it, and was not back at the end of any later step. */
  ghost predicate ClearedAwayAt(capacity: nat, ops: seq<Op>, n: string, i: int) {
    && 0 <= i < |ops| && ops[i] == Clear
    && n in Run(capacity, ops[..i]).slots
    && forall j | i < j <= |ops| :: n !in Run(capacity, ops[..j]).slots
  }

  ghost predicate ClearedAway(capacity: nat, ops: seq<Op>, n: string) {
    exists i :: ClearedAwayAt(capacity, ops, n, i)
  }

  lemma ClearedAwayAtSnoc(capacity: nat, ops: seq<Op>, n: string, i: int)
    requires ops != []
    ensures var last, front := |ops| - 1, ops[..|ops| - 1];
            ClearedAwayAt(capacity, ops, n, i) <==>
              && n !in Run(capacity, ops).slots
              && if i == last then ops[last] == Clear && n in Run(capacity, front).slots
                 else ClearedAwayAt(capacity, front, n, i)
  {
    hide Run;
    var last, front := |ops| - 1, ops[..|ops| - 1];
    assert ops[..|ops|] == ops;
    assert forall j | 0 <= j <= last :: front[..j] == ops[..j];
    if ClearedAwayAt(capacity, ops, n, i) && i < last {
      forall j | i < j <= last ensures n !in Run(capacity, front[..j]).slots {
        assert n !in Run(capacity, ops[..j]).slots;
      }
    }
    if 0 <= i < last && ClearedAwayAt(capacity, front, n, i) && n !in Run(capacity, ops).slots {
      forall j | i < j <= |ops| ensures n !in Run(capacity, ops[..j]).slots {
        assert j <= last ==> n !in Run(capacity, front[..j]).slots;
      }
    }
  }

  lemma ClearedAwaySnoc(capacity: nat, ops: seq<Op>, n: string)
    requires ops != []
    ensures var op, front := ops[|ops| - 1], ops[..|ops| - 1];
            ClearedAway(capacity, ops, n) <==>
              && n !in Run(capacity, ops).slots
              && (ClearedAway(capacity, front, n) || (op == Clear && n in Run(capacity, front).slots))
  {
    hide Run, ClearedAwayAt;
    var last, op, front := |ops| - 1, ops[|ops| - 1], ops[..|ops| - 1];
    if ClearedAway(capacity, ops, n) {
      var i :| ClearedAwayAt(capacity, ops, n, i);
      ClearedAwayAtSnoc(capacity, ops, n, i);
    }
    if n !in Run(capacity, ops).slots {
      if ClearedAway(capacity, front, n) {
        var i :| ClearedAwayAt(capacity, front, n, i);
        ClearedAwayAtSnoc(capacity, ops, n, i);
        InRange(capacity, front, n, i);
      }
      if op == Clear && n in Run(capacity, front).slots {
        ClearedAwayAtSnoc(capacity, ops, n, last);
      }
    }
  }

  lemma InRange(capacity: nat, ops: seq<Op>, n: string, i: int)
    requires ClearedAwayAt(capacity, ops, n, i)
    ensures 0 <= i < |ops|
  {
  }

  /**
   Over every run, the emitted events alone tell the state of a node if and only if it was not cleared
   away: a clear took it out and nothing has brought it back since. Listeners take such a node for
   present.
   */
  lemma {:induction false} EventsTellIffNotClearedAway(capacity: nat, ops: seq<Op>, n: string)
    ensures var p := Run(capacity, ops);
            && (Told(p.events, n) == Actual(p, n) <==> !ClearedAway(capacity, ops, n))
            && (ClearedAway(capacity, ops, n) ==> n !in p.slots && Told(p.events, n).Some?)
  {
    hide ClearedAway, Step;
    if ops == [] {
      NothingCleared(capacity, n);
    } else {
      var front, op := ops[..|ops| - 1], ops[|ops| - 1];
      var p := Run(capacity, front);
      EventsTellIffNotClearedAway(capacity, front, n);
      ClearedAwaySnoc(capacity, ops, n);
      assert Run(capacity, ops) == Step(capacity, p, op);
      hide Run;
      if op == Clear {
        ClearStep(capacity, p, n);
      } else if ClearedAway(capacity, front, n) {
        StepOnAbsent(capacity, p, op, n);
      } else {
        StepTells(capacity, p, op, n);
      }
    }
  }

  lemma NothingCleared(capacity: nat, n: string)
    ensures !ClearedAway(capacity, [], n) && Run(capacity, []) == EMPTY
  {
  }

  lemma ClearStep(capacity: nat, p: Pool, n: string)
    ensures var q := Step(capacity, p, Clear); Told(q.events, n) == Told(p.events, n) && Actual(q, n) == None
  {
  }

  /** A node that is not in the pool is in it afterwards, and told to be, or no event was about it. */
  lemma StepOnAbsent(capacity: nat, p: Pool, op: Op, n: string)
    requires op != Clear && n !in p.slots
    ensures var q := Step(capacity, p, op);
            if n in q.slots then Told(q.events, n) == Actual(q, n) else Told(q.events, n) == Told(p.events, n)
  {
    if op.Reconnect? || op.BeginDisconnect? {
      ToldOne(p.events, Leaving(op.nodeId), n);
    }
    if op.Reconnect? {
      AddOnAbsent(capacity, Leave(p, op.nodeId, None, op.now), op.nodeId, op.socket, op.connectionGen, n);
    } else if op.Add? {
      AddOnAbsent(capacity, p, op.nodeId, op.socket, op.connectionGen, n);
    } else if op.ForceRemove? {
      ToldOne(p.events, Left(op.nodeId), n);
    } else if op.Fire? && op.timer in p.armed {
      ToldOne(p.events, Left(p.armed[op.timer].nodeId), n);
    }
  }

  lemma AddOnAbsent(capacity: nat, p: Pool, m: string, socket: int, gen: int, n: string)
    requires n !in p.slots
    ensures var q := Added(capacity, p, m, socket, gen);
            if n in q.slots then Told(q.events, n) == Actual(q, n) else Told(q.events, n) == Told(p.events, n)
  {
    ToldOne(p.events, Joined(m), n);
    ToldOne(p.events, Rejoined(m), n);
    if Refused(capacity, p, m, gen).Some? {
      ToldOne(p.events, Rejected(m, Refused(capacity, p, m, gen).value), n);
    }
  }

  /** So a listener that follows the events knows every slot's state as long as the pool is not cleared. */
  lemma EventsTellTheState(capacity: nat, ops: seq<Op>, n: string)
    requires Clear !in ops
    ensures Told(Run(capacity, ops).events, n) == Actual(Run(capacity, ops), n)
  {
    hide Run;
    EventsTellIffNotClearedAway(capacity, ops, n);
  }

  lemma StepTells(capacity: nat, p: Pool, op: Op, n: string)
    requires op != Clear && Told(p.events, n) == Actual(p, n)
    ensures Told(Step(capacity, p, op).events, n) == Actual(Step(capacity, p, op), n)
  {
    if op.Reconnect? {
      var mid := Leave(p, op.nodeId, None, op.now);
      LeaveTells(p, op.nodeId, None, op.now, n);
      AddTells(capacity, mid, op.nodeId, op.socket, op.connectionGen, n);
    } else if op.Add? {
      AddTells(capacity, p, op.nodeId, op.socket, op.connectionGen, n);
    } else if op.BeginDisconnect? {
      LeaveTells(p, op.nodeId, op.gen, op.now, n);
    } else if op.ForceRemove? {
      ToldOne(p.events, Left(op.nodeId), n);
    } else if op.timer in p.armed {
      ToldOne(p.events, Left(p.armed[op.timer].nodeId), n);
    }
  }

  lemma LeaveTells(p: Pool, m: string, gen: Option<int>, now: int, n: string)
    requires Told(p.events, n) == Actual(p, n)
    ensures Told(Leave(p, m, gen, now).events, n) == Actual(Leave(p, m, gen, now), n)
  {
    ToldOne(p.events, Leaving(m), n);
  }

  lemma AddTells(capacity: nat, p: Pool, m: string, socket: int, gen: int, n: string)
    requires Told(p.events, n) == Actual(p, n)
    ensures Told(Added(capacity, p, m, socket, gen).events, n) == Actual(Added(capacity, p, m, socket, gen), n)
  {
    ToldOne(p.events, Joined(m), n);
    ToldOne(p.events, Rejoined(m), n);
    if Refused(capacity, p, m, gen).Some? {
      ToldOne(p.events, Rejected(m, Refused(capacity, p, m, gen).value), n);
    }
  }
}
