/**
 The WebSocket connection pool of src/ws/pool.ts and the manager of src/ws/connectionManager.ts.

 Entries are objects updated in place. A grace timer is an armed deadline: what `setTimeout`
 captured, and when it is due. Every method of the pool is one synchronous step; event listeners
 are taken not to call back into the pool.
 */
module ConnectionPools {
  import opened Common

  const RECONNECT_GRACE_MS: int := 500

  datatype ConnectionState = Connected | Disconnecting | Disconnected

  datatype PoolError = DuplicateConnection | StaleGeneration | PoolCapacity

  datatype PoolEvent =
    | Joined(nodeId: string)
    | Leaving(nodeId: string)
    | Left(nodeId: string)
    | Rejoined(nodeId: string)
    | Rejected(nodeId: string, reason: PoolError)

  // --- the pool as a value ---

  datatype Slot = Slot(
    socket: int,
    connectionGen: int,
    state: ConnectionState,
    disconnectingAt: Option<int>,
    graceTimer: Option<nat>
  )

  datatype Armed = Armed(nodeId: string, deadline: int)

  datatype Pool = Pool(slots: map<string, Slot>, armed: map<nat, Armed>, nextTimer: nat, events: seq<PoolEvent>)

  datatype Op =
    | Add(nodeId: string, socket: int, connectionGen: int)
    | BeginDisconnect(nodeId: string, gen: Option<int>, now: int)
    | ForceRemove(nodeId: string)
    | Fire(timer: nat)
    | Reconnect(nodeId: string, socket: int, connectionGen: int, now: int)
    | Clear

  const EMPTY: Pool := Pool(map[], map[], 0, [])

  function Live(socket: int, gen: int): Slot {
    Slot(socket, gen, Connected, None, None)
  }

  predicate Holds(p: Pool, nodeId: string, state: ConnectionState) {
    nodeId in p.slots && p.slots[nodeId].state == state
  }

  function Refused(capacity: nat, p: Pool, nodeId: string, gen: int): Option<PoolError> {
    if |p.slots| >= capacity && nodeId !in p.slots then Some(PoolCapacity)
    else if Holds(p, nodeId, Connected) then Some(DuplicateConnection)
    else if Holds(p, nodeId, Disconnecting) && gen <= p.slots[nodeId].connectionGen && gen != 0
    then Some(StaleGeneration)
    else None
  }

  /** The timers left once the one a slot holds is cancelled. */
  function Cancelled(p: Pool, nodeId: string): map<nat, Armed> {
    if nodeId in p.slots && p.slots[nodeId].graceTimer.Some? then p.armed - {p.slots[nodeId].graceTimer.value}
    else p.armed
  }

  function Settled(p: Pool, nodeId: string, socket: int, gen: int, event: PoolEvent): Pool {
    p.(slots := p.slots[nodeId := Live(socket, gen)], armed := Cancelled(p, nodeId), events := p.events + [event])
  }

  function Added(capacity: nat, p: Pool, nodeId: string, socket: int, gen: int): Pool {
    match Refused(capacity, p, nodeId, gen)
    case Some(PoolCapacity) => p
    case Some(reason) => p.(events := p.events + [Rejected(nodeId, reason)])
    case None => Settled(p, nodeId, socket, gen, if nodeId in p.slots then Rejoined(nodeId) else Joined(nodeId))
  }

  predicate Disconnects(p: Pool, nodeId: string, gen: Option<int>) {
    Holds(p, nodeId, Connected) && (gen.Some? ==> p.slots[nodeId].connectionGen <= gen.value)
  }

  function Leave(p: Pool, nodeId: string, gen: Option<int>, now: int): Pool {
    if Disconnects(p, nodeId, gen) then
      Pool(p.slots[nodeId := p.slots[nodeId].(state := Disconnecting, disconnectingAt := Some(now),
                                              graceTimer := Some(p.nextTimer))],
           p.armed[p.nextTimer := Armed(nodeId, now + RECONNECT_GRACE_MS)],
           p.nextTimer + 1,
           p.events + [Leaving(nodeId)])
    else p
  }

  function Removed(p: Pool, nodeId: string): Pool {
    if nodeId in p.slots
    then p.(slots := p.slots - {nodeId}, armed := Cancelled(p, nodeId), events := p.events + [Left(nodeId)])
    else p
  }

  function Fired(p: Pool, timer: nat): Pool {
    if timer !in p.armed then p
    else
      var nodeId, q := p.armed[timer].nodeId, p.(armed := p.armed - {timer});
      if Holds(p, nodeId, Disconnecting) then q.(slots := q.slots - {nodeId}, events := q.events + [Left(nodeId)])
      else q
  }

  function Step(capacity: nat, p: Pool, op: Op): Pool {
    match op
    case Add(n, socket, gen) => Added(capacity, p, n, socket, gen)
    case BeginDisconnect(n, gen, now) => Leave(p, n, gen, now)
    case ForceRemove(n) => Removed(p, n)
    case Fire(t) => Fired(p, t)
    case Reconnect(n, socket, gen, now) => Added(capacity, Leave(p, n, None, now), n, socket, gen)
    case Clear => p.(slots := map[], armed := map[])
  }

  // --- what every step keeps ---

  /** A slot that is leaving holds an armed timer, due 500 ms after it began to leave; no other slot holds one. */
  predicate SlotOk(p: Pool, n: string)
    requires n in p.slots
  {
    var s := p.slots[n];
    && s.state != Disconnected
    && (s.state.Disconnecting? <==> s.graceTimer.Some?)
    && (s.state.Disconnecting? <==> s.disconnectingAt.Some?)
    && (s.graceTimer.Some? ==>
          && s.graceTimer.value in p.armed
          && p.armed[s.graceTimer.value] == Armed(n, s.disconnectingAt.value + RECONNECT_GRACE_MS))
  }

  /** Every armed timer is the one its slot holds. */
  predicate TimerOk(p: Pool, t: nat)
    requires t in p.armed
  {
    && t < p.nextTimer
    && p.armed[t].nodeId in p.slots
    && p.slots[p.armed[t].nodeId].graceTimer == Some(t)
  }

  predicate Consistent(capacity: nat, p: Pool) {
    && |p.slots| <= capacity
    && (forall n | n in p.slots :: SlotOk(p, n))
    && (forall t | t in p.armed :: TimerOk(p, t))
  }

  lemma MapSizes(m: map<string, Slot>, n: string, s: Slot)
    ensures |m[n := s]| == if n in m then |m| else |m| + 1
    ensures |m - {n}| <= |m|
  {
    assert m[n := s].Keys == m.Keys + {n};
    assert (m - {n}).Keys == m.Keys - {n};
    assert |m[n := s].Keys| == |m[n := s]| && |m.Keys| == |m| && |(m - {n}).Keys| == |m - {n}|;
  }

  lemma SettleKeeps(capacity: nat, p: Pool, nodeId: string, socket: int, gen: int, event: PoolEvent)
    requires Consistent(capacity, p) && (nodeId in p.slots || |p.slots| < capacity)
    ensures Consistent(capacity, Settled(p, nodeId, socket, gen, event))
  {
    var q := Settled(p, nodeId, socket, gen, event);
    MapSizes(p.slots, nodeId, Live(socket, gen));
    forall n | n in q.slots ensures SlotOk(q, n) {
      assert n != nodeId ==> SlotOk(p, n);
    }
    forall t | t in q.armed ensures TimerOk(q, t) {
      assert TimerOk(p, t);
    }
  }

  lemma EventKeeps(capacity: nat, p: Pool, event: PoolEvent)
    requires Consistent(capacity, p)
    ensures Consistent(capacity, p.(events := p.events + [event]))
  {
    var q := p.(events := p.events + [event]);
    forall n | n in q.slots ensures SlotOk(q, n) {
      assert SlotOk(p, n);
    }
    forall t | t in q.armed ensures TimerOk(q, t) {
      assert TimerOk(p, t);
    }
  }

  lemma AddKeeps(capacity: nat, p: Pool, nodeId: string, socket: int, gen: int)
    requires Consistent(capacity, p)
    ensures Consistent(capacity, Added(capacity, p, nodeId, socket, gen))
  {
    hide Consistent, Settled;
    match Refused(capacity, p, nodeId, gen)
    case Some(PoolCapacity) =>
    case Some(reason) => EventKeeps(capacity, p, Rejected(nodeId, reason));
    case None =>
      SettleKeeps(capacity, p, nodeId, socket, gen, if nodeId in p.slots then Rejoined(nodeId) else Joined(nodeId));
  }

  lemma LeaveKeeps(capacity: nat, p: Pool, nodeId: string, gen: Option<int>, now: int)
    requires Consistent(capacity, p)
    ensures Consistent(capacity, Leave(p, nodeId, gen, now)) && Leave(p, nodeId, gen, now).slots.Keys == p.slots.Keys
  {
    var q := Leave(p, nodeId, gen, now);
    if Disconnects(p, nodeId, gen) {
      MapSizes(p.slots, nodeId, q.slots[nodeId]);
      forall n | n in q.slots ensures SlotOk(q, n) {
        assert SlotOk(p, n);
      }
      forall t | t in q.armed ensures TimerOk(q, t) {
        assert t != p.nextTimer ==> TimerOk(p, t);
        assert SlotOk(p, nodeId);
      }
    }
  }

  lemma RemoveKeeps(capacity: nat, p: Pool, nodeId: string)
    requires Consistent(capacity, p)
    ensures Consistent(capacity, Removed(p, nodeId))
  {
    if nodeId in p.slots {
      var q := Removed(p, nodeId);
      MapSizes(p.slots, nodeId, p.slots[nodeId]);
      forall n | n in q.slots ensures SlotOk(q, n) {
        assert SlotOk(p, n);
      }
      forall t | t in q.armed ensures TimerOk(q, t) {
        assert TimerOk(p, t);
      }
    }
  }

  /** A timer that fires always takes a disconnecting slot away, and nothing else. */
  lemma FireRemoves(capacity: nat, p: Pool, t: nat)
    requires Consistent(capacity, p) && t in p.armed
    ensures Holds(p, p.armed[t].nodeId, Disconnecting)
    ensures Fired(p, t) == Removed(p, p.armed[t].nodeId)
  {
    assert TimerOk(p, t);
    assert SlotOk(p, p.armed[t].nodeId);
  }

  lemma StepKeeps(capacity: nat, p: Pool, op: Op)
    requires Consistent(capacity, p)
    ensures Consistent(capacity, Step(capacity, p, op))
  {
    match op
    case Add(n, socket, gen) => AddKeeps(capacity, p, n, socket, gen);
    case BeginDisconnect(n, gen, now) => LeaveKeeps(capacity, p, n, gen, now);
    case ForceRemove(n) => RemoveKeeps(capacity, p, n);
    case Fire(t) =>
      if t in p.armed {
        FireRemoves(capacity, p, t);
        RemoveKeeps(capacity, p, p.armed[t].nodeId);
      }
    case Reconnect(n, socket, gen, now) =>
      LeaveKeeps(capacity, p, n, None, now);
      AddKeeps(capacity, Leave(p, n, None, now), n, socket, gen);
    case Clear =>
  }

  /** The only timer that can be armed for a node is the one its slot holds. */
  lemma HeldBySlots(capacity: nat, p: Pool, n: string)
    requires Consistent(capacity, p)
    ensures forall t | t in p.armed && p.armed[t].nodeId == n :: n in p.slots && p.slots[n].graceTimer == Some(t)
  {
    forall t | t in p.armed && p.armed[t].nodeId == n ensures n in p.slots && p.slots[n].graceTimer == Some(t) {
      assert TimerOk(p, t);
    }
  }

  function FireAll(p: Pool, timers: seq<nat>): Pool {
    if timers == [] then p else Fired(FireAll(p, timers[..|timers| - 1]), timers[|timers| - 1])
  }

  lemma {:induction false} FireAllKeeps(capacity: nat, p: Pool, timers: seq<nat>)
    requires Consistent(capacity, p)
    ensures var q := FireAll(p, timers);
            && Consistent(capacity, q)
            && (forall n | n in q.slots :: n in p.slots && q.slots[n] == p.slots[n])
            && (forall t :: t in q.armed <==> t in p.armed && t !in timers)
            && (forall t | t in q.armed :: q.armed[t] == p.armed[t])
            && (forall n | n in p.slots && n !in q.slots ::
                  exists t :: t in timers && t in p.armed && p.armed[t].nodeId == n)
  {
    hide Consistent, SlotOk, TimerOk, Removed;
    if timers != [] {
      var front, t := timers[..|timers| - 1], timers[|timers| - 1];
      var before := FireAll(p, front);
      FireAllKeeps(capacity, p, front);
      assert forall u :: u in timers <==> u in front || u == t;
      StepKeeps(capacity, before, Fire(t));
      if t in before.armed {
        FireRemoves(capacity, before, t);
      }
    }
  }

  /** Firing every timer that is due removes exactly the slots whose 500 ms are over. */
  lemma FireDueIs(capacity: nat, p: Pool, timers: seq<nat>, now: int)
    requires Consistent(capacity, p)
    requires forall t | t in p.armed :: t in timers <==> p.armed[t].deadline <= now
    ensures FireAll(p, timers).slots == InGrace(p.slots, now)
  {
    var q := FireAll(p, timers);
    FireAllKeeps(capacity, p, timers);
    forall n | n in p.slots ensures n in q.slots <==> !IsDue(p.slots[n], now) {
      assert SlotOk(p, n);
      if n in q.slots {
        assert SlotOk(q, n);
      } else {
        var t :| t in timers && t in p.armed && p.armed[t].nodeId == n;
        assert TimerOk(p, t);
      }
    }
  }

  predicate IsDue(s: Slot, now: int) {
    s.state.Disconnecting? && s.disconnectingAt.Some? && s.disconnectingAt.value + RECONNECT_GRACE_MS <= now
  }

  /** The slots left once every due timer has fired. */
  function InGrace(slots: map<string, Slot>, now: int): map<string, Slot> {
    map n | n in slots && !IsDue(slots[n], now) :: slots[n]
  }

  /** When a reconnect is taken: a higher generation or none, or an empty slot with room for it. */
  predicate Admits(capacity: nat, p: Pool, nodeId: string, gen: int) {
    if nodeId in p.slots then gen > p.slots[nodeId].connectionGen || gen == 0 else |p.slots| < capacity
  }

  lemma ReconnectOutcome(capacity: nat, p: Pool, nodeId: string, gen: int, now: int)
    requires Consistent(capacity, p)
    ensures var q := Leave(p, nodeId, None, now);
            && (Refused(capacity, q, nodeId, gen).None? <==> Admits(capacity, p, nodeId, gen))
            && (Refused(capacity, q, nodeId, gen).Some? ==>
                  Refused(capacity, q, nodeId, gen).value == if nodeId in p.slots then StaleGeneration
                                                             else PoolCapacity)
  {
    var q := Leave(p, nodeId, None, now);
    LeaveKeeps(capacity, p, nodeId, None, now);
    assert q.slots.Keys == p.slots.Keys && |q.slots.Keys| == |q.slots| && |p.slots.Keys| == |p.slots|;
    assert nodeId in p.slots ==> SlotOk(p, nodeId) && SlotOk(q, nodeId);
  }

  // --- what each operation does, case by case ---

  /** A live connection is never replaced by an add, whatever generation it carries. */
  lemma AddToConnected(capacity: nat, p: Pool, n: string, socket: int, gen: int)
    requires Holds(p, n, Connected)
    ensures Refused(capacity, p, n, gen) == Some(DuplicateConnection)
    ensures Step(capacity, p, Add(n, socket, gen)) == p.(events := p.events + [Rejected(n, DuplicateConnection)])
  {
  }

  lemma AddOutcome(capacity: nat, p: Pool, n: string, socket: int, gen: int)
    ensures var q := Step(capacity, p, Add(n, socket, gen));
            Holds(p, n, Connected) ==>
              Refused(capacity, p, n, gen) == Some(DuplicateConnection) && q.slots == p.slots && q.armed == p.armed
  {
    if Holds(p, n, Connected) {
      AddToConnected(capacity, p, n, socket, gen);
    }
  }

  /** A slot that is leaving is taken over by a higher generation or the legacy one, and its timer is gone. */
  lemma AddToDisconnecting(capacity: nat, p: Pool, n: string, socket: int, gen: int)
    requires Consistent(capacity, p) && Holds(p, n, Disconnecting)
    ensures var q, refused := Step(capacity, p, Add(n, socket, gen)), Refused(capacity, p, n, gen);
            if gen > p.slots[n].connectionGen || gen == 0 then
              && refused == None
              && q.slots == p.slots[n := Slot(socket, gen, Connected, None, None)]
              && q.armed == (map t | t in p.armed && p.armed[t].nodeId != n :: p.armed[t])
              && q.events == p.events + [Rejoined(n)]
            else
              && refused == Some(StaleGeneration)
              && q == p.(events := p.events + [Rejected(n, StaleGeneration)])
  {
    TimersOf(capacity, p, n);
  }

  lemma AddToEmpty(capacity: nat, p: Pool, n: string, socket: int, gen: int)
    requires n !in p.slots
    ensures var q, refused := Step(capacity, p, Add(n, socket, gen)), Refused(capacity, p, n, gen);
            if |p.slots| < capacity then
              && refused == None
              && q == p.(slots := p.slots[n := Slot(socket, gen, Connected, None, None)],
                         events := p.events + [Joined(n)])
            else refused == Some(PoolCapacity) && q == p
  {
  }

  /** Cancelling what a slot holds cancels every timer of its node and no other. */
  lemma TimersOf(capacity: nat, p: Pool, n: string)
    requires Consistent(capacity, p)
    ensures Cancelled(p, n) == map t | t in p.armed && p.armed[t].nodeId != n :: p.armed[t]
  {
    forall t | t in p.armed ensures t in Cancelled(p, n) <==> p.armed[t].nodeId != n {
      assert TimerOk(p, t);
      assert n in p.slots ==> SlotOk(p, n);
    }
  }

  /** A disconnect applies to a connected slot of no higher generation, and arms a timer of its own. */
  lemma LeaveExactly(capacity: nat, p: Pool, n: string, gen: Option<int>, now: int)
    requires Consistent(capacity, p)
    ensures var q, applies := Leave(p, n, gen, now), Disconnects(p, n, gen);
            && (applies <==> Holds(p, n, Connected) && (gen == None || p.slots[n].connectionGen <= gen.value))
            && (!applies ==> q == p)
            && (applies ==>
                  && p.nextTimer !in p.armed
                  && q.slots == p.slots[n := Slot(p.slots[n].socket, p.slots[n].connectionGen, Disconnecting,
                                                  Some(now), Some(p.nextTimer))]
                  && q.armed == p.armed[p.nextTimer := Armed(n, now + 500)]
                  && q.events == p.events + [Leaving(n)])
  {
    forall t | t in p.armed ensures t < p.nextTimer {
      assert TimerOk(p, t);
    }
  }

  /** Removing a node takes its slot and its timer, and nothing else. */
  lemma RemoveExactly(capacity: nat, p: Pool, n: string)
    requires Consistent(capacity, p)
    ensures var q := Step(capacity, p, ForceRemove(n));
            && q.slots == p.slots - {n}
            && q.armed == (map t | t in p.armed && p.armed[t].nodeId != n :: p.armed[t])
            && q.events == p.events + (if n in p.slots then [Left(n)] else [])
  {
    TimersOf(capacity, p, n);
    assert p.events + [] == p.events;
    if n !in p.slots {
      assert p.slots - {n} == p.slots;
    }
  }

  // --- the objects ---

  class ConnectionEntry {
    const nodeId: string
    var socket: int
    var connectionGen: int
    var state: ConnectionState
    var disconnectingAt: Option<int>
    var graceTimer: Option<nat>

    constructor (nodeId: string, socket: int, connectionGen: int)
      ensures this.nodeId == nodeId && Value() == Live(socket, connectionGen)
    {
      this.nodeId := nodeId;
      this.socket := socket;
      this.connectionGen := connectionGen;
      state := Connected;
      disconnectingAt := None;
      graceTimer := None;
    }

    function Value(): Slot reads this { Slot(socket, connectionGen, state, disconnectingAt, graceTimer) }
  }

  class ConnectionPool {
    const capacity: nat
    var entries: map<string, ConnectionEntry>
    var armed: map<nat, Armed>
    /** The entry each timer's callback captured. */
    var captured: map<nat, ConnectionEntry>
    var nextTimer: nat
    var events: seq<PoolEvent>

    /** Entries are filed under their own node, and a timer captured the entry its node has now. */
    ghost predicate Linked()
      reads this, entries.Values
    {
      && (forall n | n in entries :: entries[n].nodeId == n)
      && (forall t | t in armed ::
            armed[t].nodeId in entries && t in captured && captured[t] == entries[armed[t].nodeId])
    }

    ghost function Slots(): (slots: map<string, Slot>)
      reads this, entries.Values
      ensures slots.Keys == entries.Keys && |slots| == |entries|
    {
      var slots := map n | n in entries :: entries[n].Value();
      assert slots.Keys == entries.Keys && |slots.Keys| == |slots| && |entries.Keys| == |entries|;
      slots
    }

    lemma SlotAt(n: string)
      ensures n in entries ==> Slots()[n] == entries[n].Value()
    {
    }

    lemma NotShared(n: string)
      requires Linked() && n in entries
      ensures entries[n].nodeId == n && forall m | m in entries && m != n :: entries[m] != entries[n]
    {
    }

    lemma TimersHeld()
      requires Valid()
      ensures forall t | t in armed :: armed[t].nodeId in entries && entries[armed[t].nodeId].graceTimer == Some(t)
    {
      forall t | t in armed ensures armed[t].nodeId in entries && entries[armed[t].nodeId].graceTimer == Some(t) {
        assert TimerOk(View(), t);
      }
    }

    lemma Timed(t: nat)
      requires Valid() && t in armed
      ensures var n := armed[t].nodeId;
              && n in entries && t in captured && captured[t] == entries[n]
              && entries[n].state.Disconnecting? && Holds(View(), n, Disconnecting)
              && (forall u | u in armed && armed[u].nodeId == n :: u == t)
    {
      FireRemoves(capacity, View(), t);
      HeldBySlots(capacity, View(), armed[t].nodeId);
    }

    lemma NoEntries()
      requires entries == map[] && armed == map[]
      ensures Slots() == map[] && Linked()
    {
    }

    method Reject(nodeId: string, reason: PoolError)
      requires Linked()
      modifies this`events
      ensures Linked() && View() == old(View()).(events := old(events) + [Rejected(nodeId, reason)])
    {
      events := events + [Rejected(nodeId, reason)];
    }

    /** At most the slot of one node has changed, come or gone. */
    twostate predicate OthersKept(nodeId: string)
      reads this, entries.Values
    {
      && (forall n | n != nodeId :: n in entries <==> n in old(entries))
      && (forall n | n != nodeId && n in entries ::
          entries[n] == old(entries)[n] && entries[n].Value() == old(entries[n].Value()))
    }

    twostate lemma SlotsChanged(nodeId: string)
      requires OthersKept(nodeId)
      ensures Slots() == if nodeId in entries then old(Slots())[nodeId := entries[nodeId].Value()]
                         else old(Slots()) - {nodeId}
    {
    }

    /** Timers cancelled, and at most one node's entry come or gone. */
    twostate lemma StillLinked(nodeId: string)
      requires old(Linked()) && OthersKept(nodeId) && captured == old(captured)
      requires forall t | t in armed :: t in old(armed) && armed[t] == old(armed)[t]
      requires nodeId in entries ==> entries[nodeId].nodeId == nodeId
      requires nodeId in old(entries) ==>
                 || (nodeId in entries && entries[nodeId] == old(entries)[nodeId])
                 || (forall t | t in armed :: armed[t].nodeId != nodeId)
      ensures Linked()
    {
    }

    twostate lemma LinkedTimer(nodeId: string)
      requires old(Linked()) && entries == old(entries) && nodeId in entries
      requires armed.Keys == old(armed).Keys + {old(nextTimer)} && armed[old(nextTimer)].nodeId == nodeId
      requires forall t | t in old(armed) && t != old(nextTimer) :: armed[t] == old(armed)[t]
      requires captured == old(captured)[old(nextTimer) := entries[nodeId]]
      ensures Linked()
    {
    }

    ghost function View(): Pool
      reads this, entries.Values
    {
      Pool(Slots(), armed, nextTimer, events)
    }

    ghost predicate Valid()
      reads this, entries.Values
    {
      Linked() && Consistent(capacity, View())
    }

    constructor (capacity: nat)
      ensures Valid() && this.capacity == capacity && View() == EMPTY && entries == map[]
    {
      this.capacity := capacity;
      entries := map[];
      armed := map[];
      captured := map[];
      nextTimer := 0;
      events := [];
    }

    method Add(nodeId: string, socket: int, connectionGen: int) returns (r: Result<ConnectionEntry, PoolError>)
      requires Valid()
      modifies this, entries.Values
      ensures Valid() && fresh(entries.Values - old(entries.Values))
      ensures View() == Step(capacity, old(View()), Op.Add(nodeId, socket, connectionGen))
      ensures match Refused(capacity, old(View()), nodeId, connectionGen)
              case Some(reason) => r == Err(reason)
              case None => r.Ok? && nodeId in entries && r.value == entries[nodeId]
      ensures Holds(old(View()), nodeId, Connected) ==>
                r == Err(DuplicateConnection) && Slots() == old(Slots()) && armed == old(armed)
    {
      AddOutcome(capacity, View(), nodeId, socket, connectionGen);
      hide Consistent, Slots, Linked, Settled;
      SlotAt(nodeId);
      AddKeeps(capacity, View(), nodeId, socket, connectionGen);
      if nodeId in entries {
        NotShared(nodeId);
      }
      if |entries| >= capacity && nodeId !in entries {
        return Err(PoolCapacity);
      }
      if nodeId in entries {
        var existing := entries[nodeId];
        if existing.state == Connected {
          Reject(nodeId, DuplicateConnection);
          return Err(DuplicateConnection);
        }
        if existing.state == Disconnecting {
          if connectionGen > existing.connectionGen || connectionGen == 0 {
            ReplaceEntry(existing, socket, connectionGen);
            return Ok(existing);
          }
          Reject(nodeId, StaleGeneration);
          return Err(StaleGeneration);
        }
        if existing.state == Disconnected {
          ReplaceEntry(existing, socket, connectionGen);
          return Ok(existing);
        }
      }
      var entry := Insert(nodeId, socket, connectionGen);
      return Ok(entry);
    }

    method Insert(nodeId: string, socket: int, connectionGen: int) returns (entry: ConnectionEntry)
      requires Linked() && nodeId !in entries
      modifies this
      ensures Linked() && fresh(entry) && entries == old(entries)[nodeId := entry]
      ensures View() == Settled(old(View()), nodeId, socket, connectionGen, Joined(nodeId))
    {
      hide Slots, Linked;
      entry := new ConnectionEntry(nodeId, socket, connectionGen);
      entries := entries[nodeId := entry];
      events := events + [Joined(nodeId)];
      SlotsChanged(nodeId);
      StillLinked(nodeId);
    }

    method ReplaceEntry(existing: ConnectionEntry, socket: int, connectionGen: int)
      requires Linked() && existing.nodeId in entries && entries[existing.nodeId] == existing
      modifies this, existing
      ensures Linked() && entries == old(entries)
      ensures View() == Settled(old(View()), existing.nodeId, socket, connectionGen, Rejoined(existing.nodeId))
    {
      hide Slots, Linked;
      SlotAt(existing.nodeId);
      NotShared(existing.nodeId);
      ClearTimer(existing);
      existing.socket := socket;
      existing.connectionGen := connectionGen;
      existing.state := Connected;
      existing.disconnectingAt := None;
      events := events + [Rejoined(existing.nodeId)];
      SlotsChanged(existing.nodeId);
      StillLinked(existing.nodeId);
    }

    method BeginDisconnect(nodeId: string, gen: Option<int>, now: int) returns (applied: bool)
      requires Valid()
      modifies this, entries.Values
      ensures Valid() && entries == old(entries)
      ensures View() == Step(capacity, old(View()), Op.BeginDisconnect(nodeId, gen, now))
      ensures applied == Disconnects(old(View()), nodeId, gen)
    {
      ghost var was := View();
      SlotAt(nodeId);
      LeaveKeeps(capacity, was, nodeId, gen, now);
      hide Consistent;
      if nodeId !in entries {
        return false;
      }
      var entry := entries[nodeId];
      if gen.Some? && entry.connectionGen > gen.value {
        return false;
      }
      if entry.state != Connected {
        return false;
      }
      StartGrace(entry, now);
      return true;
    }

    method StartGrace(entry: ConnectionEntry, now: int)
      requires Linked() && entry.nodeId in entries && entries[entry.nodeId] == entry && entry.state == Connected
      modifies this, entry
      ensures Linked() && entries == old(entries)
      ensures View() == Leave(old(View()), entry.nodeId, None, now)
    {
      hide Slots, Linked;
      SlotAt(entry.nodeId);
      NotShared(entry.nodeId);
      entry.state := Disconnecting;
      entry.disconnectingAt := Some(now);
      events := events + [Leaving(entry.nodeId)];
      armed := armed[nextTimer := Armed(entry.nodeId, now + RECONNECT_GRACE_MS)];
      captured := captured[nextTimer := entry];
      entry.graceTimer := Some(nextTimer);
      nextTimer := nextTimer + 1;
      SlotsChanged(entry.nodeId);
      LinkedTimer(entry.nodeId);
    }

    method ForceRemove(nodeId: string) returns (removed: bool)
      requires Valid()
      modifies this, entries.Values
      ensures Valid() && entries == old(entries) - {nodeId}
      ensures View() == Step(capacity, old(View()), Op.ForceRemove(nodeId))
      ensures removed == (nodeId in old(entries))
    {
      ghost var was := View();
      RemoveKeeps(capacity, was, nodeId);
      HeldBySlots(capacity, was, nodeId);
      hide Consistent;
      if nodeId !in entries {
        return false;
      }
      SlotAt(nodeId);
      Remove(entries[nodeId]);
      return true;
    }

    method ClearTimer(entry: ConnectionEntry)
      modifies this`armed, entry`graceTimer
      ensures entry.graceTimer == None
      ensures armed == if old(entry.graceTimer).Some? then old(armed) - {old(entry.graceTimer).value} else old(armed)
    {
      if entry.graceTimer.Some? {
        armed := armed - {entry.graceTimer.value};
        entry.graceTimer := None;
      }
    }

    method Remove(entry: ConnectionEntry)
      requires Linked() && entry.nodeId in entries && entries[entry.nodeId] == entry
      requires forall t | t in armed && armed[t].nodeId == entry.nodeId :: entry.graceTimer == Some(t)
      modifies this, entry
      ensures Linked() && entries == old(entries) - {entry.nodeId}
      ensures View() == Removed(old(View()), entry.nodeId)
    {
      hide Slots, Linked;
      SlotAt(entry.nodeId);
      NotShared(entry.nodeId);
      ClearTimer(entry);
      entries := entries - {entry.nodeId};
      events := events + [Left(entry.nodeId)];
      SlotsChanged(entry.nodeId);
      StillLinked(entry.nodeId);
    }

    /** One armed timer fires: whatever raced with it, its slot is disconnecting and goes. */
    method Fire(t: nat)
      requires Valid() && t in armed
      modifies this
      ensures Valid()
      ensures Holds(old(View()), old(armed)[t].nodeId, Disconnecting)
      ensures View() == Step(capacity, old(View()), Op.Fire(t))
    {
      hide Consistent, Slots, Linked;
      Timed(t);
      StepKeeps(capacity, View(), Op.Fire(t));
      var nodeId, entry := armed[t].nodeId, captured[t];
      armed := armed - {t};
      ExpireGraceWindow(nodeId, entry.connectionGen);
      SlotsChanged(nodeId);
      StillLinked(nodeId);
    }

    method ExpireGraceWindow(nodeId: string, gen: int)
      modifies this
      ensures armed == old(armed) && captured == old(captured) && nextTimer == old(nextTimer)
      ensures if nodeId in old(entries) && old(entries)[nodeId].connectionGen == gen
              && old(entries)[nodeId].state == Disconnecting
              then entries == old(entries) - {nodeId} && events == old(events) + [Left(nodeId)]
              else entries == old(entries) && events == old(events)
    {
      if nodeId !in entries {
        return;
      }
      var entry := entries[nodeId];
      if entry.connectionGen != gen {
        return;
      }
      if entry.state != Disconnecting {
        return;
      }
      entries := entries - {nodeId};
      events := events + [Left(nodeId)];
    }

    /** The timer service at `now`: every due timer fires, in some order. */
    method FireDue(now: int)
      requires Valid()
      modifies this
      ensures Valid()
      ensures View().slots == InGrace(old(View().slots), now)
      ensures exists fired: seq<nat> :: View() == FireAll(old(View()), fired)
    {
      hide Consistent, Removed, Added, Leave, Holds, Linked, InGrace, Cancelled, Settled, Slots;
      ghost var was := View();
      ghost var fired: seq<nat> := [];
      var due := set t | t in armed && armed[t].deadline <= now;
      while due != {}
        invariant Valid() && View() == FireAll(was, fired) && armed == View().armed
        invariant forall t :: t in due <==> t in armed && armed[t].deadline <= now
        invariant armed.Keys <= was.armed.Keys
        invariant forall t | t in was.armed :: if t in armed then armed[t] == was.armed[t] else t in fired
        invariant forall t | t in fired :: t in was.armed && was.armed[t].deadline <= now
        decreases |due|
      {
        var t :| t in due;
        Fire(t);
        fired := fired + [t];
        due := due - {t};
      }
      FireAllKeeps(capacity, was, fired);
      FireDueIs(capacity, was, fired, now);
    }

    method Clear()
      requires Valid()
      modifies this
      ensures Valid() && entries == map[]
      ensures View() == Step(capacity, old(View()), Op.Clear)
    {
      hide Consistent, Slots, Linked;
      ghost var was := View();
      StepKeeps(capacity, was, Op.Clear);
      TimersHeld();
      var todo := entries.Keys;
      while todo != {}
        invariant todo <= entries.Keys && entries == old(entries) && events == old(events)
                  && nextTimer == old(nextTimer)
        invariant forall t | t in armed :: t in old(armed) && armed[t] == old(armed)[t] && armed[t].nodeId in todo
        decreases |todo|
      {
        var n :| n in todo;
        if entries[n].graceTimer.Some? {
          armed := armed - {entries[n].graceTimer.value};
        }
        todo := todo - {n};
      }
      assert armed == map[];
      entries := map[];
      NoEntries();
    }
  }

  class ConnectionManager {
    const pool: ConnectionPool
    /** The bus deliveries enqueued by `handleDisconnect`. */
    var deliveries: seq<(string, Option<int>)>

    constructor (pool: ConnectionPool)
      ensures this.pool == pool && deliveries == []
    {
      this.pool := pool;
      deliveries := [];
    }

    method HandleConnect(nodeId: string, socket: int, connectionGen: int)
      returns (r: Result<ConnectionEntry, PoolError>)
      requires pool.Valid()
      modifies pool, pool.entries.Values
      ensures pool.Valid() && fresh(pool.entries.Values - old(pool.entries.Values))
      ensures pool.View() == Step(pool.capacity, old(pool.View()), Op.Add(nodeId, socket, connectionGen))
      ensures match Refused(pool.capacity, old(pool.View()), nodeId, connectionGen)
              case Some(reason) => r == Err(reason)
              case None => r.Ok? && nodeId in pool.entries && r.value == pool.entries[nodeId]
    {
      r := pool.Add(nodeId, socket, connectionGen);
    }

    /** A delivery is enqueued exactly for a disconnect that was applied. */
    method HandleDisconnect(nodeId: string, connectionGen: Option<int>, now: int)
      requires pool.Valid()
      modifies this, pool, pool.entries.Values
      ensures pool.Valid() && pool.entries == old(pool.entries)
      ensures pool.View() == Step(pool.capacity, old(pool.View()), Op.BeginDisconnect(nodeId, connectionGen, now))
      ensures deliveries == old(deliveries) +
                            if Disconnects(old(pool.View()), nodeId, connectionGen) then [(nodeId, connectionGen)]
                            else []
    {
      hide Consistent, Leave, Disconnects, ConnectionPool.Linked, ConnectionPool.Slots;
      var applied := pool.BeginDisconnect(nodeId, connectionGen, now);
      if !applied {
        return;
      }
      deliveries := deliveries + [(nodeId, connectionGen)];
    }

    /** Never refused as a duplicate: a live connection is first put in its grace window. */
    method HandleReconnect(nodeId: string, socket: int, connectionGen: int, now: int)
      returns (r: Result<ConnectionEntry, PoolError>)
      requires pool.Valid()
      modifies pool, pool.entries.Values
      ensures pool.Valid() && fresh(pool.entries.Values - old(pool.entries.Values))
      ensures pool.View() == Step(pool.capacity, old(pool.View()), Op.Reconnect(nodeId, socket, connectionGen, now))
      ensures r.Ok? <==> Admits(pool.capacity, old(pool.View()), nodeId, connectionGen)
      ensures r.Ok? ==> nodeId in pool.entries && r.value == pool.entries[nodeId]
      ensures r.Err? ==> r.error == if nodeId in old(pool.entries) then StaleGeneration else PoolCapacity
    {
      hide Consistent, Added, Refused, Admits, ConnectionPool.Linked, ConnectionPool.Slots;
      pool.SlotAt(nodeId);
      ReconnectOutcome(pool.capacity, pool.View(), nodeId, connectionGen, now);
      if nodeId in pool.entries && pool.entries[nodeId].state == Connected {
        var _ := pool.BeginDisconnect(nodeId, None, now);
      }
      assert pool.View() == Leave(old(pool.View()), nodeId, None, now);
      r := HandleConnect(nodeId, socket, connectionGen);
    }

    method Evict(nodeId: string) returns (removed: bool)
      requires pool.Valid()
      modifies pool, pool.entries.Values
      ensures pool.Valid() && pool.View() == Step(pool.capacity, old(pool.View()), Op.ForceRemove(nodeId))
      ensures removed == (nodeId in old(pool.entries))
    {
      removed := pool.ForceRemove(nodeId);
    }

    method Shutdown()
      requires pool.Valid()
      modifies pool
      ensures pool.Valid() && pool.View() == Step(pool.capacity, old(pool.View()), Op.Clear)
    {
      pool.Clear();
    }
  }
}
