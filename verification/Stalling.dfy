/**
 What overflow and duplicates do to a lane of the sequencer
 (backend/src/event-bus/message-sequencer.ts).
 */
module Stalling {
  import opened Common
  import opened MessageSequencers
  import opened Reordering

  // --- streams in order, with gaps ---

  /** Seqnos from 1 up in strictly increasing order, with any gaps. */
  predicate Ascends(es: seq<Event>) {
    Numbered(es) && Increasing(es) && forall e | e in es :: e.seqno.value >= 1
  }

  /** The length of the start 1, 2, ..., n without a gap. */
  function GapFree(es: seq<Event>): (n: nat)
    ensures n <= |es|
    ensures forall i | 0 <= i < n :: es[i].seqno == Some(i + 1)
    ensures n < |es| ==> es[n].seqno != Some(n + 1)
  {
    if es == [] then 0
    else
      var n := GapFree(es[..|es| - 1]);
      if n == |es| - 1 && es[n].seqno == Some(n + 1) then n + 1 else n
  }

  lemma AscendsFront(es: seq<Event>)
    requires Ascends(es) && es != []
    ensures Ascends(es[..|es| - 1])
    ensures forall e | e in es[..|es| - 1] :: e.seqno.value < es[|es| - 1].seqno.value
  {
    var front := es[..|es| - 1];
    assert forall e | e in front :: e in es;
    forall e | e in front ensures e.seqno.value < es[|es| - 1].seqno.value {
      var i :| 0 <= i < |front| && front[i] == e;
      assert es[i] == e;
    }
  }

  lemma AscendsTail(es: seq<Event>, d: nat)
    requires Ascends(es) && d <= |es|
    ensures Ascends(es[d..]) && Distinct(es[d..])
  {
    assert forall e | e in es[d..] :: e in es;
  }

  /** Of an ascending stream, dropping the first event drops the lowest seqno. */
  lemma {:induction false} ArrivedTail(es: seq<Event>)
    requires Ascends(es) && es != []
    ensures Ascends(es[1..])
    ensures var low := es[0].seqno.value;
            && low in Arrived(es) && Arrived(es)[low] == es[0]
            && (forall k | k in Arrived(es) :: low <= k)
            && Arrived(es) - {low} == Arrived(es[1..])
  {
    hide Ascends, Arrived;
    AscendsTail(es, 1);
    AscendsNumbered(es);
    SeqnoAt(es, 0, |es| - 1);
    ArrivedSnoc(es);
    if |es| == 1 {
      NoneArrived();
      assert es[..0] == [] && es[1..] == [];
      assert map[es[0].seqno.value := es[0]] - {es[0].seqno.value} == map[];
    } else {
      var front, e, rest := es[..|es| - 1], es[|es| - 1], es[1..];
      AscendsFront(es);
      ArrivedTail(front);
      assert rest[..|rest| - 1] == front[1..] && rest[|rest| - 1] == e && front[0] == es[0];
      AscendsNumbered(rest);
      ArrivedSnoc(rest);
      WithoutLowest(Arrived(front), es[0].seqno.value, e);
    }
  }

  lemma ArrivedSnoc(es: seq<Event>)
    requires Numbered(es) && es != []
    ensures Numbered(es[..|es| - 1])
    ensures Arrived(es) == Arrived(es[..|es| - 1])[es[|es| - 1].seqno.value := es[|es| - 1]]
  {
  }

  lemma WithoutLowest(m: map<int, Event>, low: int, e: Event)
    requires e.seqno.Some? && e.seqno.value > low
    ensures m[e.seqno.value := e] - {low} == (m - {low})[e.seqno.value := e]
  {
  }

  /** How many events a stalled lane has dropped by now. */
  function Overflowed(limit: nat, es: seq<Event>): nat {
    var beyond := |es| - GapFree(es);
    if beyond > limit then beyond - limit else 0
  }

  /** The first missing seqno, or the one after the last dropped event. */
  function Awaited(limit: nat, es: seq<Event>): int
    requires Numbered(es)
  {
    var n, d := GapFree(es), Overflowed(limit, es);
    if d == 0 then n + 1 else es[n + d - 1].seqno.value + 1
  }

  /**
   The gap-free start was delivered; of what came after it the latest `limit` events are held and
   those before were dropped; the one after the last dropped, or the first missing, is expected.
   */
  ghost predicate StoppedAtGap(limit: nat, es: seq<Event>, r: Run)
    requires Numbered(es)
  {
    var n, d := GapFree(es), Overflowed(limit, es);
    && r.delivered == es[..n] && r.dropped == es[n..n + d] && r.lane.held == Arrived(es[n + d..])
    && r.lane.expected == Awaited(limit, es)
  }

  lemma ArrivedBelow(es: seq<Event>, s: int)
    requires Numbered(es) && forall e | e in es :: e.seqno.value < s
    ensures s !in Arrived(es)
  {
    ArrivedKeys(es);
  }

  lemma GapFreeSnoc(es: seq<Event>, e: Event)
    ensures GapFree(es + [e]) == if GapFree(es) == |es| && e.seqno == Some(|es| + 1) then |es| + 1 else GapFree(es)
  {
    assert (es + [e])[..|es|] == es;
  }

  lemma AcceptInOrder(lane: Lane, limit: nat, e: Event)
    requires e.seqno == Some(lane.expected) && lane.held == map[]
    ensures AcceptOnLane(lane, limit, e) == (Lane(lane.expected + 1, map[]), ReorderResult([e], 0, false, []))
  {
    var s := lane.expected + 1;
    NextGapIs(map[], s, s);
    assert Outside(map[], s, s) == map[];
    assert [e] + HeldRun(map[], s, s) == [e];
  }

  lemma NoneArrived()
    ensures Arrived([]) == map[]
  {
  }

  lemma InOrderStep(limit: nat, es: seq<Event>, e: Event, r: Run)
    requires Numbered(es + [e]) && Numbered(es) && StoppedAtGap(limit, es, r)
    requires GapFree(es) == |es| && e.seqno == Some(|es| + 1)
    ensures var (lane, out) := AcceptOnLane(r.lane, limit, e);
            StoppedAtGap(limit, es + [e], Run(lane, r.delivered + out.ready, r.dropped + out.dropped))
  {
    hide AcceptOnLane, GapFree, Arrived, Numbered;
    var all := es + [e];
    GapFreeSnoc(es, e);
    NoneArrived();
    assert es[|es|..] == [] && all[|all|..] == [] && es[|es|..|es|] == [] && all[|all|..|all|] == [];
    assert es[..|es|] == es && all[..|all|] == all;
    AcceptInOrder(r.lane, limit, e);
  }

  lemma SeqnoAt(es: seq<Event>, i: nat, j: nat)
    requires Ascends(es) && i <= j < |es|
    ensures es[i].seqno.Some? && es[j].seqno.Some? && 1 <= es[i].seqno.value
    ensures i < j ==> es[i].seqno.value < es[j].seqno.value
  {
    assert es[i] in es && es[j] in es;
  }

  lemma AheadOfAwaited(limit: nat, es: seq<Event>, e: Event)
    requires Ascends(es + [e]) && Numbered(es) && limit >= 1
    requires GapFree(es) < |es| || e.seqno != Some(|es| + 1)
    ensures e.seqno.Some? && e.seqno.value > Awaited(limit, es)
  {
    hide GapFree, Ascends, Increasing, Numbered;
    var all, at := es + [e], GapFree(es) + Overflowed(limit, es);
    SeqnoAt(all, |es|, |es|);
    if at > 0 {
      SeqnoAt(all, at - 1, at);
      assert all[at - 1] == es[at - 1];
    }
    SeqnoAt(all, at, |es|);
    assert GapFree(es) < |es| ==> at < |es| && all[at] == es[at];
  }

  lemma BeyondGapStep(limit: nat, es: seq<Event>, e: Event, r: Run)
    requires limit >= 1 && Ascends(es + [e]) && Ascends(es) && StoppedAtGap(limit, es, r)
    requires GapFree(es) < |es| || e.seqno != Some(|es| + 1)
    ensures var (lane, out) := AcceptOnLane(r.lane, limit, e);
            StoppedAtGap(limit, es + [e], Run(lane, r.delivered + out.ready, r.dropped + out.dropped))
  {
    hide AcceptOnLane, GapFree, Arrived, Ascends, Increasing, Numbered, StoppedAtGap, Awaited;
    AscendsNumbered(es);
    AscendsNumbered(es + [e]);
    var at := GapFree(es) + Overflowed(limit, es);
    AscendsTail(es, at);
    AscendsTail(es + [e], at);
    SameStart(es, e, GapFree(es), at);
    LateEvents(es[at..], e);
    ArrivedTail(es[at..] + [e]);
    AheadOfAwaited(limit, es, e);
    GapFreeSnoc(es, e);
    AscendsTail(es[at..] + [e], 1);
    AscendsNumbered((es[at..] + [e])[1..]);
    if |es[at..]| < limit {
      HeldStep(limit, es, e, r, at);
    } else {
      DroppedStep(limit, es, e, r, at);
    }
  }

  lemma HeldStep(limit: nat, es: seq<Event>, e: Event, r: Run, at: nat)
    requires Numbered(es) && Numbered(es + [e]) && e.seqno.Some? && StoppedAtGap(limit, es, r)
    requires at == GapFree(es) + Overflowed(limit, es) && |es[at..]| < limit && GapFree(es + [e]) == GapFree(es)
    requires e.seqno.value > Awaited(limit, es)
    requires Numbered(es[at..]) && Numbered(es[at..] + [e]) && e.seqno.value !in Arrived(es[at..])
    requires |Arrived(es[at..])| == |es[at..]| && Arrived(es[at..] + [e]) == Arrived(es[at..])[e.seqno.value := e]
    ensures var (lane, out) := AcceptOnLane(r.lane, limit, e);
            StoppedAtGap(limit, es + [e], Run(lane, r.delivered + out.ready, r.dropped + out.dropped))
  {
    hide AcceptOnLane, GapFree, Arrived, Numbered;
    SameStart(es, e, GapFree(es), at);
    AcceptWithRoom(r.lane, limit, e);
    assert r.delivered + [] == r.delivered && r.dropped + [] == r.dropped;
  }

  lemma DroppedStep(limit: nat, es: seq<Event>, e: Event, r: Run, at: nat)
    requires Numbered(es) && Numbered(es + [e]) && e.seqno.Some? && StoppedAtGap(limit, es, r)
    requires at == GapFree(es) + Overflowed(limit, es) && |es[at..]| >= limit && GapFree(es + [e]) == GapFree(es)
    requires e.seqno.value > Awaited(limit, es)
    requires var late, more := es[at..], es[at..] + [e];
             && Numbered(late) && Numbered(more) && Numbered(more[1..]) && more[0].seqno.Some?
             && |Arrived(late)| == |late| && e.seqno.value !in Arrived(late)
             && Arrived(more) == Arrived(late)[e.seqno.value := e]
             && var low := more[0].seqno.value;
                && low in Arrived(more) && Arrived(more)[low] == more[0] && (forall k | k in Arrived(more) :: low <= k)
                && Arrived(more) - {low} == Arrived(more[1..])
    ensures var (lane, out) := AcceptOnLane(r.lane, limit, e);
            StoppedAtGap(limit, es + [e], Run(lane, r.delivered + out.ready, r.dropped + out.dropped))
  {
    hide AcceptOnLane, GapFree, Arrived, Numbered, StoppedAtGap, Awaited;
    var n, all, more := GapFree(es), es + [e], es[at..] + [e];
    SameStart(es, e, n, at);
    StopIs(limit, es, r);
    AcceptWhenFull(r.lane, limit, e, more[0].seqno.value);
    assert r.delivered + [] == all[..n];
    assert all[at] == more[0];
    StopsAfterDropping(limit, all, at);
  }

  lemma StopIs(limit: nat, es: seq<Event>, r: Run)
    requires Numbered(es) && StoppedAtGap(limit, es, r)
    ensures var n, at := GapFree(es), GapFree(es) + Overflowed(limit, es);
            && r.delivered == es[..n] && r.dropped == es[n..at] && r.lane == Lane(Awaited(limit, es), Arrived(es[at..]))
  {
    hide GapFree, Arrived;
  }

  lemma StopsAfterDropping(limit: nat, es: seq<Event>, at: nat)
    requires Numbered(es) && GapFree(es) <= at < |es| && at + 1 == GapFree(es) + Overflowed(limit, es)
    requires es[at].seqno.Some? && Numbered(es[at + 1..])
    ensures StoppedAtGap(limit, es, Run(Lane(es[at].seqno.value + 1, Arrived(es[at + 1..])), es[..GapFree(es)],
                                        es[GapFree(es)..at + 1]))
  {
    hide GapFree, Arrived, Numbered, Overflowed;
    assert GapFree(es) + Overflowed(limit, es) - 1 == at;
  }

  lemma SameStart(es: seq<Event>, e: Event, n: nat, at: nat)
    requires n <= at <= |es|
    ensures var all := es + [e];
            && es[..n] == all[..n] && es[n..at] == all[n..at]
            && all[at..][1..] == all[at + 1..] && all[n..at] + [all[at..][0]] == all[n..at + 1]
            && (at > 0 ==> all[at - 1] == es[at - 1])
            && all[at..] == es[at..] + [e]
  {
  }

  lemma AscendsNumbered(es: seq<Event>)
    requires Ascends(es)
    ensures Numbered(es)
  {
  }

  /** Late events and one more: it is new, and the first of them is the lowest. */
  lemma LateEvents(late: seq<Event>, e: Event)
    requires Ascends(late + [e]) && Ascends(late)
    ensures var more := late + [e];
            && Numbered(late) && Numbered(more) && Numbered(more[1..])
            && |Arrived(late)| == |late| && e.seqno.Some? && e.seqno.value !in Arrived(late)
            && Arrived(more) == Arrived(late)[e.seqno.value := e]
  {
    var more := late + [e];
    assert more[..|late|] == late && more[|late|] == e;
    AscendsFront(more);
    AscendsTail(late, 0);
    AscendsTail(more, 1);
    assert late[0..] == late;
    ArrivedSnoc(more);
    ArrivedSize(late);
    ArrivedBelow(late, e.seqno.value);
  }

  /**
   Dropping on overflow does not unblock a lane. At any limit of at least one, of a stream that
   arrives in order with any events lost nothing is delivered beyond the first loss, however long it
   goes on: the latest events are held, up to the limit, and the others were dropped.
   */
  lemma {:induction false} DeliveryStopsAtTheFirstGap(limit: nat, es: seq<Event>)
    requires limit >= 1 && Ascends(es)
    ensures StoppedAtGap(limit, es, Feed(limit, es))
  {
    hide AcceptOnLane, StoppedAtGap;
    if es == [] {
      StartsInOrder(limit);
    } else {
      var front, e := es[..|es| - 1], es[|es| - 1];
      AscendsFront(es);
      DeliveryStopsAtTheFirstGap(limit, front);
      assert es == front + [e];
      if GapFree(front) == |front| && e.seqno == Some(|front| + 1) {
        InOrderStep(limit, front, e, Feed(limit, front));
      } else {
        BeyondGapStep(limit, front, e, Feed(limit, front));
      }
    }
  }

  lemma StartsInOrder(limit: nat)
    ensures StoppedAtGap(limit, [], Run(FRESH_LANE, [], []))
  {
  }

  /** Everything is delivered if and only if nothing was lost. */
  lemma AllDeliveredIffNothingLost(limit: nat, es: seq<Event>)
    requires limit >= 1 && Ascends(es)
    ensures Feed(limit, es).delivered == es <==> forall i | 0 <= i < |es| :: es[i].seqno == Some(i + 1)
  {
    hide Feed;
    DeliveryStopsAtTheFirstGap(limit, es);
    var n := GapFree(es);
    assert |es[..n]| == n;
    if n == |es| {
      assert es[..n] == es;
    }
  }

  /** One event lost from a stream in perfect order: everything before it comes out, nothing ever after. */
  lemma OneLossStallsTheLane(limit: nat, es: seq<Event>, lost: nat)
    requires limit >= 1 && lost >= 1
    requires forall i | 0 <= i < |es| :: es[i].seqno == Some(if i + 1 < lost then i + 1 else i + 2)
    ensures Feed(limit, es).delivered == if |es| < lost then es else es[..lost - 1]
  {
    hide Feed;
    assert Ascends(es);
    DeliveryStopsAtTheFirstGap(limit, es);
    var n := GapFree(es);
    assert lost - 1 < |es| ==> es[lost - 1].seqno == Some(lost + 1);
    assert n == |es| || n == lost - 1;
    assert es[..|es|] == es;
  }

  /** The events that continue the one before them, or are the first. */
  function Continuing(es: seq<Event>): seq<Event> {
    if es == [] then []
    else
      var front, e := es[..|es| - 1], es[|es| - 1];
      var before := if front == [] then Some(0) else front[|front| - 1].seqno;
      Continuing(front) + if before.Some? && e.seqno == Some(before.value + 1) then [e] else []
  }

  /** At limit 0 there is no stall: what follows a gap is dropped, and delivery goes on after it. */
  lemma {:induction false} LimitZeroNeverStalls(es: seq<Event>)
    requires Ascends(es)
    ensures var r := Feed(0, es);
            && r.lane == Lane(if es == [] then 1 else es[|es| - 1].seqno.value + 1, map[])
            && r.delivered == Continuing(es)
  {
    hide AcceptOnLane, Ascends, Numbered;
    AscendsNumbered(es);
    if es != [] {
      var front, e := es[..|es| - 1], es[|es| - 1];
      AscendsFront(es);
      AscendsNumbered(front);
      LimitZeroNeverStalls(front);
      SeqnoAt(es, |es| - 1, |es| - 1);
      if front != [] {
        SeqnoAt(es, |es| - 2, |es| - 1);
        assert front[|front| - 1] == es[|es| - 2];
      }
      LimitZeroStep(Feed(0, front).lane, e);
    }
  }

  lemma LimitZeroStep(lane: Lane, e: Event)
    requires lane.held == map[] && e.seqno.Some? && e.seqno.value >= lane.expected
    ensures var (lane', out) := AcceptOnLane(lane, 0, e);
            && lane' == Lane(e.seqno.value + 1, map[])
            && out.ready == if e.seqno.value == lane.expected then [e] else []
  {
    var s := e.seqno.value;
    if s == lane.expected {
      NextGapIs(map[], s + 1, s + 1);
      assert Outside(map[], s + 1, s + 1) == map[];
      assert [e] + [] == [e];
    } else {
      var full := lane.held[s := e];
      assert full.Keys == {s};
      AcceptWhenFull(lane, 0, e, s);
      assert full - {s} == map[];
    }
  }

  // --- duplicates ---

  /**
   What releases a stalled lane. After any in-order stream with a loss, an arrival gets something
   delivered if and only if it carries the awaited seqno. If that event has arrived already, it is
   held and only a second copy releases it; the first copy then stays in the buffer, passed over.
   */
  lemma StalledLaneReleasedIff(limit: nat, es: seq<Event>, e: Event)
    requires limit >= 1 && Ascends(es) && GapFree(es) < |es| && e.seqno.Some?
    ensures var lane, awaited := Feed(limit, es).lane, Awaited(limit, es);
            var (lane', out) := AcceptOnLane(lane, limit, e);
            && (out.ready != [] <==> e.seqno.value == awaited)
            && (awaited in lane.held <==> exists x | x in es :: x.seqno.value == awaited)
            && (out.ready != [] && awaited in lane.held ==> awaited < lane'.expected && awaited in lane'.held)
  {
    DeliveryStopsAtTheFirstGap(limit, es);
    AcceptReady(Feed(limit, es).lane, limit, e);
    hide Feed, AcceptOnLane, Arrived, GapFree, Ascends;
    AscendsNumbered(es);
    var at, awaited := GapFree(es) + Overflowed(limit, es), Awaited(limit, es);
    AscendsTail(es, at);
    AscendsNumbered(es[at..]);
    ArrivedKeys(es[at..]);
    forall x | x in es && x.seqno.value == awaited ensures x in es[at..] {
      var i :| 0 <= i < |es| && es[i] == x;
      if i < at {
        BeforeAwaited(limit, es, i);
      }
      assert es[at..][i - at] == x;
    }
    assert forall x | x in es[at..] :: x in es;
  }

  lemma AcceptReady(lane: Lane, limit: nat, e: Event)
    requires e.seqno.Some?
    ensures var (lane', out) := AcceptOnLane(lane, limit, e);
            && (out.ready != [] <==> e.seqno.value == lane.expected)
            && (out.ready != [] ==> lane.expected < lane'.expected)
            && (out.ready != [] ==> (lane.expected in lane.held ==> lane.expected in lane'.held))
  {
  }

  /** What was delivered or dropped lies below the awaited seqno. */
  lemma BeforeAwaited(limit: nat, es: seq<Event>, i: nat)
    requires Ascends(es) && Numbered(es) && i < GapFree(es) + Overflowed(limit, es)
    ensures i < |es| && es[i].seqno.Some? && es[i].seqno.value < Awaited(limit, es)
  {
    hide GapFree, Ascends;
    if Overflowed(limit, es) > 0 {
      SeqnoAt(es, i, GapFree(es) + Overflowed(limit, es) - 1);
    }
  }

  /**
   An arrival moves the expected seqno back if and only if it is a new one beyond it, the buffer is
   full, and an event is held that was passed over already: one whose successor is below the
   expected seqno.
   */
  lemma ExpectedGoesBackIff(lane: Lane, limit: nat, e: Event)
    requires e.seqno.Some? && |lane.held| <= limit
    ensures AcceptOnLane(lane, limit, e).0.expected < lane.expected
            <==> && e.seqno.value > lane.expected && e.seqno.value !in lane.held && |lane.held| == limit
                 && exists k | k in lane.held :: k + 1 < lane.expected
  {
    var s := e.seqno.value;
    var full := lane.held[s := e];
    if s > lane.expected {
      assert full.Keys == lane.held.Keys + {s};
      if s in lane.held {
        assert full.Keys == lane.held.Keys && |full.Keys| == |full| && |lane.held.Keys| == |lane.held|;
      } else if |lane.held| < limit {
        AcceptWithRoom(lane, limit, e);
      } else {
        var low := Lowest(full.Keys);
        AcceptWhenFull(lane, limit, e, low);
        assert low != s ==> low in lane.held;
      }
    }
  }

  function At(s: int): Event {
    Event("f", 0, Some(s), "", None)
  }

  const STUCK := Lane(3, map[3 := At(3), 4 := At(4)])

  lemma StuckIsReachable()
    ensures Feed(2, [At(2), At(3), At(4)]).lane == STUCK
  {
    hide AcceptOnLane, Feed, Ascends, GapFree, Arrived;
    var es := [At(2), At(3), At(4)];
    StuckAscends();
    assert es[0] == At(2) && es[1..] == [At(3), At(4)];
    DeliveryStopsAtTheFirstGap(2, es);
    assert GapFree(es) == 0;
    StuckHolds();
  }

  lemma StuckAscends()
    ensures Ascends([At(2), At(3), At(4)])
  {
  }

  lemma StuckHolds()
    ensures Numbered([At(3), At(4)]) && Arrived([At(3), At(4)]) == STUCK.held
  {
    hide Arrived;
    var es := [At(3), At(4)];
    assert Numbered(es);
    assert es[..1] == [At(3)] && [At(3)][..0] == [];
    NoneArrived();
    ArrivedSnoc([At(3)]);
    ArrivedSnoc(es);
  }

  /**
   Such a lane can be reached, so distinctness cannot be dropped from `EveryArrivalInOnePlace`. Once
   2 was dropped from a buffer of two, 3 is expected although it is held; a second arrival of 3
   delivers 3 and 4, and the next overflow moves the expected seqno back to 4, already delivered.
   */
  lemma DuplicateMovesExpectedBack()
    ensures Feed(2, [At(2), At(3), At(4)]).lane == STUCK
    ensures var (l1, o1) := AcceptOnLane(STUCK, 2, At(3));
            var l2 := AcceptOnLane(l1, 2, At(6)).0;
            var l3 := AcceptOnLane(l2, 2, At(7)).0;
            o1.ready == [At(3), At(4)] && l1.expected == 5 && l3.expected == 4
  {
    hide AcceptOnLane, Feed;
    StuckIsReachable();
    StuckReleased();
    AcceptWithRoom(Lane(5, map[3 := At(3)]), 2, At(6));
    var held := map[3 := At(3)][6 := At(6)];
    assert held.Keys == {3, 6};
    AcceptWhenFull(Lane(5, held), 2, At(7), 3);
  }

  lemma StuckReleased()
    ensures AcceptOnLane(STUCK, 2, At(3)) ==
              (Lane(5, map[3 := At(3)]), ReorderResult([At(3), At(4)], 1, false, []))
  {
    NextGapIs(STUCK.held, 4, 5);
    var left := Outside(STUCK.held, 4, 5);
    assert left == map[3 := At(3)] && |left| == 1;
    assert HeldRun(STUCK.held, 4, 4) == [] && HeldRun(STUCK.held, 4, 5) == [At(4)];
    assert [At(3)] + [At(4)] == [At(3), At(4)];
  }
}
