/**
 What whole runs of arrivals on one lane of the sequencer do
 (backend/src/event-bus/message-sequencer.ts).
 */
module Reordering {
  import opened Common
  import opened MessageSequencers

  /** A lane after some arrivals, with everything it has delivered and dropped on the way. */
  datatype Run = Run(lane: Lane, delivered: seq<Event>, dropped: seq<Event>)

  predicate Numbered(es: seq<Event>) {
    forall e | e in es :: e.seqno.Some?
  }

  ghost function Feed(limit: nat, es: seq<Event>): Run
    requires Numbered(es)
  {
    if es == [] then Run(FRESH_LANE, [], [])
    else
      var before := Feed(limit, es[..|es| - 1]);
      var (lane, out) := AcceptOnLane(before.lane, limit, es[|es| - 1]);
      Run(lane, before.delivered + out.ready, before.dropped + out.dropped)
  }

  predicate Distinct(es: seq<Event>) {
    && Numbered(es)
    && forall i, j | 0 <= i < j < |es| :: es[i].seqno != es[j].seqno
  }

  predicate Increasing(es: seq<Event>)
    requires Numbered(es)
  {
    forall i, j | 0 <= i < j < |es| :: es[i].seqno.value < es[j].seqno.value
  }

  predicate Holds(lane: Lane, e: Event) {
    e.seqno.Some? && e.seqno.value in lane.held && lane.held[e.seqno.value] == e
  }

  // --- any stream of distinct seqnos ---

  ghost predicate HeldSound(limit: nat, es: seq<Event>, lane: Lane) {
    && |lane.held| <= limit
    && (forall k | k in lane.held :: lane.expected <= k && lane.held[k].seqno == Some(k) && lane.held[k] in es)
  }

  ghost predicate DeliveredSound(es: seq<Event>, expected: int, delivered: seq<Event>) {
    && (forall e | e in delivered :: e in es && e.seqno.Some? && e.seqno.value < expected)
    && Increasing(delivered)
  }

  ghost predicate OnePlace(r: Run, e: Event) {
    && (e in r.delivered || e in r.dropped || Holds(r.lane, e))
    && !(e in r.delivered && e in r.dropped)
    && !(e in r.delivered && Holds(r.lane, e))
    && !(e in r.dropped && Holds(r.lane, e))
  }

  /** Every arrived event is in exactly one place, and the places are in order. */
  ghost predicate Sound(limit: nat, es: seq<Event>, r: Run) {
    && HeldSound(limit, es, r.lane)
    && DeliveredSound(es, r.lane.expected, r.delivered)
    && (forall e | e in r.dropped :: e in es)
    && (forall e | e in es :: OnePlace(r, e))
    && |es| == |r.delivered| + |r.dropped| + |r.lane.held|
  }

  lemma {:induction false} OutsideSize(held: map<int, Event>, lo: int, hi: int)
    requires lo <= hi && forall k | lo <= k < hi :: k in held
    ensures |Outside(held, lo, hi)| == |held| - (hi - lo)
    decreases hi - lo
  {
    if lo == hi {
      assert Outside(held, lo, hi) == held;
    } else {
      OutsideSize(held, lo, hi - 1);
      DrainStep(held, lo, hi - 1);
      var m := Outside(held, lo, hi - 1);
      assert (m - {hi - 1}).Keys == m.Keys - {hi - 1};
    }
  }

  /** With at most one event too many, shedding drops exactly the lowest. */
  lemma ShedOne(lane: Lane, limit: nat)
    requires |lane.held| == limit + 1
    ensures var low := Lowest(lane.held.Keys);
            Shed(lane, limit) == (Lane(low + 1, lane.held - {low}), [lane.held[low]])
  {
    var low := Lowest(lane.held.Keys);
    assert (lane.held - {low}).Keys == lane.held.Keys - {low};
    assert Shed(Lane(low + 1, lane.held - {low}), limit) == (Lane(low + 1, lane.held - {low}), []);
    assert [lane.held[low]] + [] == [lane.held[low]];
  }

  lemma FreshSeqno(es: seq<Event>, e: Event)
    requires Distinct(es + [e])
    ensures forall x | x in es :: x.seqno != e.seqno
    ensures e in es + [e] && forall x | x in es + [e] :: x in es || x == e
  {
    var all := es + [e];
    forall x | x in es ensures x.seqno != e.seqno {
      var i :| 0 <= i < |es| && es[i] == x;
      assert all[i].seqno != all[|es|].seqno;
    }
  }

  /** What one arrival moves: the lane before, the lane after and what came out. */
  ghost predicate Moves(lane: Lane, e: Event, lane': Lane, out: seq<Event>) {
    && Numbered(out)
    && lane.expected <= lane'.expected
    && |out| + |lane'.held| == |lane.held| + 1
    && (forall k | k in lane'.held :: lane'.expected <= k && lane'.held[k].seqno == Some(k))
    && (forall x | x in out :: (x == e || Holds(lane, x)) && !Holds(lane', x))
    && (forall x | Holds(lane', x) :: x == e || Holds(lane, x))
    && (forall x | x == e || Holds(lane, x) :: x in out || Holds(lane', x))
  }

  ghost predicate CanArrive(lane: Lane, e: Event) {
    && e.seqno.Some? && e.seqno.value !in lane.held
    && forall k | k in lane.held :: lane.expected <= k && lane.held[k].seqno == Some(k)
  }

  lemma DeliverMoves(lane: Lane, limit: nat, e: Event)
    requires CanArrive(lane, e) && e.seqno.value == lane.expected
    ensures var (lane', out) := AcceptOnLane(lane, limit, e);
            && Moves(lane, e, lane', out.ready) && out.dropped == []
            && Increasing(out.ready)
            && (forall x | x in out.ready :: lane.expected <= x.seqno.value < lane'.expected)
  {
    hide *;
    IsNumbered(lane, e);
    AcceptExpected(lane, limit, e);
    RunIsMoved(lane, e);
  }

  lemma RunIsMoved(lane: Lane, e: Event)
    requires CanArrive(lane, e) && e.seqno == Some(lane.expected)
    ensures var gap := NextGap(lane.held, lane.expected + 1);
            var ready := [e] + HeldRun(lane.held, lane.expected + 1, gap);
            && Moves(lane, e, Lane(gap, Outside(lane.held, lane.expected + 1, gap)), ready) && Increasing(ready)
            && (forall x | x in ready :: lane.expected <= x.seqno.value < gap)
  {
    hide NextGap, Moves, Increasing, Outside, HeldRun, CanArrive;
    var held, s := lane.held, lane.expected;
    var gap := NextGap(held, s + 1);
    var run := HeldRun(held, s + 1, gap);
    var ready := [e] + run;
    OutsideSize(held, s + 1, gap);
    OutsideIs(held, s + 1, gap);
    forall i | 0 < i < |ready| ensures ready[i] == held[s + i] {
      assert ready[i] == run[i - 1];
    }
    RunMoves(lane, e, gap, Outside(held, s + 1, gap), ready);
  }

  lemma IsNumbered(lane: Lane, e: Event)
    requires CanArrive(lane, e)
    ensures e.seqno.Some?
  {
  }

  lemma OutsideIs(held: map<int, Event>, lo: int, hi: int)
    ensures var left := Outside(held, lo, hi);
            (forall k :: k in left <==> k in held && !(lo <= k < hi)) && forall k | k in left :: left[k] == held[k]
  {
  }

  /** Taking out a run without a gap, behind the arrived event. */
  lemma RunMoves(lane: Lane, e: Event, gap: int, left: map<int, Event>, ready: seq<Event>)
    requires CanArrive(lane, e) && e.seqno.value == lane.expected < gap
    requires forall k :: k in left <==> k in lane.held && !(lane.expected < k < gap)
    requires (forall k | k in left :: left[k] == lane.held[k]) && |left| == |lane.held| - (gap - lane.expected - 1)
    requires gap !in lane.held && forall k | lane.expected < k < gap :: k in lane.held
    requires |ready| == gap - lane.expected && ready[0] == e
    requires forall i | 0 < i < |ready| :: ready[i] == lane.held[lane.expected + i]
    ensures Moves(lane, e, Lane(gap, left), ready) && Increasing(ready)
    ensures forall x | x in ready :: lane.expected <= x.seqno.value < gap
  {
    var s, lane' := lane.expected, Lane(gap, left);
    forall i | 0 <= i < |ready| ensures ready[i].seqno == Some(s + i) {
      assert i > 0 ==> s + i in lane.held;
    }
    forall x | x == e || Holds(lane, x) ensures x in ready || Holds(lane', x) {
      if x == e {
        assert ready[0] == x;
      } else if x.seqno.value < gap {
        assert ready[x.seqno.value - s] == x;
      }
    }
  }

  lemma HoldMoves(lane: Lane, limit: nat, e: Event)
    requires CanArrive(lane, e) && e.seqno.value > lane.expected && |lane.held| <= limit
    ensures var (lane', out) := AcceptOnLane(lane, limit, e);
            && Moves(lane, e, lane', out.dropped) && out.ready == [] && |lane'.held| <= limit
            && (out.dropped != [] <==> |lane.held| == limit)
  {
    hide Moves, Shed;
    var s := e.seqno.value;
    var full := lane.(held := lane.held[s := e]);
    HoldKept(lane, e);
    if |lane.held| == limit {
      ShedOne(full, limit);
      HoldThenDrop(lane, e, Lowest(full.held.Keys));
    }
  }

  lemma HoldKept(lane: Lane, e: Event)
    requires CanArrive(lane, e) && e.seqno.value > lane.expected
    ensures var held := lane.held[e.seqno.value := e];
            |held| == |lane.held| + 1 && Moves(lane, e, lane.(held := held), [])
  {
    var held := lane.held[e.seqno.value := e];
    assert held.Keys == lane.held.Keys + {e.seqno.value};
  }

  lemma HoldThenDrop(lane: Lane, e: Event, low: int)
    requires CanArrive(lane, e) && e.seqno.value > lane.expected
    requires var held := lane.held[e.seqno.value := e]; low in held && forall k | k in held :: low <= k
    ensures var held := lane.held[e.seqno.value := e];
            && |held - {low}| == |lane.held|
            && Moves(lane, e, Lane(low + 1, held - {low}), [held[low]])
  {
    hide CanArrive;
    HoldKept(lane, e);
    LowestIsAhead(lane, e, low);
    DropOne(lane, e, lane.(held := lane.held[e.seqno.value := e]), low);
  }

  lemma LowestIsAhead(lane: Lane, e: Event, low: int)
    requires CanArrive(lane, e) && e.seqno.value > lane.expected && low in lane.held[e.seqno.value := e]
    ensures lane.expected <= low
  {
  }

  /** Dropping the lowest held event moves it out. */
  lemma DropOne(lane: Lane, e: Event, mid: Lane, low: int)
    requires Moves(lane, e, mid, []) && low in mid.held && lane.expected <= low && forall k | k in mid.held :: low <= k
    ensures |mid.held - {low}| == |mid.held| - 1 && Moves(lane, e, Lane(low + 1, mid.held - {low}), [mid.held[low]])
  {
    var left := mid.held - {low};
    assert left.Keys == mid.held.Keys - {low};
    assert Holds(mid, mid.held[low]);
  }

  lemma ArrivalCanArrive(limit: nat, es: seq<Event>, e: Event, r: Run)
    requires Distinct(es + [e]) && Sound(limit, es, r)
    ensures CanArrive(r.lane, e) && !Holds(r.lane, e) && e !in r.delivered && e !in r.dropped
  {
    FreshSeqno(es, e);
    assert HeldSound(limit, es, r.lane);
    var k := e.seqno.value;
    assert k !in r.lane.held;
  }

  /** Moving events between the places keeps each in exactly one. */
  lemma MovesKeepPlaces(limit: nat, es: seq<Event>, e: Event, r: Run, r': Run, out: seq<Event>)
    requires Distinct(es + [e]) && Sound(limit, es, r)
    requires Moves(r.lane, e, r'.lane, out)
    requires (r'.delivered == r.delivered + out && r'.dropped == r.dropped)
          || (r'.delivered == r.delivered && r'.dropped == r.dropped + out)
    ensures forall x | x in es + [e] :: OnePlace(r', x)
    ensures forall x | x in r'.delivered || x in r'.dropped || Holds(r'.lane, x) :: x in es + [e]
  {
    FreshSeqno(es, e);
    ArrivalCanArrive(limit, es, e, r);
    forall x | x in es + [e] ensures OnePlace(r', x) {
      if x in es {
        assert OnePlace(r, x);
      }
    }
    forall x | x in r'.delivered || x in r'.dropped || Holds(r'.lane, x) ensures x in es + [e] {
      if Holds(r.lane, x) {
        assert HeldSound(limit, es, r.lane);
        var k := x.seqno.value;
        assert k in r.lane.held && r.lane.held[k] in es;
      }
    }
  }

  lemma SoundDeliver(limit: nat, es: seq<Event>, e: Event, r: Run)
    requires Distinct(es + [e]) && Sound(limit, es, r) && e.seqno == Some(r.lane.expected)
    ensures var (lane, out) := AcceptOnLane(r.lane, limit, e);
            Sound(limit, es + [e], Run(lane, r.delivered + out.ready, r.dropped + out.dropped))
  {
    ArrivalCanArrive(limit, es, e, r);
    DeliverMoves(r.lane, limit, e);
    var (lane, out) := AcceptOnLane(r.lane, limit, e);
    var r' := Run(lane, r.delivered + out.ready, r.dropped + out.dropped);
    assert r'.dropped == r.dropped;
    MovesKeepPlaces(limit, es, e, r, r', out.ready);
    forall k | k in lane.held ensures lane.held[k] in es + [e] {
      assert Holds(lane, lane.held[k]);
    }
    assert e in out.ready;
  }

  lemma SoundHold(limit: nat, es: seq<Event>, e: Event, r: Run)
    requires Distinct(es + [e]) && Sound(limit, es, r) && e.seqno.value > r.lane.expected
    ensures var (lane, out) := AcceptOnLane(r.lane, limit, e);
            && Sound(limit, es + [e], Run(lane, r.delivered + out.ready, r.dropped + out.dropped))
            && lane.expected >= r.lane.expected
  {
    ArrivalCanArrive(limit, es, e, r);
    HoldMoves(r.lane, limit, e);
    var (lane, out) := AcceptOnLane(r.lane, limit, e);
    var r' := Run(lane, r.delivered + out.ready, r.dropped + out.dropped);
    assert r'.delivered == r.delivered;
    MovesKeepPlaces(limit, es, e, r, r', out.dropped);
    forall k | k in lane.held ensures lane.held[k] in es + [e] {
      assert Holds(lane, lane.held[k]);
    }
  }

  lemma SoundLate(limit: nat, es: seq<Event>, e: Event, r: Run)
    requires Distinct(es + [e]) && Sound(limit, es, r) && e.seqno.value < r.lane.expected
    ensures Sound(limit, es + [e], r.(dropped := r.dropped + [e]))
  {
    FreshSeqno(es, e);
  }

  /**
   For any stream of distinct seqnos, with any gaps, any arrival order and any limit: each arrived
   event is in exactly one of delivered, dropped and held; the delivered seqnos strictly increase;
   the buffer is within its limit; and held seqnos are never below the expected one.
   */
  lemma {:induction false} EveryArrivalInOnePlace(limit: nat, es: seq<Event>)
    requires Distinct(es)
    ensures Sound(limit, es, Feed(limit, es))
  {
    if es != [] {
      var front, e := es[..|es| - 1], es[|es| - 1];
      assert es == front + [e];
      EveryArrivalInOnePlace(limit, front);
      var r := Feed(limit, front);
      assert r.delivered + [] == r.delivered;
      if e.seqno.value < r.lane.expected {
        SoundLate(limit, front, e, r);
      } else if e.seqno.value == r.lane.expected {
        SoundDeliver(limit, front, e, r);
      } else {
        SoundHold(limit, front, e, r);
      }
    }
  }

  /** The expected seqno never goes back, over any further arrivals. */
  lemma {:induction false} ExpectedNeverDecreases(limit: nat, es: seq<Event>, n: nat)
    requires Distinct(es) && n <= |es|
    ensures Feed(limit, es[..n]).lane.expected <= Feed(limit, es).lane.expected
    decreases |es|
  {
    if n == |es| {
      assert es[..n] == es;
    } else {
      var front, e := es[..|es| - 1], es[|es| - 1];
      assert es == front + [e] && front[..n] == es[..n];
      ExpectedNeverDecreases(limit, front, n);
      EveryArrivalInOnePlace(limit, front);
      if e.seqno.value > Feed(limit, front).lane.expected {
        SoundHold(limit, front, e, Feed(limit, front));
      }
    }
  }

  // --- when nothing is dropped: the buffer sorts ---

  predicate Positive(es: seq<Event>)
    requires Numbered(es)
  {
    forall e | e in es :: e.seqno.value >= 1
  }

  /** The arrived events by seqno. */
  ghost function Arrived(es: seq<Event>): (m: map<int, Event>)
    requires Numbered(es)
  {
    if es == [] then map[]
    else Arrived(es[..|es| - 1])[es[|es| - 1].seqno.value := es[|es| - 1]]
  }

  lemma {:induction false} ArrivedKeys(es: seq<Event>)
    requires Numbered(es)
    ensures forall k | k in Arrived(es) :: exists e | e in es :: e.seqno.value == k
    ensures forall e | e in es :: e.seqno.value in Arrived(es)
  {
    if es != [] {
      var front := es[..|es| - 1];
      assert es == front + [es[|es| - 1]];
      ArrivedKeys(front);
    }
  }

  /** Of the arrived events, those beyond the first seqno still missing. */
  ghost function Beyond(m: map<int, Event>): map<int, Event> {
    Outside(m, 1, NextGap(m, 1))
  }

  /** The run that delivers every event up to the first missing seqno, in order, and holds the rest. */
  ghost function SortedRun(m: map<int, Event>): Run {
    Run(Lane(NextGap(m, 1), Beyond(m)), HeldRun(m, 1, NextGap(m, 1)), [])
  }

  /** At no time are more than `limit` arrived events beyond the first missing seqno. */
  ghost predicate Fits(limit: nat, es: seq<Event>)
    requires Numbered(es)
  {
    es != [] ==> Fits(limit, es[..|es| - 1]) && |Beyond(Arrived(es))| <= limit
  }

  lemma NextGapIs(m: map<int, Event>, n: int, g: int)
    requires n <= g && g !in m && forall k | n <= k < g :: k in m
    ensures NextGap(m, n) == g
  {
  }

  /** Filling the first gap: the next gap is the end of the run held behind it. */
  lemma GapFilled(m: map<int, Event>, e: Event)
    requires forall k | k in m :: k >= 1
    ensures var s := NextGap(m, 1);
            var gap := NextGap(Beyond(m), s + 1);
            && NextGap(m[s := e], 1) == gap
            && Outside(Beyond(m), s + 1, gap) == Beyond(m[s := e])
            && HeldRun(m, 1, s) + ([e] + HeldRun(Beyond(m), s + 1, gap)) == HeldRun(m[s := e], 1, gap)
  {
    var s := NextGap(m, 1);
    var held, m' := Beyond(m), m[s := e];
    var gap := NextGap(held, s + 1);
    forall k | 1 <= k < gap ensures k in m' {
      assert k < s || k == s || k in held;
    }
    NextGapIs(m', 1, gap);
    assert Outside(held, s + 1, gap) == Outside(m', 1, gap);
  }

  lemma AddedBeyondGap(m: map<int, Event>, s: int, e: Event)
    requires s > NextGap(m, 1) && s !in m
    ensures var gap := NextGap(m, 1);
            && NextGap(m[s := e], 1) == gap
            && Beyond(m[s := e]) == Beyond(m)[s := e] && |Beyond(m[s := e])| == |Beyond(m)| + 1
            && HeldRun(m[s := e], 1, gap) == HeldRun(m, 1, gap)
  {
    NextGapIs(m[s := e], 1, NextGap(m, 1));
    assert s !in Beyond(m);
    assert Beyond(m[s := e]) == Beyond(m)[s := e];
    assert Beyond(m)[s := e].Keys == Beyond(m).Keys + {s};
  }

  lemma AcceptExpected(lane: Lane, limit: nat, e: Event)
    requires e.seqno == Some(lane.expected)
    ensures var gap := NextGap(lane.held, lane.expected + 1);
            var (lane', out) := AcceptOnLane(lane, limit, e);
            && lane' == Lane(gap, Outside(lane.held, lane.expected + 1, gap)) && out.dropped == []
            && out.ready == [e] + HeldRun(lane.held, lane.expected + 1, gap)
  {
  }

  /** One arrival at a lane that is sorted so far. */
  lemma SortedAccept(limit: nat, m: map<int, Event>, e: Event)
    requires forall k | k in m :: k >= 1 && m[k].seqno == Some(k)
    requires e.seqno.Some? && e.seqno.value >= 1 && e.seqno.value !in m
    requires |Beyond(m)| <= limit
    ensures var r := SortedRun(m);
            var (lane, out) := AcceptOnLane(r.lane, limit, e);
            var m' := m[e.seqno.value := e];
            if |Beyond(m')| <= limit
            then Run(lane, r.delivered + out.ready, out.dropped) == SortedRun(m')
            else out.dropped != []
  {
    hide AcceptOnLane, Beyond, HeldRun, Outside, NextGap;
    if e.seqno.value == NextGap(m, 1) {
      SortedAcceptNext(limit, m, e);
    } else {
      SortedAcceptLater(limit, m, e);
    }
  }

  lemma SortedAcceptNext(limit: nat, m: map<int, Event>, e: Event)
    requires forall k | k in m :: k >= 1
    requires e.seqno == Some(NextGap(m, 1)) && |Beyond(m)| <= limit
    ensures var r := SortedRun(m);
            var (lane, out) := AcceptOnLane(r.lane, limit, e);
            var m' := m[e.seqno.value := e];
            |Beyond(m')| <= limit && Run(lane, r.delivered + out.ready, out.dropped) == SortedRun(m')
  {
    hide AcceptOnLane, Beyond, HeldRun, Outside, NextGap;
    var s, r := e.seqno.value, SortedRun(m);
    AcceptExpected(r.lane, limit, e);
    GapFilled(m, e);
    OutsideSize(Beyond(m), s + 1, NextGap(Beyond(m), s + 1));
  }

  lemma SortedAcceptLater(limit: nat, m: map<int, Event>, e: Event)
    requires forall k | k in m :: k >= 1 && m[k].seqno == Some(k)
    requires e.seqno.Some? && e.seqno.value >= 1 && e.seqno.value !in m && e.seqno.value != NextGap(m, 1)
    requires |Beyond(m)| <= limit
    ensures var r := SortedRun(m);
            var (lane, out) := AcceptOnLane(r.lane, limit, e);
            var m' := m[e.seqno.value := e];
            if |Beyond(m')| <= limit
            then Run(lane, r.delivered + out.ready, out.dropped) == SortedRun(m')
            else out.dropped != []
  {
    hide AcceptOnLane, HeldRun, Outside, NextGap, Moves, Beyond;
    var s, r := e.seqno.value, SortedRun(m);
    assert s > NextGap(m, 1);
    BeyondArrives(m, e);
    AddedBeyondGap(m, s, e);
    assert r.delivered + [] == r.delivered;
    if |r.lane.held| < limit {
      AcceptWithRoom(r.lane, limit, e);
    } else {
      HoldMoves(r.lane, limit, e);
    }
  }

  lemma BeyondArrives(m: map<int, Event>, e: Event)
    requires forall k | k in m :: k >= 1 && m[k].seqno == Some(k)
    requires e.seqno.Some? && e.seqno.value !in m
    ensures CanArrive(SortedRun(m).lane, e)
  {
    hide HeldRun;
  }

  lemma SortedStep(limit: nat, es: seq<Event>, e: Event)
    requires Distinct(es) && Positive(es) && Distinct(es + [e]) && e.seqno.value >= 1
    requires Feed(limit, es) == SortedRun(Arrived(es)) && |Beyond(Arrived(es))| <= limit
    requires forall k | k in Arrived(es) :: Arrived(es)[k].seqno == Some(k)
    ensures if |Beyond(Arrived(es + [e]))| <= limit then Feed(limit, es + [e]) == SortedRun(Arrived(es + [e]))
            else Feed(limit, es + [e]).dropped != []
  {
    assert (es + [e])[..|es|] == es;
    FreshSeqno(es, e);
    ArrivedKeys(es);
    var m := Arrived(es);
    SortedAccept(limit, m, e);
    var out := AcceptOnLane(SortedRun(m).lane, limit, e).1;
    assert [] + out.dropped == out.dropped;
  }

  lemma DistinctFront(es: seq<Event>)
    requires Distinct(es) && es != []
    ensures Distinct(es[..|es| - 1])
  {
    assert forall e | e in es[..|es| - 1] :: e in es;
  }

  lemma {:induction false} ArrivedBySeqno(es: seq<Event>)
    requires Numbered(es)
    ensures forall k | k in Arrived(es) :: Arrived(es)[k].seqno == Some(k)
  {
    if es != [] {
      ArrivedBySeqno(es[..|es| - 1]);
    }
  }

  lemma {:induction false} PositiveFits(limit: nat, es: seq<Event>)
    requires Distinct(es) && Positive(es)
    ensures Feed(limit, es).dropped == [] <==> Fits(limit, es)
    ensures Fits(limit, es) ==> Feed(limit, es) == SortedRun(Arrived(es))
  {
    if es == [] {
      NextGapIs(map[], 1, 1);
      assert Beyond(map[]) == map[];
    } else {
      var front, e := es[..|es| - 1], es[|es| - 1];
      assert es == front + [e];
      DistinctFront(es);
      PositiveFits(limit, front);
      if Fits(limit, front) {
        assert |Beyond(Arrived(front))| <= limit by {
          assert Beyond(map[]) == map[];
        }
        ArrivedBySeqno(front);
        SortedStep(limit, front, e);
      } else {
        assert Feed(limit, front).dropped != [];
        assert Feed(limit, front).dropped <= Feed(limit, es).dropped;
      }
    }
  }

  lemma {:induction false} DroppedGrows(limit: nat, es: seq<Event>, n: nat)
    requires Numbered(es) && n <= |es|
    ensures Feed(limit, es[..n]).dropped <= Feed(limit, es).dropped
    decreases |es|
  {
    hide AcceptOnLane;
    if n == |es| {
      assert es[..n] == es;
    } else {
      var front := es[..|es| - 1];
      assert front[..n] == es[..n];
      DroppedGrows(limit, front, n);
    }
  }

  /** What arrives below 1 is too old at once. */
  lemma BelowOneIsDropped(limit: nat, es: seq<Event>, i: nat)
    requires Distinct(es) && i < |es| && es[i].seqno.value < 1
    ensures Feed(limit, es).dropped != []
  {
    var upto := es[..i + 1];
    assert upto[..i] == es[..i] && upto[i] == es[i];
    assert forall e | e in upto :: e in es;
    ExpectedNeverDecreases(limit, upto[..i], 0);
    assert Feed(limit, upto[..i][..0]).lane.expected == 1;
    assert Feed(limit, upto).dropped == Feed(limit, upto[..i]).dropped + [es[i]];
    DroppedGrows(limit, es, i + 1);
  }

  /**
   A stream of distinct seqnos loses nothing exactly when none is below 1 and never more than `limit`
   arrived events lie beyond the first missing one; and then what was delivered is, in order,
   everything below that missing seqno, and everything beyond it is held.
   */
  lemma NothingDroppedIffFits(limit: nat, es: seq<Event>)
    requires Distinct(es)
    ensures Feed(limit, es).dropped == [] <==> Positive(es) && Fits(limit, es)
    ensures Positive(es) && Fits(limit, es) ==> Feed(limit, es) == SortedRun(Arrived(es))
  {
    hide Feed, Fits, SortedRun;
    if Positive(es) {
      PositiveFits(limit, es);
    } else {
      var e :| e in es && e.seqno.value < 1;
      var i :| 0 <= i < |es| && es[i] == e;
      BelowOneIsDropped(limit, es, i);
    }
  }

  // --- permutations ---

  /** The seqnos 1, ..., n, each once, in any order of arrival. */
  predicate Permutation(es: seq<Event>, n: nat) {
    && Distinct(es) && |es| == n
    && forall e | e in es :: 1 <= e.seqno.value <= n
  }

  lemma {:induction false} RangeSize(s: set<int>, lo: int, hi: int)
    requires lo <= hi && forall k | k in s :: lo <= k < hi
    ensures |s| <= hi - lo
    ensures |s| == hi - lo ==> forall k | lo <= k < hi :: k in s
    decreases hi - lo
  {
    if lo == hi {
      SomeMember(s);
    } else {
      var rest := s - {hi - 1};
      RangeSize(rest, lo, hi - 1);
      assert |rest| == |s| - (if hi - 1 in s then 1 else 0);
      if |s| == hi - lo {
        forall k | lo <= k < hi ensures k in s {
          assert k == hi - 1 || k in rest;
        }
      }
    }
  }

  lemma {:induction false} ArrivedSize(es: seq<Event>)
    requires Distinct(es)
    ensures |Arrived(es)| == |es|
  {
    if es != [] {
      var front, e := es[..|es| - 1], es[|es| - 1];
      assert es == front + [e];
      DistinctFront(es);
      ArrivedSize(front);
      FreshSeqno(front, e);
      ArrivedKeys(front);
      var s := e.seqno.value;
      assert s !in Arrived(front);
      assert Arrived(es).Keys == Arrived(front).Keys + {s};
    }
  }

  lemma BeyondIsLate(m: map<int, Event>, k: int)
    requires k in Beyond(m) && forall j | j in m :: j >= 1
    ensures k in m && k >= 2
  {
  }

  lemma {:induction false} SmallPermutationFits(limit: nat, es: seq<Event>, n: nat)
    requires Distinct(es) && n <= limit + 1 && forall e | e in es :: 1 <= e.seqno.value <= n
    ensures Fits(limit, es)
  {
    if es != [] {
      hide Arrived, Beyond, Distinct;
      var front := es[..|es| - 1];
      DistinctFront(es);
      assert es == front + [es[|es| - 1]];
      assert forall e | e in front :: e in es;
      SmallPermutationFits(limit, front, n);
      ArrivedKeys(es);
      var b := Beyond(Arrived(es));
      forall k | k in b.Keys ensures 2 <= k < n + 1 {
        BeyondIsLate(Arrived(es), k);
      }
      assert es[|es| - 1] in es && n >= 1;
      RangeSize(b.Keys, 2, n + 1);
    }
  }

  /**
   For every n up to the limit plus one and every order of arrival of 1, ..., n: the events come out
   sorted, nothing is dropped, the buffer ends empty and n + 1 is expected next.
   */
  lemma AcceptSorts(limit: nat, es: seq<Event>, n: nat)
    requires Permutation(es, n) && n <= limit + 1
    ensures var r := Feed(limit, es);
            && r.lane == Lane(n + 1, map[]) && r.dropped == []
            && |r.delivered| == n
            && forall i | 0 <= i < n :: r.delivered[i].seqno == Some(i + 1) && r.delivered[i] in es
  {
    hide Feed, Arrived, SortedRun, Fits;
    SmallPermutationFits(limit, es, n);
    NothingDroppedIffFits(limit, es);
    AllArrived(es, n);
    SortedWhenComplete(Arrived(es), n);
  }

  lemma AllArrived(es: seq<Event>, n: nat)
    requires Permutation(es, n)
    ensures forall k :: k in Arrived(es) <==> 1 <= k <= n
    ensures forall k | k in Arrived(es) :: Arrived(es)[k].seqno == Some(k) && Arrived(es)[k] in es
  {
    hide Arrived;
    ArrivedKeys(es);
    ArrivedSize(es);
    ArrivedBySeqno(es);
    ArrivedFrom(es);
    RangeSize(Arrived(es).Keys, 1, n + 1);
  }

  lemma {:induction false} ArrivedFrom(es: seq<Event>)
    requires Numbered(es)
    ensures forall k | k in Arrived(es) :: Arrived(es)[k] in es
  {
    if es != [] {
      var front := es[..|es| - 1];
      assert es == front + [es[|es| - 1]];
      ArrivedFrom(front);
    }
  }

  lemma SortedWhenComplete(m: map<int, Event>, n: nat)
    requires forall k :: k in m <==> 1 <= k <= n
    ensures var r := SortedRun(m);
            && r.lane == Lane(n + 1, map[]) && r.dropped == [] && |r.delivered| == n
            && forall i | 0 <= i < n :: r.delivered[i] == m[i + 1]
  {
    NextGapIs(m, 1, n + 1);
    assert Beyond(m) == map[];
  }

  // --- one arrival ahead of the expected one ---

  lemma AcceptWithRoom(lane: Lane, limit: nat, e: Event)
    requires e.seqno.Some? && e.seqno.value > lane.expected && e.seqno.value !in lane.held
    requires |lane.held| < limit
    ensures var full := lane.held[e.seqno.value := e];
            AcceptOnLane(lane, limit, e) == (lane.(held := full), ReorderResult([], |lane.held| + 1, true, []))
  {
    assert lane.held[e.seqno.value := e].Keys == lane.held.Keys + {e.seqno.value};
  }

  lemma AcceptWhenFull(lane: Lane, limit: nat, e: Event, low: int)
    requires e.seqno.Some? && e.seqno.value > lane.expected && e.seqno.value !in lane.held
    requires |lane.held| == limit
    requires var full := lane.held[e.seqno.value := e]; low in full && forall k | k in full :: low <= k
    ensures var full := lane.held[e.seqno.value := e];
            AcceptOnLane(lane, limit, e) == (Lane(low + 1, full - {low}), ReorderResult([], limit, true, [full[low]]))
  {
    var full := lane.held[e.seqno.value := e];
    assert full.Keys == lane.held.Keys + {e.seqno.value};
    assert (full - {low}).Keys == full.Keys - {low};
    ShedOne(lane.(held := full), limit);
  }
}
