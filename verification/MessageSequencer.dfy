/**
 Per-(flow, partition) numbering and reordering of events
 (backend/src/event-bus/message-sequencer.ts).

 A `Lane` is what the sequencer remembers about one key: the next seqno to deliver and the events
 held back. `AcceptOnLane` says what one arrival does to it; the class below implements it.
 */
module MessageSequencers {
  import opened Common
  import Decimal

  datatype Event = Event(flowId: string, partition: nat, seqno: Option<int>, payload: string, publishedAt: Option<int>)

  datatype ReorderResult = ReorderResult(ready: seq<Event>, buffered: nat, stalled: bool, dropped: seq<Event>)

  datatype SequencerError = MissingSeqno

  /** The map key of a lane, `partition:flowId`. */
  function Key(flowId: string, partition: nat): string {
    Decimal.ToText(partition) + ":" + flowId
  }

  function UntilColon(s: string): nat {
    if s == [] || s[0] == ':' then 0 else 1 + UntilColon(s[1..])
  }

  lemma {:induction false} UntilColonAfterNumeral(a: string, f: string)
    requires Decimal.IsNumeral(a)
    ensures UntilColon(a + ":" + f) == |a|
  {
    var s := a + ":" + f;
    if a != [] {
      UntilColonAfterNumeral(a[1..], f);
      assert s[1..] == a[1..] + ":" + f;
    }
  }

  /** Different (flow, partition) pairs never share a lane, whatever characters the flow id has. */
  lemma KeyInjective(f: string, p: nat, g: string, q: nat)
    requires Key(f, p) == Key(g, q)
    ensures f == g && p == q
  {
    Decimal.ValueOfText(p);
    Decimal.ValueOfText(q);
    var a, b, s := Decimal.ToText(p), Decimal.ToText(q), Key(f, p);
    UntilColonAfterNumeral(a, f);
    UntilColonAfterNumeral(b, g);
    assert a == s[..|a|] && b == s[..|b|];
    assert f == s[|a| + 1..] && g == s[|b| + 1..];
  }

  // --- one lane ---

  datatype Lane = Lane(expected: int, held: map<int, Event>)

  const FRESH_LANE := Lane(1, map[])

  /** The first seqno from `n` on that is not held. */
  function NextGap(held: map<int, Event>, n: int): (g: int)
    ensures n <= g && g !in held
    ensures forall k | n <= k < g :: k in held
    decreases |held|
  {
    if n in held then
      var rest := held - {n};
      assert |rest| < |held| by { assert rest.Keys == held.Keys - {n}; }
      var g := NextGap(rest, n + 1);
      assert forall k | n <= k < g :: k in held by {
        forall k | n <= k < g ensures k in held { assert k == n || k in rest; }
      }
      g
    else n
  }

  /** The held events with seqnos lo, lo + 1, ..., hi - 1, in that order. */
  function HeldRun(held: map<int, Event>, lo: int, hi: int): (s: seq<Event>)
    requires lo <= hi && forall k | lo <= k < hi :: k in held
    ensures |s| == hi - lo
    ensures forall i | 0 <= i < hi - lo :: s[i] == held[lo + i]
    decreases hi - lo
  {
    if lo == hi then [] else HeldRun(held, lo, hi - 1) + [held[hi - 1]]
  }

  function Outside(held: map<int, Event>, lo: int, hi: int): map<int, Event> {
    map k | k in held && !(lo <= k < hi) :: held[k]
  }

  /** One more turn of the drain loop. */
  lemma DrainStep(held: map<int, Event>, lo: int, n: int)
    requires lo <= n && forall k | lo <= k <= n :: k in held
    ensures n in Outside(held, lo, n) && Outside(held, lo, n)[n] == held[n]
    ensures Outside(held, lo, n) - {n} == Outside(held, lo, n + 1)
    ensures HeldRun(held, lo, n) + [held[n]] == HeldRun(held, lo, n + 1)
  {
  }

  ghost function Lowest(s: set<int>): (m: int)
    requires s != {}
    ensures m in s && forall k | k in s :: m <= k
  {
    LowestExists(s);
    var m :| m in s && forall k | k in s :: m <= k;
    m
  }

  lemma {:induction false} LowestExists(s: set<int>)
    requires s != {}
    ensures exists m :: m in s && forall k | k in s :: m <= k
  {
    SomeMember(s);
    var x: int :| x in s;
    var rest := s - {x};
    var low := x;
    if rest != {} {
      LowestExists(rest);
      var m :| m in rest && forall k | k in rest :: m <= k;
      low := if x < m then x else m;
    }
    forall k | k in s ensures low <= k {
      assert k == x || k in rest;
    }
    assert low in s;
  }

  /** What is left, and what was dropped, once the lowest held seqnos are shed down to the limit. */
  ghost function Shed(lane: Lane, limit: nat): (r: (Lane, seq<Event>))
    ensures |r.0.held| <= limit
    ensures |lane.held| <= limit ==> r == (lane, [])
    decreases |lane.held|
  {
    if |lane.held| <= limit then (lane, [])
    else
      var low := Lowest(lane.held.Keys);
      assert |lane.held - {low}| < |lane.held| by { assert (lane.held - {low}).Keys == lane.held.Keys - {low}; }
      var (lane', dropped) := Shed(Lane(low + 1, lane.held - {low}), limit);
      (lane', [lane.held[low]] + dropped)
  }

  lemma ShedLowest(lane: Lane, limit: nat)
    requires |lane.held| > limit
    ensures var low := Lowest(lane.held.Keys);
            var (lane', dropped) := Shed(Lane(low + 1, lane.held - {low}), limit);
            && Shed(lane, limit) == (lane', [lane.held[low]] + dropped)
            && |lane.held - {low}| < |lane.held|
  {
    var low := Lowest(lane.held.Keys);
    assert (lane.held - {low}).Keys == lane.held.Keys - {low};
  }

  ghost function AcceptOnLane(lane: Lane, limit: nat, e: Event): (r: (Lane, ReorderResult))
    requires e.seqno.Some?
  {
    var s := e.seqno.value;
    if s < lane.expected then
      (lane, ReorderResult([], |lane.held|, false, [e]))
    else if s == lane.expected then
      var gap := NextGap(lane.held, s + 1);
      var left := Outside(lane.held, s + 1, gap);
      (Lane(gap, left), ReorderResult([e] + HeldRun(lane.held, s + 1, gap), |left|, false, []))
    else
      var (lane', dropped) := Shed(lane.(held := lane.held[s := e]), limit);
      (lane', ReorderResult([], |lane'.held|, true, dropped))
  }

  /**
   The answer to an arrival: it counts what is held afterwards, and it says the lane is stalled exactly
   when the event came ahead of the expected one.
   */
  lemma AnswerTellsTheLane(lane: Lane, limit: nat, e: Event)
    requires e.seqno.Some?
    ensures var (lane', out) := AcceptOnLane(lane, limit, e);
            && out.buffered == |lane'.held|
            && (out.stalled <==> e.seqno.value > lane.expected)
            && (e.seqno.value < lane.expected <==>
                out.dropped == [e] && lane' == lane && out.ready == [] && !out.stalled)
  {
    hide Shed, NextGap;
  }

  // --- the class ---

  class MessageSequencer {
    var nextSeqno: map<string, int>
    var expectedSeqno: map<string, int>
    var reorderBuffers: map<string, map<int, Event>>
    const reorderLimit: nat

    constructor (reorderLimit: nat := 500)
      ensures this.reorderLimit == reorderLimit
      ensures nextSeqno == map[] && forall key :: LaneOf(key) == FRESH_LANE
    {
      this.reorderLimit := reorderLimit;
      nextSeqno, expectedSeqno, reorderBuffers := map[], map[], map[];
    }

    function LaneOf(key: string): Lane
      reads this
    {
      Lane(Get(expectedSeqno, key, 1), Get(reorderBuffers, key, map[]))
    }

    /** An event that already has a seqno is returned as it is and uses up no number. */
    method Assign(event: Event) returns (r: Event)
      modifies this`nextSeqno
      ensures event.seqno.Some? ==> r == event && nextSeqno == old(nextSeqno)
      ensures event.seqno.None? ==>
                var key := Key(event.flowId, event.partition);
                var n := Get(old(nextSeqno), key, 1);
                r == event.(seqno := Some(n)) && nextSeqno == old(nextSeqno)[key := n + 1]
    {
      if event.seqno.Some? {
        return event;
      }
      var key := Key(event.flowId, event.partition);
      var next := Get(nextSeqno, key, 1);
      nextSeqno := nextSeqno[key := next + 1];
      return event.(seqno := Some(next));
    }

    method Accept(event: Event) returns (r: Result<ReorderResult, SequencerError>)
      modifies this`expectedSeqno, this`reorderBuffers
      ensures event.seqno.None? ==> r == Err(MissingSeqno) && unchanged(this)
      ensures event.seqno.Some? ==>
                var key := Key(event.flowId, event.partition);
                && (LaneOf(key), r) == (var a := AcceptOnLane(old(LaneOf(key)), reorderLimit, event); (a.0, Ok(a.1)))
                && forall other | other != key :: LaneOf(other) == old(LaneOf(other))
    {
      if event.seqno.None? {
        return Err(MissingSeqno);
      }
      var seqno := event.seqno.value;
      var key := Key(event.flowId, event.partition);
      var expected := Get(expectedSeqno, key, 1);
      if seqno < expected {
        return Ok(ReorderResult([], |Get(reorderBuffers, key, map[])|, false, [event]));
      }
      if seqno == expected {
        var ready := Drain(key, event);
        return Ok(ReorderResult(ready, |Get(reorderBuffers, key, map[])|, false, []));
      }
      reorderBuffers := reorderBuffers[key := Get(reorderBuffers, key, map[])[seqno := event]];
      var dropped := Overflow(key);
      return Ok(ReorderResult([], |reorderBuffers[key]|, true, dropped));
    }

    /** The loop that releases the expected event and everything held in sequence behind it. */
    method Drain(key: string, event: Event) returns (ready: seq<Event>)
      modifies this`expectedSeqno, this`reorderBuffers
      ensures var was := old(LaneOf(key));
              var gap := NextGap(was.held, was.expected + 1);
              && ready == [event] + HeldRun(was.held, was.expected + 1, gap)
              && LaneOf(key) == Lane(gap, Outside(was.held, was.expected + 1, gap))
      ensures forall other | other != key :: LaneOf(other) == old(LaneOf(other))
    {
      ghost var was := LaneOf(key);
      ready := [event];
      var first := Get(expectedSeqno, key, 1) + 1;
      var nextExpected := first;
      var buffer := Get(reorderBuffers, key, map[]);
      ghost var gap := NextGap(was.held, first);
      assert buffer == Outside(was.held, first, first);
      while nextExpected in buffer
        invariant first <= nextExpected <= gap
        invariant buffer == Outside(was.held, first, nextExpected)
        invariant key !in reorderBuffers ==> buffer == map[]
        invariant unchanged(this)
        invariant ready == [event] + HeldRun(was.held, first, nextExpected)
        decreases gap - nextExpected
      {
        DrainStep(was.held, first, nextExpected);
        ready := ready + [buffer[nextExpected]];
        buffer := buffer - {nextExpected};
        nextExpected := nextExpected + 1;
      }
      assert nextExpected == gap;
      StoreLane(key, nextExpected, buffer);
    }

    /** An emptied buffer is taken out of the map. */
    method StoreLane(key: string, expected: int, buffer: map<int, Event>)
      requires key !in reorderBuffers ==> buffer == map[]
      modifies this`expectedSeqno, this`reorderBuffers
      ensures LaneOf(key) == Lane(expected, buffer)
      ensures forall other | other != key :: LaneOf(other) == old(LaneOf(other))
    {
      if key in reorderBuffers {
        reorderBuffers := if |buffer| == 0 then reorderBuffers - {key} else reorderBuffers[key := buffer];
      }
      expectedSeqno := expectedSeqno[key := expected];
    }

    /** The loop that drops the lowest held seqno until the buffer fits the limit. */
    method Overflow(key: string) returns (dropped: seq<Event>)
      requires key in reorderBuffers
      modifies this`expectedSeqno, this`reorderBuffers
      ensures (LaneOf(key), dropped) == Shed(old(LaneOf(key)), reorderLimit)
      ensures key in reorderBuffers
      ensures forall other | other != key :: LaneOf(other) == old(LaneOf(other))
    {
      hide Shed;
      ghost var all := Shed(LaneOf(key), reorderLimit);
      dropped := [];
      assert dropped + all.1 == all.1;
      while |reorderBuffers[key]| > reorderLimit
        invariant key in reorderBuffers
        invariant forall other | other != key :: LaneOf(other) == old(LaneOf(other))
        invariant Shed(LaneOf(key), reorderLimit).0 == all.0
        invariant dropped + Shed(LaneOf(key), reorderLimit).1 == all.1
        decreases |reorderBuffers[key]|
      {
        var buffer := reorderBuffers[key];
        var lowest := MinKey(buffer.Keys);
        ghost var rest := Shed(LaneOf(key), reorderLimit);
        ShedLowest(LaneOf(key), reorderLimit);
        ghost var before := dropped;
        dropped := dropped + [buffer[lowest]];
        reorderBuffers := reorderBuffers[key := buffer - {lowest}];
        expectedSeqno := expectedSeqno[key := lowest + 1];
        assert before + rest.1 == dropped + Shed(LaneOf(key), reorderLimit).1;
      }
      assert dropped + [] == dropped;
    }

    /** `Math.min(...keys)`. */
    static method MinKey(keys: set<int>) returns (m: int)
      requires keys != {}
      ensures m == Lowest(keys)
    {
      SomeMember(keys);
      var any: int :| any in keys;
      m := any;
      var rest := keys - {m};
      while rest != {}
        invariant m in keys && rest <= keys
        invariant forall k | k in keys :: k in rest || m <= k
        decreases |rest|
      {
        SomeMember(rest);
        var k: int :| k in rest;
        m := if k < m then k else m;
        rest := rest - {k};
      }
    }
  }
}
