/** The acknowledged-LSN watermark (src/ledger/ack-watermark.ts). */
module AckWatermarks {
  import opened Common

  datatype WatermarkState = WatermarkState(watermark: int, pendingLsn: int, pendingCount: nat, partitionMode: bool)

  datatype WatermarkOp =
    | Acknowledge(lsn: int)
    | Force(lsn: int)
    | Tick
    | SetMode(active: bool)

  function Initial(lsn: int): WatermarkState {
    WatermarkState(lsn, lsn, 0, false)
  }

  /** The new state and the value passed to `onAdvance`, if it was called. */
  function Advance(s: WatermarkState): (WatermarkState, Option<int>) {
    if s.pendingLsn <= s.watermark then (s, None)
    else (s.(watermark := s.pendingLsn, pendingCount := 0), Some(s.pendingLsn))
  }

  function WatermarkStep(advanceRecords: int, s: WatermarkState, op: WatermarkOp): (WatermarkState, Option<int>) {
    match op
    case Acknowledge(lsn) =>
      if lsn <= s.watermark then (s, None)
      else
        var s1 := s.(
          pendingLsn := if lsn > s.pendingLsn then lsn else s.pendingLsn,
          pendingCount := s.pendingCount + 1);
        if !s.partitionMode && s1.pendingCount >= advanceRecords then Advance(s1) else (s1, None)
    case Force(lsn) =>
      if lsn > s.watermark then (WatermarkState(lsn, lsn, 0, s.partitionMode), Some(lsn)) else (s, None)
    case Tick =>
      if !s.partitionMode && s.pendingCount > 0 then Advance(s) else (s, None)
    case SetMode(active) => (s.(partitionMode := active), None)
  }

  class AckWatermark {
    var watermark: int
    var pendingLsn: int
    var pendingCount: nat
    var partitionMode: bool
    const advanceRecords: int
    /** The values `onAdvance` was called with. */
    var advances: seq<int>

    constructor (initialLsn: int := 0, advanceRecords: int := 1000)
      ensures State() == Initial(initialLsn) && this.advanceRecords == advanceRecords && advances == []
    {
      watermark, pendingLsn, pendingCount, partitionMode := initialLsn, initialLsn, 0, false;
      this.advanceRecords, advances := advanceRecords, [];
    }

    function State(): WatermarkState
      reads this
    {
      WatermarkState(watermark, pendingLsn, pendingCount, partitionMode)
    }

    twostate predicate Stepped(op: WatermarkOp)
      reads this
    {
      var (s, value) := WatermarkStep(advanceRecords, old(State()), op);
      State() == s && advances == old(advances) + if value.Some? then [value.value] else []
    }

    method AcknowledgeLsn(lsn: int)
      modifies this
      ensures Stepped(Acknowledge(lsn))
    {
      if lsn <= watermark {
        return;
      }
      if lsn > pendingLsn {
        pendingLsn := lsn;
      }
      pendingCount := pendingCount + 1;
      if !partitionMode && pendingCount >= advanceRecords {
        AdvanceWatermark();
      }
    }

    method ForceAdvance(lsn: int)
      modifies this
      ensures Stepped(Force(lsn))
    {
      if lsn > watermark {
        watermark, pendingLsn, pendingCount := lsn, lsn, 0;
        advances := advances + [watermark];
      }
    }

    method SetPartitionMode(active: bool)
      modifies this
      ensures Stepped(SetMode(active))
    {
      partitionMode := active;
    }

    /** The interval timer fires. */
    method OnTimer()
      modifies this
      ensures Stepped(Tick)
    {
      if !partitionMode && pendingCount > 0 {
        AdvanceWatermark();
      }
    }

    method AdvanceWatermark()
      modifies this
      ensures var (s, value) := Advance(old(State()));
              State() == s && advances == old(advances) + if value.Some? then [value.value] else []
    {
      if pendingLsn <= watermark {
        return;
      }
      watermark, pendingCount := pendingLsn, 0;
      advances := advances + [watermark];
    }
  }

  // --- whole runs ---

  /** The state after some calls, and the values `onAdvance` was called with. */
  function Run(advanceRecords: int, initial: int, ops: seq<WatermarkOp>): (WatermarkState, seq<int>) {
    if ops == [] then (Initial(initial), [])
    else
      var (s, values) := Run(advanceRecords, initial, ops[..|ops| - 1]);
      var (s', value) := WatermarkStep(advanceRecords, s, ops[|ops| - 1]);
      (s', values + if value.Some? then [value.value] else [])
  }

  /** The LSN was acknowledged or forced. */
  predicate Reported(ops: seq<WatermarkOp>, lsn: int) {
    Acknowledge(lsn) in ops || Force(lsn) in ops
  }

  predicate StrictlyIncreasing(xs: seq<int>) {
    forall i, j | 0 <= i < j < |xs| :: xs[i] < xs[j]
  }

  ghost predicate Consistent(initial: int, ops: seq<WatermarkOp>, s: WatermarkState, values: seq<int>) {
    && initial <= s.watermark && Settled(s)
    && (s.pendingLsn == initial || Reported(ops, s.pendingLsn))
    && StrictlyIncreasing(values)
    && (forall v | v in values :: initial < v <= s.watermark && Reported(ops, v))
    && s.watermark == if values == [] then initial else values[|values| - 1]
  }

  predicate Settled(s: WatermarkState) {
    s.watermark <= s.pendingLsn && (s.pendingCount == 0 <==> s.pendingLsn == s.watermark)
  }

  lemma StepSettles(advanceRecords: int, s: WatermarkState, op: WatermarkOp)
    requires Settled(s)
    ensures var (s', value) := WatermarkStep(advanceRecords, s, op);
            && Settled(s')
            && (if value.Some? then value.value == s'.watermark > s.watermark else s'.watermark == s.watermark)
            && (s'.pendingLsn == s.pendingLsn || op == Acknowledge(s'.pendingLsn) || op == Force(s'.pendingLsn))
            && (value.Some? ==> s'.watermark == s'.pendingLsn)
  {
  }

  /**
   Over every run: the watermark never passes the pending LSN, none is pending exactly when they are
   equal, and `onAdvance` sees strictly increasing LSNs, each acknowledged or forced, the last of
   which is the watermark.
   */
  lemma {:induction false} RunsAreConsistent(advanceRecords: int, initial: int, ops: seq<WatermarkOp>)
    ensures var (s, values) := Run(advanceRecords, initial, ops); Consistent(initial, ops, s, values)
  {
    if ops != [] {
      var front, op := ops[..|ops| - 1], ops[|ops| - 1];
      RunsAreConsistent(advanceRecords, initial, front);
      assert ops == front + [op];
      var (s, values) := Run(advanceRecords, initial, front);
      StepSettles(advanceRecords, s, op);
      var (s', value) := WatermarkStep(advanceRecords, s, op);
      hide WatermarkStep, Consistent, Settled;
      OneMoreCall(initial, front, op, s, values, s', value);
    }
  }

  lemma OneMoreCall(initial: int, front: seq<WatermarkOp>, op: WatermarkOp, s: WatermarkState, values: seq<int>,
      s': WatermarkState, value: Option<int>)
    requires Consistent(initial, front, s, values) && Settled(s')
    requires if value.Some? then value.value == s'.watermark > s.watermark else s'.watermark == s.watermark
    requires s'.pendingLsn == s.pendingLsn || op == Acknowledge(s'.pendingLsn) || op == Force(s'.pendingLsn)
    requires value.Some? ==> s'.watermark == s'.pendingLsn
    ensures Consistent(initial, front + [op], s', values + if value.Some? then [value.value] else [])
  {
    hide Settled;
    var ops := front + [op];
    assert values + [] == values;
    forall lsn | Reported(front, lsn) || op == Acknowledge(lsn) || op == Force(lsn) ensures Reported(ops, lsn) {
      assert op in ops && forall o | o in front :: o in ops;
    }
  }

  /** While the partition lasts only a forced advance moves the watermark. */
  lemma PartitionFreezes(advanceRecords: int, s: WatermarkState, op: WatermarkOp)
    requires s.partitionMode && WatermarkStep(advanceRecords, s, op).0.watermark != s.watermark
    ensures op.Force? && op.lsn > s.watermark
  {
  }

  /** A call that neither advances the watermark nor starts a partition, with the watermark at `w`. */
  predicate IdleCall(op: WatermarkOp, w: int) {
    match op
    case Acknowledge(lsn) => lsn <= w
    case Force(lsn) => lsn <= w
    case Tick => false
    case SetMode(active) => !active
  }

  /** `ops[i]` ended a partition with at least the threshold pending, and only idle calls came after it. */
  predicate PiledUpAt(advanceRecords: int, initial: int, ops: seq<WatermarkOp>, i: int) {
    && 0 <= i < |ops| && ops[i] == SetMode(false)
    && var s := Run(advanceRecords, initial, ops[..i]).0;
       && s.partitionMode && s.pendingCount >= advanceRecords
       && forall k | i < k < |ops| :: IdleCall(ops[k], s.watermark)
  }

  ghost predicate PiledUp(advanceRecords: int, initial: int, ops: seq<WatermarkOp>) {
    exists i :: PiledUpAt(advanceRecords, initial, ops, i)
  }

  lemma PiledUpAtSnoc(advanceRecords: int, initial: int, ops: seq<WatermarkOp>, i: int)
    requires ops != []
    ensures var n, op, front := |ops| - 1, ops[|ops| - 1], ops[..|ops| - 1];
            PiledUpAt(advanceRecords, initial, ops, i) <==>
              if i == n then
                var s := Run(advanceRecords, initial, front).0;
                op == SetMode(false) && s.partitionMode && s.pendingCount >= advanceRecords
              else
                && PiledUpAt(advanceRecords, initial, front, i)
                && IdleCall(op, Run(advanceRecords, initial, front[..i]).0.watermark)
  {
    hide Run, IdleCall;
    var n, front := |ops| - 1, ops[..|ops| - 1];
    if 0 <= i < n {
      assert front[..i] == ops[..i];
      var w := Run(advanceRecords, initial, ops[..i]).0.watermark;
      assert (forall k | i < k < |ops| :: IdleCall(ops[k], w))
             <==> IdleCall(ops[n], w) && forall k | i < k < n :: IdleCall(front[k], w) by {
        assert forall k | i < k < n :: front[k] == ops[k];
      }
    }
  }

  /** After idle calls the watermark and the count are what they were when the partition ended. */
  lemma {:induction false} PiledUpState(advanceRecords: int, initial: int, ops: seq<WatermarkOp>, i: int)
    requires PiledUpAt(advanceRecords, initial, ops, i)
    ensures var before, s := Run(advanceRecords, initial, ops[..i]).0, Run(advanceRecords, initial, ops).0;
            s == before.(partitionMode := false)
  {
    var n, front := |ops| - 1, ops[..|ops| - 1];
    PiledUpAtSnoc(advanceRecords, initial, ops, i);
    if i < n {
      assert front[..i] == ops[..i];
      PiledUpState(advanceRecords, initial, front, i);
    }
  }

  lemma ThresholdStep(advanceRecords: int, s: WatermarkState, op: WatermarkOp)
    requires Settled(s) && advanceRecords >= 1
    ensures var s' := WatermarkStep(advanceRecords, s, op).0;
            !s'.partitionMode && s'.pendingCount >= advanceRecords <==>
              && s.pendingCount >= advanceRecords
              && if s.partitionMode then op == SetMode(false) else IdleCall(op, s.watermark)
  {
  }

  /**
   Over every run: outside a partition the pending count is at or above the threshold if and only if
   some partition ended with that many pending and only idle calls followed, acknowledgements and
   forced advances at or below the watermark among them, which return before the threshold is
   looked at.
   */
  lemma {:induction false} PendingAtThresholdIff(advanceRecords: int, initial: int, ops: seq<WatermarkOp>)
    requires advanceRecords >= 1
    ensures var s := Run(advanceRecords, initial, ops).0;
            !s.partitionMode && s.pendingCount >= advanceRecords <==> PiledUp(advanceRecords, initial, ops)
  {
    hide WatermarkStep, PiledUpAt, IdleCall;
    if ops == [] {
      NothingPiledUp(advanceRecords, initial);
    } else {
      var n, op, front := |ops| - 1, ops[|ops| - 1], ops[..|ops| - 1];
      var s, s' := Run(advanceRecords, initial, front).0, Run(advanceRecords, initial, ops).0;
      PendingAtThresholdIff(advanceRecords, initial, front);
      RunsAreConsistent(advanceRecords, initial, front);
      ThresholdStep(advanceRecords, s, op);
      PiledUpSnoc(advanceRecords, initial, ops);
    }
  }

  lemma NothingPiledUp(advanceRecords: int, initial: int)
    requires advanceRecords >= 1
    ensures !PiledUp(advanceRecords, initial, []) && Run(advanceRecords, initial, []).0.pendingCount == 0
  {
  }

  lemma PiledUpSnoc(advanceRecords: int, initial: int, ops: seq<WatermarkOp>)
    requires ops != []
    ensures var op, front := ops[|ops| - 1], ops[..|ops| - 1];
            var s := Run(advanceRecords, initial, front).0;
            PiledUp(advanceRecords, initial, ops) <==>
              || (op == SetMode(false) && s.partitionMode && s.pendingCount >= advanceRecords)
              || (PiledUp(advanceRecords, initial, front) && IdleCall(op, s.watermark))
  {
    hide Run, PiledUpAt, IdleCall;
    var n, op, front := |ops| - 1, ops[|ops| - 1], ops[..|ops| - 1];
    var s := Run(advanceRecords, initial, front).0;
    if PiledUp(advanceRecords, initial, ops) {
      var i :| PiledUpAt(advanceRecords, initial, ops, i);
      PiledUpAtSnoc(advanceRecords, initial, ops, i);
      if i != n {
        PiledUpState(advanceRecords, initial, front, i);
      }
    }
    PiledUpAtSnoc(advanceRecords, initial, ops, n);
    if PiledUp(advanceRecords, initial, front) && IdleCall(op, s.watermark) {
      var i :| PiledUpAt(advanceRecords, initial, front, i);
      PiledUpInRange(advanceRecords, initial, front, i);
      PiledUpAtSnoc(advanceRecords, initial, ops, i);
      PiledUpState(advanceRecords, initial, front, i);
    }
  }

  lemma PiledUpInRange(advanceRecords: int, initial: int, ops: seq<WatermarkOp>, i: int)
    requires PiledUpAt(advanceRecords, initial, ops, i)
    ensures 0 <= i < |ops|
  {
  }

  /** A partition in which the next `n` LSNs are acknowledged. */
  function Partition(initial: int, n: nat): seq<WatermarkOp> {
    if n == 0 then [SetMode(true)] else Partition(initial, n - 1) + [Acknowledge(initial + n)]
  }

  lemma {:induction false} PartitionPiles(advanceRecords: int, initial: int, n: nat)
    ensures Run(advanceRecords, initial, Partition(initial, n)).0 == WatermarkState(initial, initial + n, n, true)
  {
    var ops := Partition(initial, n);
    if n == 0 {
      assert ops[..0] == [];
    } else {
      assert ops[..|ops| - 1] == Partition(initial, n - 1);
      PartitionPiles(advanceRecords, initial, n - 1);
    }
  }

  /** For every threshold and start such a run exists: it ends outside a partition with the threshold pending. */
  lemma PendingCanReachThreshold(advanceRecords: nat, initial: int)
    ensures var ops := Partition(initial, advanceRecords) + [SetMode(false), Acknowledge(initial)];
            var s := Run(advanceRecords, initial, ops).0;
            !s.partitionMode && s.pendingCount == advanceRecords
  {
    var before := Partition(initial, advanceRecords);
    var ops := before + [SetMode(false), Acknowledge(initial)];
    PartitionPiles(advanceRecords, initial, advanceRecords);
    assert ops[..|ops| - 1] == before + [SetMode(false)];
    assert (before + [SetMode(false)])[..|before|] == before;
    assert Run(advanceRecords, initial, before + [SetMode(false)]).0
        == WatermarkState(initial, initial + advanceRecords, advanceRecords, false);
  }

  /** The highest LSN reported in a run, or the initial one. */
  function Highest(initial: int, ops: seq<WatermarkOp>): int {
    if ops == [] then initial
    else
      var h := Highest(initial, ops[..|ops| - 1]);
      match ops[|ops| - 1]
      case Acknowledge(lsn) => if lsn > h then lsn else h
      case Force(lsn) => if lsn > h then lsn else h
      case _ => h
  }

  /**
   Nothing acknowledged is forgotten as long as no forced advance lands strictly between the
   watermark and the pending LSN: then the pending LSN is the highest reported one, and the next
   tick outside a partition brings the watermark to it. Such a forced advance lowers the pending LSN.
   */
  lemma PendingKeptIff(advanceRecords: int, s: WatermarkState, op: WatermarkOp)
    requires s.watermark <= s.pendingLsn
    ensures WatermarkStep(advanceRecords, s, op).0.pendingLsn >= s.pendingLsn
            <==> !(op.Force? && s.watermark < op.lsn < s.pendingLsn)
  {
  }

  /** Such a step can be reached from any start, for any two LSNs above it. */
  lemma PendingCanFall(advanceRecords: int, initial: int, low: int, high: int)
    requires advanceRecords >= 2 && initial < low < high
    ensures Run(advanceRecords, initial, [Acknowledge(high)]).0.pendingLsn == high
    ensures Run(advanceRecords, initial, [Acknowledge(high), Force(low)]).0.pendingLsn == low
  {
    var ops := [Acknowledge(high), Force(low)];
    assert ops[..1] == [Acknowledge(high)] && ops[..1][..0] == [];
    assert Run(advanceRecords, initial, ops[..1]).0 == WatermarkState(initial, high, 1, false);
  }

  ghost predicate NeverForcedBack(advanceRecords: int, initial: int, ops: seq<WatermarkOp>) {
    forall k | 0 <= k < |ops| ::
      var s := Run(advanceRecords, initial, ops[..k]).0;
      !(ops[k].Force? && s.watermark < ops[k].lsn < s.pendingLsn)
  }

  lemma {:induction false} PendingIsHighest(advanceRecords: int, initial: int, ops: seq<WatermarkOp>)
    requires NeverForcedBack(advanceRecords, initial, ops)
    ensures var s := Run(advanceRecords, initial, ops).0;
            s.watermark <= s.pendingLsn == Highest(initial, ops)
  {
    hide WatermarkStep;
    if ops != [] {
      var front, op := ops[..|ops| - 1], ops[|ops| - 1];
      forall k | 0 <= k < |front|
        ensures var s := Run(advanceRecords, initial, front[..k]).0;
                !(front[k].Force? && s.watermark < front[k].lsn < s.pendingLsn)
      {
        assert front[..k] == ops[..k];
      }
      PendingIsHighest(advanceRecords, initial, front);
      assert ops[..|ops| - 1] == front;
      PendingStep(advanceRecords, Run(advanceRecords, initial, front).0, op);
    }
  }

  lemma PendingStep(advanceRecords: int, s: WatermarkState, op: WatermarkOp)
    requires s.watermark <= s.pendingLsn && !(op.Force? && s.watermark < op.lsn < s.pendingLsn)
    ensures var s' := WatermarkStep(advanceRecords, s, op).0;
            && s'.watermark <= s'.pendingLsn
            && s'.pendingLsn == if (op.Acknowledge? || op.Force?) && op.lsn > s.pendingLsn then op.lsn else s.pendingLsn
  {
  }

  /** Outside a partition a tick then acknowledges everything reported so far. */
  lemma TickCatchesUp(advanceRecords: int, initial: int, ops: seq<WatermarkOp>)
    requires NeverForcedBack(advanceRecords, initial, ops)
    requires !Run(advanceRecords, initial, ops).0.partitionMode
    ensures WatermarkStep(advanceRecords, Run(advanceRecords, initial, ops).0, Tick).0.watermark
            == Highest(initial, ops)
  {
    PendingIsHighest(advanceRecords, initial, ops);
    RunsAreConsistent(advanceRecords, initial, ops);
  }

  // --- without partitions and timers ---

  /** New LSNs reported one after the other, each above the ones before. */
  predicate Rising(initial: int, lsns: seq<int>) {
    (forall i | 0 <= i < |lsns| :: initial < lsns[i]) && forall i, j | 0 <= i < j < |lsns| :: lsns[i] < lsns[j]
  }

  function Reports(lsns: seq<int>): seq<WatermarkOp> {
    if lsns == [] then [] else Reports(lsns[..|lsns| - 1]) + [Acknowledge(lsns[|lsns| - 1])]
  }

  /** How many of `n` records came after the last full batch of `k`. */
  function SinceBatch(n: nat, k: nat): (r: nat)
    requires k >= 1
    ensures r < k && r <= n
  {
    n % k
  }

  /**
   The watermark moves once for every `advanceRecords` records: after n reports it is the LSN of the
   last one of the last full batch, or the initial one, and what came since is pending.
   */
  lemma {:induction false} AdvancesInBatches(advanceRecords: nat, initial: int, lsns: seq<int>)
    requires advanceRecords >= 1 && Rising(initial, lsns)
    ensures var s, n := Run(advanceRecords, initial, Reports(lsns)).0, |lsns|;
            var pending := SinceBatch(n, advanceRecords);
            && s.watermark == (if pending == n then initial else lsns[n - pending - 1])
            && s.pendingLsn == (if n == 0 then initial else lsns[n - 1])
            && s.pendingCount == pending && !s.partitionMode
  {
    hide SinceBatch;
    if lsns != [] {
      var front := lsns[..|lsns| - 1];
      AdvancesInBatches(advanceRecords, initial, front);
      var ops := Reports(lsns);
      assert ops[..|ops| - 1] == Reports(front);
      NextInBatch(|front|, advanceRecords);
    }
  }

  lemma NextInBatch(n: nat, k: nat)
    requires k >= 1
    ensures var r := SinceBatch(n, k); SinceBatch(n + 1, k) == if r + 1 == k then 0 else r + 1
  {
    var q, r := n / k, n % k;
    assert n == k * q + r;
    if r + 1 == k {
      assert n + 1 == k * (q + 1);
      Division(n + 1, k, q + 1, 0);
    } else {
      Division(n + 1, k, q, r + 1);
    }
  }
}
