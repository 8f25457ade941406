/**
 When segments were created, and which of them a spill therefore archives
 (src/ledger/segment-manager.ts, src/ledger/ledger-sync-protocol.ts).
 */
module SegmentDates {
  import opened Common
  import opened WalFrames
  import opened SegmentStore
  import opened LedgerSync
  import opened LedgerRefinement

  /** The highest index given out so far. */
  function ActiveAfter(x: Setup, ops: seq<WalOp>): nat {
    WalRun(x, ops).spill.store.activeIndex
  }

  /**
   The clock an operation read when it gave out an index: that at its start, but for the one segment
   that a rotation in a window without room creates after it has trimmed all others.
   */
  function Reading(x: Setup, op: WalOp, before: nat, after: nat, index: nat): int {
    if x.cfg.maxSegments == 0 && index == after && after >= before + 2 then End(op) else Start(op)
  }

  /** What the clock read in the first operation after which the highest index was at least `index`. */
  function BornAt(x: Setup, ops: seq<WalOp>, index: nat): int
    requires 0 < index <= ActiveAfter(x, ops)
    decreases |ops|
  {
    var front := ops[..|ops| - 1];
    if index <= ActiveAfter(x, front) then BornAt(x, front, index)
    else Reading(x, ops[|ops| - 1], ActiveAfter(x, front), ActiveAfter(x, ops), index)
  }

  /** The same segment, perhaps of another size. */
  predicate Kin(s: Segment, s': Segment) {
    s.index == s'.index && s.createdAt == s'.createdAt
  }

  ghost predicate Among(s': Segment, segs: seq<Segment>) {
    exists s | s in segs :: Kin(s, s')
  }

  lemma IsAmong(s: Segment, s': Segment, segs: seq<Segment>)
    requires s in segs && Kin(s, s')
    ensures Among(s', segs)
  {
  }

  /** Of the segments there now, each was there before or has been created with a new index, at `now`. */
  ghost predicate Aged(st: Store, st': Store, now: int) {
    && st.activeIndex <= st'.activeIndex
    && forall s' | s' in st'.segments ::
         Among(s', st.segments) || (st.activeIndex < s'.index <= st'.activeIndex && s'.createdAt == now)
  }

  lemma Unchanged(st: Store, st': Store, now: int)
    requires st'.activeIndex == st.activeIndex && forall s | s in st'.segments :: s in st.segments
    ensures Aged(st, st', now)
  {
    forall s | s in st'.segments ensures Among(s, st.segments) {
      IsAmong(s, s, st.segments);
    }
  }

  lemma AgedTransitive(st: Store, st1: Store, st2: Store, now: int)
    requires Aged(st, st1, now) && Aged(st1, st2, now)
    ensures Aged(st, st2, now)
  {
    forall s2 | s2 in st2.segments
      ensures Among(s2, st.segments) || (st.activeIndex < s2.index <= st2.activeIndex && s2.createdAt == now)
    {
      if Among(s2, st1.segments) {
        var s1 :| s1 in st1.segments && Kin(s1, s2);
        if Among(s1, st.segments) {
          var s :| s in st.segments && Kin(s, s1);
          IsAmong(s, s2, st.segments);
        }
      }
    }
  }

  lemma CreatedAged(cfg: Config, st: Store, now: int)
    ensures Aged(st, Created(cfg, st, now), now)
  {
    CreatedMembers(cfg, st, now);
    var st' := Created(cfg, st, now);
    forall s' | s' in st'.segments
      ensures Among(s', st.segments) || (st.activeIndex < s'.index <= st'.activeIndex && s'.createdAt == now)
    {
      if s' in st.segments {
        IsAmong(s', s', st.segments);
      }
    }
  }

  lemma TouchedAged(cfg: Config, st: Store, now: int)
    ensures Aged(st, Touched(cfg, st, now), now) && Touched(cfg, st, now).activeIndex <= st.activeIndex + 1
  {
    if st.segments == [] {
      CreatedAged(cfg, st, now);
    } else {
      Unchanged(st, st, now);
    }
  }

  lemma {:induction false} TrimmedAged(cfg: Config, st: Store, now: int)
    ensures Aged(st, Trimmed(cfg, st), now) && Trimmed(cfg, st).activeIndex == st.activeIndex
    ensures Trimmed(cfg, st).segments == [] <==> cfg.maxSegments == 0 || st.segments == []
    decreases |st.segments|
  {
    if |st.segments| > cfg.maxSegments {
      TrimmedAged(cfg, TrimOne(st), now);
      Unchanged(st, TrimOne(st), now);
      AgedTransitive(st, TrimOne(st), Trimmed(cfg, st), now);
    } else {
      Unchanged(st, st, now);
    }
  }

  lemma GrownAged(st: Store, bytes: nat, now: int)
    requires st.segments != []
    ensures Aged(st, Grown(st, bytes), now)
  {
    forall s' | s' in Grown(st, bytes).segments ensures Among(s', st.segments) {
      var k :| 0 <= k < |st.segments| && Grown(st, bytes).segments[k] == s';
      IsAmong(st.segments[k], s', st.segments);
    }
  }

  /** A rotation dates what it creates `now`, or `later` in a window without room. */
  lemma RotatedAged(cfg: Config, st: Store, now: int, later: int)
    ensures var st' := Rotated(cfg, st, now, later);
            if cfg.maxSegments > 0 then Aged(st, st', now)
            else st'.activeIndex == st.activeIndex + 2 && |st'.segments| == 1
                 && st'.segments[0].index == st'.activeIndex && st'.segments[0].createdAt == later
  {
    var created := Created(cfg, st, now);
    var trimmed := Trimmed(cfg, created);
    CreatedAged(cfg, st, now);
    TrimmedAged(cfg, created, now);
    hide Trimmed;
    AgedTransitive(st, created, trimmed, now);
  }

  /** A write dates the segment it may have to create first, and the one of a rotation, `now` as well. */
  lemma RecordedAged(cfg: Config, st: Store, bytes: nat, now: int, later: int)
    requires cfg.maxSegments > 0
    ensures Aged(st, Recorded(cfg, st, bytes, now, later), now)
  {
    hide Aged, Rotated, Created;
    var touched := Touched(cfg, st, now);
    var grown := Grown(touched, bytes);
    TouchedAged(cfg, st, now);
    GrownAged(touched, bytes, now);
    AgedTransitive(st, touched, grown, now);
    RotatedAged(cfg, grown, now, later);
    if Active(grown).sizeBytes >= SEGMENT_SIZE_BYTES {
      AgedTransitive(st, grown, Rotated(cfg, grown, now, later), now);
    }
  }

  /** Of the segments after an operation, each was there before or has the clock reading of its creation. */
  lemma StepAged(x: Setup, w: Wal, op: WalOp)
    ensures var st, st' := w.spill.store, WalStep(x, w, op).spill.store;
            && st.activeIndex <= st'.activeIndex
            && forall s' | s' in st'.segments ::
                 || Among(s', st.segments)
                 || (&& st.activeIndex < s'.index <= st'.activeIndex
                     && s'.createdAt == Reading(x, op, st.activeIndex, st'.activeIndex, s'.index))
  {
    hide Aged, Rotated, Among;
    var st, st' := w.spill.store, WalStep(x, w, op).spill.store;
    match op
    case AppendRecord(r, now, later) =>
      if Encodable(r) {
        AppendAged(x, w, r, now, later);
      } else {
        Unchanged(st, st', now);
        AgedIs(st, st', now);
      }
    case RotateSegment(now, later) =>
      RotatedAged(x.cfg, st, now, later);
      if x.cfg.maxSegments > 0 {
        AgedIs(st, st', now);
      }
    case TouchSegment(now) =>
      TouchedAged(x.cfg, st, now);
      AgedIs(st, st', now);
    case SpillStale(now) =>
      SpillAllShrinks(x, w.spill, OlderThan(st.segments, now - ARCHIVE_SPILL_AGE_MS));
      Unchanged(st, st', now);
      AgedIs(st, st', now);
  }

  lemma AgedIs(st: Store, st': Store, now: int)
    requires Aged(st, st', now)
    ensures st.activeIndex <= st'.activeIndex
    ensures forall s' | s' in st'.segments ::
              Among(s', st.segments) || (st.activeIndex < s'.index <= st'.activeIndex && s'.createdAt == now)
  {
  }

  lemma AppendAged(x: Setup, w: Wal, r: WalRecord, now: int, later: int)
    requires Encodable(r)
    ensures var op := AppendRecord(r, now, later);
            var st, st' := w.spill.store, WalStep(x, w, op).spill.store;
            && st.activeIndex <= st'.activeIndex
            && forall s' | s' in st'.segments ::
                 || Among(s', st.segments)
                 || (&& st.activeIndex < s'.index <= st'.activeIndex
                     && s'.createdAt == Reading(x, op, st.activeIndex, st'.activeIndex, s'.index))
  {
    hide Aged, Rotated, Among, Created;
    var st := w.spill.store;
    var touched := Touched(x.cfg, st, now);
    var written := WithBytes(touched, Active(touched).path, Frame(r));
    var grown := Grown(written, |Frame(r)|);
    TouchedAged(x.cfg, st, now);
    Unchanged(touched, written, now);
    GrownAged(written, |Frame(r)|, now);
    AgedTransitive(st, touched, written, now);
    AgedTransitive(st, written, grown, now);
    AgedIs(st, grown, now);
    RotatedAged(x.cfg, grown, now, later);
    if x.cfg.maxSegments > 0 {
      AgedTransitive(st, grown, Rotated(x.cfg, grown, now, later), now);
      AgedIs(st, Rotated(x.cfg, grown, now, later), now);
    }
  }

  lemma {:induction false} SpillAllShrinks(x: Setup, sp: Spill, stale: seq<Segment>)
    ensures var sp' := SpillAll(x.archiveDir, x.compress, sp, stale);
            && sp'.store.activeIndex == sp.store.activeIndex
            && (forall s | s in sp'.store.segments :: s in sp.store.segments)
            && sp'.archived == sp.archived + IndexSeq(stale)
  {
    if stale == [] {
      assert sp.archived + [] == sp.archived;
    } else {
      var front, last := stale[..|stale| - 1], stale[|stale| - 1];
      SpillAllShrinks(x, sp, front);
      var before := SpillAll(x.archiveDir, x.compress, sp, front);
      RemovedShrinks(before.store, last.index);
      assert sp.archived + IndexSeq(front) + [last.index] == sp.archived + (IndexSeq(front) + [last.index]);
    }
  }

  lemma RemovedShrinks(st: Store, index: nat)
    ensures Removed(st, index).activeIndex == st.activeIndex
    ensures forall s | s in Removed(st, index).segments :: s in st.segments
  {
  }

  /**
   Over every run: each retained segment carries the clock reading of the operation that first raised
   the highest index to its index.
   */
  lemma {:induction false} CreationTimes(x: Setup, ops: seq<WalOp>)
    ensures forall s | s in WalRun(x, ops).spill.store.segments ::
              0 < s.index <= ActiveAfter(x, ops) && s.createdAt == BornAt(x, ops, s.index)
  {
    hide WalStep, Reading, Among;
    if ops != [] {
      var front, op := ops[..|ops| - 1], ops[|ops| - 1];
      CreationTimes(x, front);
      var w := WalRun(x, front);
      StepAged(x, w, op);
      forall s' | s' in WalStep(x, w, op).spill.store.segments
        ensures 0 < s'.index <= ActiveAfter(x, ops) && s'.createdAt == BornAt(x, ops, s'.index)
      {
        if Among(s', w.spill.store.segments) {
          var s := TheKin(s', w.spill.store.segments);
        }
      }
    }
  }

  lemma TheKin(s': Segment, segs: seq<Segment>) returns (s: Segment)
    requires Among(s', segs)
    ensures s in segs && s.index == s'.index && s.createdAt == s'.createdAt
  {
    s :| s in segs && Kin(s, s');
  }

  /**
   A spill after any run with a clock that never goes back archives exactly the retained segments
   whose creating operation read a clock more than 300 seconds before, oldest first, and keeps all
   others.
   */
  lemma SpillsByAge(x: Setup, ops: seq<WalOp>, now: int) returns (k: nat)
    requires Clocked(ops + [SpillStale(now)])
    ensures var w, w' := WalRun(x, ops), WalRun(x, ops + [SpillStale(now)]);
            var segs := w.spill.store.segments;
            && k <= |segs|
            && (forall i | 0 <= i < |segs| ::
                  && 0 < segs[i].index <= ActiveAfter(x, ops)
                  && (i < k <==> now - BornAt(x, ops, segs[i].index) > 300_000))
            && w'.spill.archived == w.spill.archived + IndexSeq(segs[..k])
            && w'.spill.store.segments == segs[k..]
  {
    hide *;
    LastSpill(ops, now);
    FiveMinutes();
    var clock := RunKeeps(x, ops);
    var w := WalRun(x, ops);
    var segs := w.spill.store.segments;
    CreationTimes(x, ops);
    InOrderOfCreation(x, w, clock);
    k := OldestByAge(segs, now - ARCHIVE_SPILL_AGE_MS);
    forall i | 0 <= i < |segs|
      ensures 0 < segs[i].index <= ActiveAfter(x, ops)
      ensures i < k <==> now - BornAt(x, ops, segs[i].index) > 300_000
    {
      assert segs[i] in segs;
    }
    LastStep(x, ops, now);
    SpillStaleIs(x, w, now);
    SpillAllShrinks(x, w.spill, segs[..k]);
    SpillPrefixKeeps(x, w, k, clock);
  }

  lemma FiveMinutes()
    ensures ARCHIVE_SPILL_AGE_MS == 300_000
  {
  }

  lemma LastSpill(ops: seq<WalOp>, now: int)
    requires Clocked(ops + [SpillStale(now)])
    ensures Clocked(ops)
  {
    var all := ops + [SpillStale(now)];
    assert forall i | 0 <= i < |ops| :: ops[i] == all[i];
  }

  lemma LastStep(x: Setup, ops: seq<WalOp>, now: int)
    ensures WalRun(x, ops + [SpillStale(now)]) == WalStep(x, WalRun(x, ops), SpillStale(now))
  {
    hide WalStep;
    var all := ops + [SpillStale(now)];
    assert all[..|ops|] == ops && all[|ops|] == SpillStale(now);
  }

  lemma OldestByAge(segs: seq<Segment>, cutoff: int) returns (k: nat)
    requires forall i, j | 0 <= i < j < |segs| ::
               segs[i].index < segs[j].index && segs[i].createdAt <= segs[j].createdAt
    ensures k <= |segs| && OlderThan(segs, cutoff) == segs[..k]
    ensures forall i | 0 <= i < |segs| :: i < k <==> segs[i].createdAt < cutoff
  {
    hide OlderThan;
    k := StaleIsPrefix(segs, cutoff);
    OlderThanMembers(segs, cutoff);
    forall i | 0 <= i < |segs| ensures i < k <==> segs[i].createdAt < cutoff {
      assert segs[i] in segs;
      if i < k {
        assert segs[..k][i] == segs[i];
      }
    }
  }

  lemma InOrderOfCreation(x: Setup, w: Wal, clock: int)
    requires Inv(x, w, clock)
    ensures var segs := w.spill.store.segments;
            forall i, j | 0 <= i < j < |segs| ::
              segs[i].index < segs[j].index && segs[i].createdAt <= segs[j].createdAt
  {
    hide FilesOk, ArchivesOk, HistoryOk;
  }
}
