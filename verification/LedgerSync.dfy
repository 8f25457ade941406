/** Spilling stale segments to archives and replaying them (src/ledger/ledger-sync-protocol.ts). */
module LedgerSync {
  import opened Common
  import opened WalFrames
  import opened SegmentStore
  import opened AckWatermarks
  import Decimal

  const ARCHIVE_SPILL_AGE_MS := 5 * 60 * 1000

  const ARCHIVE_SUFFIX := ".wal.zst"

  function ArchiveName(dir: string, index: nat): string {
    dir + "/wal-" + Padded(index) + ARCHIVE_SUFFIX
  }

  predicate IsArchive(name: string) {
    |name| >= |ARCHIVE_SUFFIX| && name[|name| - |ARCHIVE_SUFFIX|..] == ARCHIVE_SUFFIX
  }

  type Coding = seq<Byte> -> seq<Byte>

  /** The segments, the archived files, and the indices archived so far in order. */
  datatype Spill = Spill(store: Store, archives: Files, archived: seq<nat>)

  /** Archives one segment and takes it out of the window. */
  function SpillOne(dir: string, compress: Coding, sp: Spill, seg: Segment): Spill {
    var raw := Get(sp.store.files, seg.path, []);
    Spill(Removed(sp.store, seg.index), sp.archives[ArchiveName(dir, seg.index) := compress(raw)],
          sp.archived + [seg.index])
  }

  function SpillAll(dir: string, compress: Coding, sp: Spill, stale: seq<Segment>): Spill {
    if stale == [] then sp
    else SpillOne(dir, compress, SpillAll(dir, compress, sp, stale[..|stale| - 1]), stale[|stale| - 1])
  }

  /** How one step of a spill ends: done, stopped before its archive was written, or before its file was deleted. */
  datatype StepFate = Done | NotArchived | NotDeleted

  function SpillStep(dir: string, compress: Coding, sp: Spill, seg: Segment, fate: StepFate): Spill {
    match fate
    case Done => SpillOne(dir, compress, sp, seg)
    case NotArchived => sp
    case NotDeleted => SpillOne(dir, compress, sp, seg).(store := Unlisted(sp.store, seg.index))
  }

  predicate StepSucceeds(sp: Spill, seg: Segment, fate: StepFate) {
    fate.Done? || (fate.NotDeleted? && Position(sp.store.segments, seg.index) == |sp.store.segments|)
  }

  /** A failed step does not stop the ones after it; what is counted are the successful ones. */
  function SpillEach(dir: string, compress: Coding, sp: Spill, stale: seq<Segment>,
      fates: nat -> StepFate): (r: (Spill, nat))
    ensures r.1 <= |stale|
  {
    if stale == [] then (sp, 0)
    else
      var i := |stale| - 1;
      var (before, count) := SpillEach(dir, compress, sp, stale[..i], fates);
      (SpillStep(dir, compress, before, stale[i], fates(i)),
       if StepSucceeds(before, stale[i], fates(i)) then count + 1 else count)
  }

  /** Without failures that is archiving each in turn, and counting them all. */
  lemma {:induction false} SpillWithoutFailures(dir: string, compress: Coding, sp: Spill, stale: seq<Segment>,
      fates: nat -> StepFate)
    requires forall i: nat | i < |stale| :: fates(i) == Done
    ensures SpillEach(dir, compress, sp, stale, fates) == (SpillAll(dir, compress, sp, stale), |stale|)
  {
    hide SpillOne;
    if stale != [] {
      SpillWithoutFailures(dir, compress, sp, stale[..|stale| - 1], fates);
    }
  }

  /** The segments whose step stopped before their archive was written. */
  function Failed(stale: seq<Segment>, fates: nat -> StepFate): (r: seq<Segment>)
    ensures forall s | s in r :: s in stale
  {
    if stale == [] then []
    else
      var i := |stale| - 1;
      var rest := Failed(stale[..i], fates);
      if fates(i) == NotArchived then rest + [stale[i]] else rest
  }

  predicate DistinctIndices(segs: seq<Segment>) {
    forall i, j | 0 <= i < j < |segs| :: segs[i].index != segs[j].index
  }

  lemma RemovedAt(st: Store, before: seq<Segment>, seg: Segment, after: seq<Segment>)
    requires st.segments == before + [seg] + after && forall s | s in before :: s.index != seg.index
    ensures Removed(st, seg.index).segments == before + after
    ensures Position(st.segments, seg.index) == |before|
  {
    assert st.segments[|before|] == seg;
    assert forall i | 0 <= i < |before| :: st.segments[i] == before[i] && before[i] in before;
  }

  lemma NotAmongEarlier(segs: seq<Segment>, k: nat)
    requires DistinctIndices(segs) && k < |segs|
    ensures forall s | s in segs[..k] :: s.index != segs[k].index
  {
    forall s | s in segs[..k] ensures s.index != segs[k].index {
      var i :| 0 <= i < k && segs[..k][i] == s;
      assert segs[i] == s;
    }
  }

  /** A spill of the oldest segments leaves exactly those whose step failed before the archive, and all newer ones. */
  lemma {:induction false} SpilledExactly(dir: string, compress: Coding, sp: Spill, k: nat, fates: nat -> StepFate)
    requires k <= |sp.store.segments| && DistinctIndices(sp.store.segments)
    ensures var segs := sp.store.segments;
            SpillEach(dir, compress, sp, segs[..k], fates).0.store.segments == Failed(segs[..k], fates) + segs[k..]
  {
    hide SpillEach, SpillStep, Failed, DistinctIndices;
    var segs := sp.store.segments;
    NothingSpilled(dir, compress, sp, fates);
    if k == 0 {
      assert segs[..0] == [] && [] + segs[0..] == segs;
    } else {
      var i := k - 1;
      var stale, seg := segs[..k], segs[i];
      assert stale[..i] == segs[..i] && stale[i] == seg;
      SpilledExactly(dir, compress, sp, i, fates);
      LastStep(dir, compress, sp, stale, fates);
      NotAmongEarlier(segs, i);
      var failed := Failed(segs[..i], fates);
      assert failed + segs[i..] == failed + [seg] + segs[k..];
      StepLeaves(dir, compress, SpillEach(dir, compress, sp, segs[..i], fates).0, failed, seg, segs[k..], fates(i));
    }
  }

  lemma NothingSpilled(dir: string, compress: Coding, sp: Spill, fates: nat -> StepFate)
    ensures SpillEach(dir, compress, sp, [], fates) == (sp, 0) && Failed([], fates) == []
  {
  }

  lemma StepLeaves(dir: string, compress: Coding, sp: Spill, failed: seq<Segment>, seg: Segment, newer: seq<Segment>,
      fate: StepFate)
    requires sp.store.segments == failed + [seg] + newer && forall s | s in failed :: s.index != seg.index
    ensures SpillStep(dir, compress, sp, seg, fate).store.segments
            == failed + (if fate == NotArchived then [seg] else []) + newer
  {
    hide Position;
    RemovedAt(sp.store, failed, seg, newer);
    assert failed + [] == failed;
  }

  lemma OneMoreSpilled(dir: string, compress: Coding, sp: Spill, stale: seq<Segment>, i: nat, fates: nat -> StepFate)
    requires i < |stale|
    ensures var (before, count) := SpillEach(dir, compress, sp, stale[..i], fates);
            SpillEach(dir, compress, sp, stale[..i + 1], fates) ==
              (SpillStep(dir, compress, before, stale[i], fates(i)),
               if StepSucceeds(before, stale[i], fates(i)) then count + 1 else count)
  {
    hide SpillStep, StepSucceeds;
    assert stale[..i + 1][..i] == stale[..i];
  }

  lemma LastStep(dir: string, compress: Coding, sp: Spill, stale: seq<Segment>, fates: nat -> StepFate)
    requires stale != []
    ensures var i := |stale| - 1;
            && SpillEach(dir, compress, sp, stale, fates).0
               == SpillStep(dir, compress, SpillEach(dir, compress, sp, stale[..i], fates).0, stale[i], fates(i))
            && Failed(stale, fates) == Failed(stale[..i], fates) + if fates(i) == NotArchived then [stale[i]] else []
  {
    hide SpillStep, StepSucceeds;
  }

  /** The steps among the first `k` that are done. */
  function DoneAmong(k: nat, fates: nat -> StepFate): nat {
    if k == 0 then 0 else DoneAmong(k - 1, fates) + if fates(k - 1) == Done then 1 else 0
  }

  /** The indices of those of the first `k` segments that were archived. */
  function ArchivedAmong(segs: seq<Segment>, k: nat, fates: nat -> StepFate): seq<nat>
    requires k <= |segs|
  {
    if k == 0 then []
    else ArchivedAmong(segs, k - 1, fates) + if fates(k - 1) == NotArchived then [] else [segs[k - 1].index]
  }

  /** What is counted are the steps that archived a segment and deleted its file; a file that stays does not count. */
  lemma {:induction false} SpillCounts(dir: string, compress: Coding, sp: Spill, k: nat, fates: nat -> StepFate)
    requires k <= |sp.store.segments| && DistinctIndices(sp.store.segments)
    ensures var segs := sp.store.segments;
            var (after, count) := SpillEach(dir, compress, sp, segs[..k], fates);
            count == DoneAmong(k, fates) && after.archived == sp.archived + ArchivedAmong(segs, k, fates)
  {
    hide SpillEach, SpillStep, StepSucceeds, Failed, DistinctIndices;
    var segs := sp.store.segments;
    NothingSpilled(dir, compress, sp, fates);
    if k == 0 {
      assert segs[..0] == [] && sp.archived + [] == sp.archived;
    } else {
      var i := k - 1;
      var stale, seg := segs[..k], segs[i];
      assert stale[..i] == segs[..i] && stale[i] == seg && stale[..k] == stale;
      SpillCounts(dir, compress, sp, i, fates);
      SpilledExactly(dir, compress, sp, i, fates);
      OneMoreSpilled(dir, compress, sp, stale, i, fates);
      NotAmongEarlier(segs, i);
      var failed := Failed(segs[..i], fates);
      assert failed + segs[i..] == failed + [seg] + segs[k..];
      StepCounts(dir, compress, SpillEach(dir, compress, sp, segs[..i], fates).0, failed, seg, segs[k..], fates(i));
      Joined(sp.archived, ArchivedAmong(segs, i, fates), if fates(i) == NotArchived then [] else [seg.index]);
    }
  }

  lemma Joined(a: seq<nat>, b: seq<nat>, c: seq<nat>)
    ensures a + b + c == a + (b + c)
  {
  }

  lemma StepCounts(dir: string, compress: Coding, sp: Spill, failed: seq<Segment>, seg: Segment, newer: seq<Segment>,
      fate: StepFate)
    requires sp.store.segments == failed + [seg] + newer && forall s | s in failed :: s.index != seg.index
    ensures StepSucceeds(sp, seg, fate) <==> fate == Done
    ensures SpillStep(dir, compress, sp, seg, fate).archived ==
            sp.archived + if fate == NotArchived then [] else [seg.index]
  {
    hide Position, Removed;
    RemovedAt(sp.store, failed, seg, newer);
    assert sp.archived + [] == sp.archived;
  }

  /**
   When a failed step reopens an old segment: with something retained, the active segment after the
   spill is another one than before if and only if all segments were stale and the last of them was
   archived, so that an older one, whose step failed, is appended to again.
   */
  lemma OldSegmentReopenedIff(dir: string, compress: Coding, sp: Spill, k: nat, fates: nat -> StepFate)
    requires k <= |sp.store.segments| && DistinctIndices(sp.store.segments)
    requires var segs := sp.store.segments; Failed(segs[..k], fates) + segs[k..] != []
    ensures var segs := sp.store.segments;
            var after := SpillEach(dir, compress, sp, segs[..k], fates).0.store;
            && after.segments != []
            && (Active(after).index != segs[|segs| - 1].index <==> k == |segs| && fates(k - 1) != NotArchived)
  {
    hide SpillEach, Failed, DistinctIndices, SpillStep;
    SpilledExactly(dir, compress, sp, k, fates);
    NothingSpilled(dir, compress, sp, fates);
    var segs := sp.store.segments;
    var failed := Failed(segs[..k], fates);
    if k == |segs| {
      assert segs[k..] == [] && failed + [] == failed;
      assert segs[..k] == segs;
      var earlier := Failed(segs[..k - 1], fates);
      NotAmongEarlier(segs, k - 1);
      assert segs[..k][..k - 1] == segs[..k - 1];
      LastStep(dir, compress, sp, segs[..k], fates);
      if fates(k - 1) != NotArchived {
        assert failed == earlier;
        assert failed[|failed| - 1] in earlier;
      }
    }
  }

  /**
   It happens: after one rotation both segments grow stale, archiving the older one fails and the newer
   one is archived; then the older, closed one is active again.
   */
  lemma OldSegmentIsReopened(cfg: Config, dir: string, compress: Coding, start: int, now: int)
    requires cfg.maxSegments >= 2 && start < now - ARCHIVE_SPILL_AGE_MS
    ensures var store := Rotated(cfg, Touched(cfg, Store([], 0, map[], {}), start), start, start);
            var stale := OlderThan(store.segments, now - ARCHIVE_SPILL_AGE_MS);
            var fates := (i: nat) => if i == 0 then NotArchived else Done;
            var after := SpillEach(dir, compress, Spill(store, map[], []), stale, fates).0.store;
            && Active(store).index == 2
            && after.segments != [] && Active(after).index == 1
  {
    hide SpillEach;
    var first := Touched(cfg, Store([], 0, map[], {}), start);
    var store := Rotated(cfg, first, start, start);
    var one, two := Segment(1, SegmentPath(cfg.segmentDir, 1), 0, start),
        Segment(2, SegmentPath(cfg.segmentDir, 2), 0, start);
    hide SegmentPath;
    assert first.segments == [one];
    assert store.segments == [one, two];
    var fates := (i: nat) => if i == 0 then NotArchived else Done;
    var cutoff := now - ARCHIVE_SPILL_AGE_MS;
    assert [one, two][..1] == [one] && [one][..0] == [];
    assert OlderThan([one], cutoff) == [one];
    assert OlderThan(store.segments, cutoff) == [one, two] == store.segments[..2];
    SpilledExactly(dir, compress, Spill(store, map[], []), 2, fates);
    assert Failed([one], fates) == [one];
    assert Failed([one, two], fates) == [one];
    assert store.segments[2..] == [];
  }

  // --- the order of archives ---

  function OnlyArchives(names: seq<string>): (r: seq<string>)
    ensures forall n :: n in r <==> n in names && IsArchive(n)
  {
    if names == [] then []
    else
      var r := OnlyArchives(names[..|names| - 1]);
      if IsArchive(names[|names| - 1]) then r + [names[|names| - 1]] else r
  }

  /** The default sort of strings. */
  function Sort(names: seq<string>): (r: seq<string>)
    ensures forall n :: n in r <==> n in names
  {
    if names == [] then [] else Insert(Sort(names[..|names| - 1]), names[|names| - 1])
  }

  function Insert(sorted: seq<string>, name: string): (r: seq<string>)
    ensures forall n :: n in r <==> n in sorted || n == name
  {
    if sorted == [] then [name]
    else if Decimal.Less(name, sorted[0]) then [name] + sorted
    else
      var r := [sorted[0]] + Insert(sorted[1..], name);
      assert forall n :: n in sorted <==> n == sorted[0] || n in sorted[1..];
      r
  }

  // --- replaying ---

  function ReplayNames(decompress: Coding, archives: Files, names: seq<string>): seq<WalRecord>
    requires forall n | n in names :: n in archives
  {
    if names == [] then []
    else ReplayNames(decompress, archives, names[..|names| - 1]) + Decode(decompress(archives[names[|names| - 1]]))
  }

  lemma {:induction false} MaxLsnConcat(a: seq<WalRecord>, b: seq<WalRecord>)
    ensures MaxLsn(a + b) == if MaxLsn(a) > MaxLsn(b) then MaxLsn(a) else MaxLsn(b)
  {
    MaxLsnBounds(a);
    if b == [] {
      assert a + b == a;
    } else {
      MaxLsnConcat(a, b[..|b| - 1]);
      assert (a + b)[..|a + b| - 1] == a + b[..|b| - 1];
    }
  }

  /** The highest LSN replayed so far, after each archive. */
  function Highs(decompress: Coding, archives: Files, names: seq<string>): seq<int>
    requires forall n | n in names :: n in archives
  {
    if names == [] then []
    else Highs(decompress, archives, names[..|names| - 1]) + [MaxLsn(ReplayNames(decompress, archives, names))]
  }

  /** Of some LSNs those above a watermark and above all before them. */
  function Raises(watermark: int, lsns: seq<int>): seq<int> {
    if lsns == [] then []
    else
      var raised, lsn := Raises(watermark, lsns[..|lsns| - 1]), lsns[|lsns| - 1];
      if lsn > Latest(watermark, raised) then raised + [lsn] else raised
  }

  function Latest(watermark: int, raised: seq<int>): int {
    if raised == [] then watermark else raised[|raised| - 1]
  }

  lemma NothingReplayed(decompress: Coding, archives: Files, watermark: int)
    ensures ReplayNames(decompress, archives, []) == [] && MaxLsn([]) == 0
    ensures Raises(watermark, Highs(decompress, archives, [])) == []
  {
  }

  lemma OneMoreArchive(decompress: Coding, archives: Files, names: seq<string>, watermark: int)
    requires names != [] && forall n | n in names :: n in archives
    ensures var front := names[..|names| - 1];
            var high, raised := MaxLsn(ReplayNames(decompress, archives, names)),
                Raises(watermark, Highs(decompress, archives, front));
            && ReplayNames(decompress, archives, names)
               == ReplayNames(decompress, archives, front) + Decode(decompress(archives[names[|names| - 1]]))
            && Raises(watermark, Highs(decompress, archives, names))
               == if high > Latest(watermark, raised) then raised + [high] else raised
  {
    hide MaxLsn, Decode;
    var before, all := Highs(decompress, archives, names[..|names| - 1]), Highs(decompress, archives, names);
    assert all[..|all| - 1] == before;
  }

  class LedgerSyncProtocol {
    const segmentManager: SegmentManager
    const watermark: AckWatermark
    const archiveDir: string
    const archives: Disk
    const compress: Coding
    const decompress: Coding
    ghost var archived: seq<nat>

    constructor (segmentManager: SegmentManager, watermark: AckWatermark, archiveDir: string, archives: Disk,
                 compress: Coding, decompress: Coding)
      ensures this.segmentManager == segmentManager && this.watermark == watermark && this.archiveDir == archiveDir
      ensures this.archives == archives && this.compress == compress && this.decompress == decompress && archived == []
    {
      this.segmentManager, this.watermark, this.archiveDir := segmentManager, watermark, archiveDir;
      this.archives, this.compress, this.decompress, archived := archives, compress, decompress, [];
    }

    ghost function State(): Spill
      reads this, segmentManager, segmentManager.disk, archives
    {
      Spill(segmentManager.State(), archives.files, archived)
    }

    /** `fates` says how each step ends; a failed one is reported and the loop goes on. */
    method SpillToArchive(now: int, fates: nat -> StepFate) returns (count: nat)
      requires archives != segmentManager.disk
      modifies this, segmentManager, segmentManager.disk, archives
      ensures var stale := OlderThan(old(segmentManager.segments), now - ARCHIVE_SPILL_AGE_MS);
              (State(), count) == SpillEach(archiveDir, compress, old(State()), stale, fates)
    {
      hide SpillEach, SpillStep, StepSucceeds, OlderThan, OldOnes;
      var stale := segmentManager.GetSegmentsOlderThan(ARCHIVE_SPILL_AGE_MS, now);
      count := 0;
      NothingSpilled(archiveDir, compress, State(), fates);
      assert stale[..0] == [];
      for i := 0 to |stale|
        invariant (State(), count) == SpillEach(archiveDir, compress, old(State()), stale[..i], fates)
      {
        OneMoreSpilled(archiveDir, compress, old(State()), stale, i, fates);
        var ok := SpillSegment(stale[i], fates(i));
        if ok {
          count := count + 1;
        }
      }
      assert stale[..|stale|] == stale;
    }

    /** One step of the loop: archive, then remove. */
    method SpillSegment(seg: Segment, fate: StepFate) returns (ok: bool)
      requires archives != segmentManager.disk
      modifies this`archived, segmentManager, segmentManager.disk, archives
      ensures State() == SpillStep(archiveDir, compress, old(State()), seg, fate)
      ensures ok == StepSucceeds(old(State()), seg, fate)
    {
      if fate == NotArchived {
        return false;
      }
      ArchiveSegment(seg);
      ok := segmentManager.RemoveSegment(seg.index, fate == Done);
    }

    method ArchiveSegment(seg: Segment)
      requires archives != segmentManager.disk
      modifies this`archived, archives
      ensures archives.files == old(archives.files)[ArchiveName(archiveDir, seg.index) :=
                compress(Get(segmentManager.disk.files, seg.path, []))]
      ensures archived == old(archived) + [seg.index]
    {
      var raw := segmentManager.disk.ReadSegment(seg.path);
      archives.WriteFile(ArchiveName(archiveDir, seg.index), compress(raw));
      archived := archived + [seg.index];
    }

    /**
     Replays every archive of a directory listing, in whatever order the listing comes. The watermark
     catches up with the highest LSN replayed; without archives it is left alone.
     */
    method ReplayFromArchive(listing: seq<string>) returns (highestLsn: int, delivered: seq<WalRecord>)
      requires forall n | n in listing :: n in archives.files
      modifies watermark
      ensures delivered == ReplayNames(decompress, archives.files, Sort(OnlyArchives(listing)))
      ensures highestLsn == MaxLsn(delivered)
      ensures if Sort(OnlyArchives(listing)) == [] then unchanged(watermark)
              else watermark.watermark == Max(old(watermark.watermark), highestLsn)
      ensures watermark.State() == if watermark.watermark == old(watermark.watermark) then old(watermark.State())
                                   else old(watermark.State()).(watermark := highestLsn, pendingLsn := highestLsn,
                                                                pendingCount := 0)
      ensures watermark.advances == old(watermark.advances) +
                Raises(old(watermark.watermark), Highs(decompress, archives.files, Sort(OnlyArchives(listing))))
    {
      hide Sort, OnlyArchives, Decode, ReplayNames, Highs, Raises, MaxLsn;
      var names := Sort(OnlyArchives(listing));
      highestLsn, delivered := 0, [];
      NothingReplayed(decompress, archives.files, watermark.watermark);
      for i := 0 to |names|
        invariant delivered == ReplayNames(decompress, archives.files, names[..i])
        invariant highestLsn == MaxLsn(delivered)
        invariant i == 0 ==> unchanged(watermark)
        invariant i > 0 ==> watermark.watermark == Max(old(watermark.watermark), highestLsn)
        invariant watermark.State() == if watermark.watermark == old(watermark.watermark) then old(watermark.State())
                                       else old(watermark.State()).(watermark := highestLsn, pendingLsn := highestLsn,
                                                                    pendingCount := 0)
        invariant var raised := Raises(old(watermark.watermark), Highs(decompress, archives.files, names[..i]));
                  && watermark.advances == old(watermark.advances) + raised
                  && watermark.watermark == Latest(old(watermark.watermark), raised)
      {
        assert names[..i + 1][..i] == names[..i];
        OneMoreArchive(decompress, archives.files, names[..i + 1], old(watermark.watermark));
        var raw := decompress(archives.files[names[i]]);
        var records, highLsn := ReplayRaw(raw);
        MaxLsnConcat(delivered, records);
        delivered := delivered + records;
        if highLsn > highestLsn {
          highestLsn := highLsn;
        }
        ghost var before := watermark.advances;
        watermark.ForceAdvance(highestLsn);
        assert watermark.advances == before + [] || watermark.advances == before + [highestLsn];
      }
      assert names[..|names|] == names;
    }
  }

  // --- lexicographic order is index order, up to ten digits ---

  const INDEX_LIMIT := 10_000_000_000

  lemma TenDigits()
    ensures Decimal.Pow10(10) == INDEX_LIMIT
  {
    assert Decimal.Pow10(3) == 1000;
    assert Decimal.Pow10(6) == 1000 * Decimal.Pow10(3);
    assert Decimal.Pow10(9) == 1000 * Decimal.Pow10(6);
    assert Decimal.Pow10(10) == 10 * Decimal.Pow10(9);
  }

  lemma NamesOrdered(dir: string, i: nat, j: nat)
    requires i < INDEX_LIMIT && j < INDEX_LIMIT
    ensures Decimal.Less(ArchiveName(dir, i), ArchiveName(dir, j)) <==> i < j
  {
    TenDigits();
    Decimal.PaddedText(i, 10);
    Decimal.PaddedText(j, 10);
    Decimal.PaddedOrder(i, j, 10);
    var p := dir + "/wal-";
    assert ArchiveName(dir, i) == p + (Padded(i) + ARCHIVE_SUFFIX);
    assert ArchiveName(dir, j) == p + (Padded(j) + ARCHIVE_SUFFIX);
    Decimal.LessAfterPrefix(p, Padded(i) + ARCHIVE_SUFFIX, Padded(j) + ARCHIVE_SUFFIX);
    if i != j {
      Decimal.LessBeforeSuffix(Padded(i), Padded(j), ARCHIVE_SUFFIX, ARCHIVE_SUFFIX);
    } else {
      Decimal.LessIrreflexive(Padded(i) + ARCHIVE_SUFFIX);
    }
  }

  /** The name of the first eleven-digit index sorts before the last ten-digit one. */
  lemma ElevenDigitsSortWrong(dir: string)
    ensures Decimal.Less(ArchiveName(dir, INDEX_LIMIT), ArchiveName(dir, INDEX_LIMIT - 1))
  {
    TenDigits();
    var a, b := Decimal.ToText(INDEX_LIMIT), Decimal.ToText(INDEX_LIMIT - 1);
    ScaledNine(1);
    ScaledNine(2);
    ScaledNine(9);
    ScaledNine(10);
    FirstDigit(INDEX_LIMIT, 10, 1);
    FirstDigit(INDEX_LIMIT - 1, 9, 9);
    Decimal.TextLength(INDEX_LIMIT, 10);
    Decimal.TextLength(INDEX_LIMIT - 1, 9);
    Decimal.TextLength(INDEX_LIMIT - 1, 10);
    assert Padded(INDEX_LIMIT) == a && Padded(INDEX_LIMIT - 1) == b;
    var p := dir + "/wal-";
    assert ArchiveName(dir, INDEX_LIMIT) == p + (a + ARCHIVE_SUFFIX);
    assert ArchiveName(dir, INDEX_LIMIT - 1) == p + (b + ARCHIVE_SUFFIX);
    Decimal.LessAfterPrefix(p, a + ARCHIVE_SUFFIX, b + ARCHIVE_SUFFIX);
  }

  function Scaled(d: nat, k: nat): nat {
    if k == 0 then d else 10 * Scaled(d, k - 1)
  }

  /** A number of k + 1 digits between d * 10^k and (d + 1) * 10^k starts with the digit d. */
  lemma {:induction false} FirstDigit(n: nat, k: nat, d: nat)
    requires 1 <= d <= 9 && Scaled(d, k) <= n < Scaled(d + 1, k)
    ensures |Decimal.ToText(n)| > 0 && Decimal.ToText(n)[0] == Decimal.DigitChar(d)
  {
    if k > 0 {
      ScaledPositive(d, k - 1);
      FirstDigit(n / 10, k - 1, d);
    }
  }

  lemma {:induction false} ScaledPositive(d: nat, k: nat)
    requires d >= 1
    ensures Scaled(d, k) >= 1
  {
    if k > 0 {
      ScaledPositive(d, k - 1);
    }
  }

  lemma ScaledNine(d: nat)
    ensures Scaled(d, 9) == 1_000_000_000 * d && Scaled(d, 10) == INDEX_LIMIT * d
  {
    assert Scaled(d, 1) == 10 * d;
    assert Scaled(d, 2) == 100 * d;
    assert Scaled(d, 4) == 100 * Scaled(d, 2);
    assert Scaled(d, 6) == 100 * Scaled(d, 4);
    assert Scaled(d, 8) == 100 * Scaled(d, 6);
  }

  /** Archive names sort in index order for all indices below a bound exactly when it is at most 10^10. */
  lemma NamesOrderedIff(dir: string, bound: nat)
    ensures (forall i, j | 0 <= i < j < bound :: Decimal.Less(ArchiveName(dir, i), ArchiveName(dir, j)))
            <==> bound <= INDEX_LIMIT
  {
    if bound <= INDEX_LIMIT {
      forall i, j | 0 <= i < j < bound ensures Decimal.Less(ArchiveName(dir, i), ArchiveName(dir, j)) {
        NamesOrdered(dir, i, j);
      }
    } else {
      ElevenDigitsSortWrong(dir);
      Decimal.LessTrichotomy(ArchiveName(dir, INDEX_LIMIT - 1), ArchiveName(dir, INDEX_LIMIT));
      var i, j := INDEX_LIMIT - 1, INDEX_LIMIT;
      assert 0 <= i < j < bound && !Decimal.Less(ArchiveName(dir, i), ArchiveName(dir, j));
    }
  }
}
