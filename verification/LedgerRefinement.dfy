/**
 The write-ahead ledger as one log: whatever is appended, rotated, trimmed and spilled, replaying the
 archives and then reading the retained segments gives back the appended records in order, except
 those of trimmed segments (src/ledger/).
 */
module LedgerRefinement {
  import opened Common
  import opened WalFrames
  import opened SegmentStore
  import opened WalWriters
  import opened LedgerSync
  import Decimal

  datatype Setup = Setup(cfg: Config, archiveDir: string, compress: Coding, decompress: Coding)

  /** Decompressing gives back what was compressed. */
  ghost predicate Lossless(x: Setup) {
    forall bs: seq<Byte> :: x.decompress(x.compress(bs)) == bs
  }

  datatype Wal = Wal(spill: Spill, history: seq<Entry>)

  datatype WalOp =
    | AppendRecord(record: WalRecord, now: int, later: int)
    | RotateSegment(now: int, later: int)
    | TouchSegment(now: int)
    | SpillStale(now: int)

  function Start(op: WalOp): int { op.now }

  function End(op: WalOp): int {
    match op
    case AppendRecord(_, _, later) => later
    case RotateSegment(_, later) => later
    case TouchSegment(now) => now
    case SpillStale(now) => now
  }

  function WithStore(w: Wal, st: Store): Wal {
    w.(spill := w.spill.(store := st))
  }

  /** An append that is let through, a rotation, a look at the active segment, or a spill. */
  function WalStep(x: Setup, w: Wal, op: WalOp): Wal {
    var st := w.spill.store;
    match op
    case AppendRecord(r, now, later) =>
      if !Encodable(r) then w
      else
        Wal(w.spill.(store := WithFrame(x.cfg, st, r, now, later)),
            w.history + [Entry(r, Active(Touched(x.cfg, st, now)).index)])
    case RotateSegment(now, later) => WithStore(w, Rotated(x.cfg, st, now, later))
    case TouchSegment(now) => WithStore(w, Touched(x.cfg, st, now))
    case SpillStale(now) =>
      w.(spill := SpillAll(x.archiveDir, x.compress, w.spill, OlderThan(st.segments, now - ARCHIVE_SPILL_AGE_MS)))
  }

  const EMPTY_WAL := Wal(Spill(Store([], 0, map[], {}), map[], []), [])

  function WalRun(x: Setup, ops: seq<WalOp>): Wal {
    if ops == [] then EMPTY_WAL else WalStep(x, WalRun(x, ops[..|ops| - 1]), ops[|ops| - 1])
  }

  /** The clock never goes back. */
  predicate Clocked(ops: seq<WalOp>) {
    && (forall i | 0 <= i < |ops| :: Start(ops[i]) <= End(ops[i]))
    && (forall i, j | 0 <= i < j < |ops| :: End(ops[i]) <= Start(ops[j]))
  }

  // --- the abstract log ---

  predicate AllRecordsEncodable(history: seq<Entry>) {
    forall e | e in history :: Encodable(e.record)
  }

  /** The records appended to one segment. */
  function RecordsOf(history: seq<Entry>, i: nat): (rs: seq<WalRecord>)
    requires AllRecordsEncodable(history)
    ensures AllEncodable(rs)
  {
    if history == [] then []
    else
      var rest := RecordsOf(history[..|history| - 1], i);
      if history[|history| - 1].segment == i then rest + [history[|history| - 1].record] else rest
  }

  /** The records of a list of segments, one segment after the other. */
  function Collect(history: seq<Entry>, ks: seq<nat>): seq<WalRecord>
    requires AllRecordsEncodable(history)
  {
    if ks == [] then [] else Collect(history, ks[..|ks| - 1]) + RecordsOf(history, ks[|ks| - 1])
  }

  /** The appended records, in order, minus those of the trimmed segments. */
  function Kept(history: seq<Entry>, trimmed: set<nat>): seq<WalRecord> {
    if history == [] then []
    else
      var rest := Kept(history[..|history| - 1], trimmed);
      if history[|history| - 1].segment in trimmed then rest else rest + [history[|history| - 1].record]
  }

  predicate Ascending(ks: seq<nat>) {
    forall i, j | 0 <= i < j < |ks| :: ks[i] < ks[j]
  }

  predicate InSegmentOrder(history: seq<Entry>) {
    forall i, j | 0 <= i < j < |history| :: history[i].segment <= history[j].segment
  }

  lemma {:induction false} NoRecordsBeyond(history: seq<Entry>, i: nat)
    requires AllRecordsEncodable(history) && forall e | e in history :: e.segment != i
    ensures RecordsOf(history, i) == []
  {
    if history != [] {
      NoRecordsBeyond(history[..|history| - 1], i);
    }
  }

  lemma RecordsOfSnoc(history: seq<Entry>, e: Entry, i: nat)
    requires AllRecordsEncodable(history) && Encodable(e.record)
    ensures AllRecordsEncodable(history + [e])
    ensures RecordsOf(history + [e], i) == if e.segment == i then RecordsOf(history, i) + [e.record]
                                           else RecordsOf(history, i)
  {
    assert (history + [e])[..|history|] == history;
  }

  /** One more record for the last segment listed is one more record collected. */
  lemma {:induction false} CollectSnoc(history: seq<Entry>, e: Entry, ks: seq<nat>)
    requires AllRecordsEncodable(history) && Encodable(e.record) && Ascending(ks)
    requires forall h | h in history :: h.segment <= e.segment
    ensures AllRecordsEncodable(history + [e])
    ensures Collect(history + [e], ks) == if e.segment in ks then Collect(history, ks) + [e.record]
                                          else Collect(history, ks)
  {
    hide Collect, RecordsOf;
    RecordsOfSnoc(history, e, e.segment);
    if ks == [] {
      CollectEmpty(history);
      CollectEmpty(history + [e]);
    } else {
      var front, last := ks[..|ks| - 1], ks[|ks| - 1];
      assert ks == front + [last];
      CollectSnoc(history, e, front);
      CollectLast(history, ks);
      CollectLast(history + [e], ks);
      RecordsOfSnoc(history, e, last);
      if last > e.segment {
        NoRecordsBeyond(history, last);
        assert Collect(history, front) + [] == Collect(history, front);
        assert Collect(history, front) + [e.record] + [] == Collect(history, front) + [e.record];
      } else if last == e.segment {
        assert e.segment !in front;
        assert Collect(history, front) + (RecordsOf(history, last) + [e.record])
            == Collect(history, front) + RecordsOf(history, last) + [e.record];
      } else {
        assert e.segment !in ks;
      }
    }
  }

  lemma CollectEmpty(history: seq<Entry>)
    requires AllRecordsEncodable(history)
    ensures Collect(history, []) == []
  {
  }

  lemma CollectLast(history: seq<Entry>, ks: seq<nat>)
    requires AllRecordsEncodable(history) && ks != []
    ensures Collect(history, ks) == Collect(history, ks[..|ks| - 1]) + RecordsOf(history, ks[|ks| - 1])
  {
  }

  lemma {:induction false} CollectNothing(ks: seq<nat>)
    ensures Collect([], ks) == []
  {
    if ks != [] {
      CollectNothing(ks[..|ks| - 1]);
    }
  }

  /** Collecting every segment that was not trimmed gives exactly the kept records. */
  lemma {:induction false} CollectIsKept(history: seq<Entry>, ks: seq<nat>, trimmed: set<nat>)
    requires AllRecordsEncodable(history) && InSegmentOrder(history) && Ascending(ks)
    requires forall e | e in history :: e.segment in ks || e.segment in trimmed
    requires forall i | i in ks :: i !in trimmed
    ensures Collect(history, ks) == Kept(history, trimmed)
  {
    if history == [] {
      CollectNothing(ks);
    } else {
      var front, e := history[..|history| - 1], history[|history| - 1];
      assert history == front + [e];
      CollectIsKept(front, ks, trimmed);
      forall h | h in front ensures h.segment <= e.segment {
        var k :| 0 <= k < |front| && front[k] == h;
        assert history[k].segment <= history[|front|].segment;
      }
      CollectSnoc(front, e, ks);
    }
  }

  lemma {:induction false} CollectConcat(history: seq<Entry>, a: seq<nat>, b: seq<nat>)
    requires AllRecordsEncodable(history)
    ensures Collect(history, a + b) == Collect(history, a) + Collect(history, b)
  {
    if b == [] {
      assert a + b == a;
    } else {
      CollectConcat(history, a, b[..|b| - 1]);
      assert (a + b)[..|a + b| - 1] == a + b[..|b| - 1];
    }
  }

  // --- the invariant ---

  /** Indices strictly increase: archived ones, then the retained ones up to the active one. */
  ghost predicate Placed(sp: Spill) {
    var st := sp.store;
    && (forall i, j | 0 <= i < j < |st.segments| :: st.segments[i].index < st.segments[j].index)
    && Ascending(sp.archived)
    && (forall a, s | a in sp.archived && s in st.segments :: a < s.index)
    && (forall a | a in sp.archived :: a <= st.activeIndex && a !in st.trimmed)
    && (forall s | s in st.segments :: s.index <= st.activeIndex && s.index !in st.trimmed)
    && (forall t | t in st.trimmed :: t <= st.activeIndex)
    && (st.segments != [] ==> Active(st).index == st.activeIndex)
  }

  /** Segments were created in the order they are listed, none after `clock`. */
  ghost predicate Dated(st: Store, clock: int) {
    && (forall i, j | 0 <= i < j < |st.segments| :: st.segments[i].createdAt <= st.segments[j].createdAt)
    && (forall s | s in st.segments :: s.createdAt <= clock)
  }

  /** The file of each retained segment holds the frames of its records. */
  ghost predicate FilesOk(x: Setup, st: Store, history: seq<Entry>)
    requires AllRecordsEncodable(history)
  {
    && (forall s | s in st.segments ::
          s.path == SegmentPath(x.cfg.segmentDir, s.index)
              && Get(st.files, s.path, []) == Frames(RecordsOf(history, s.index)))
    && (forall i: nat | i > st.activeIndex :: SegmentPath(x.cfg.segmentDir, i) !in st.files)
  }

  /** The archives are exactly those of the archived segments, and hold their frames compressed. */
  ghost predicate ArchivesOk(x: Setup, sp: Spill, history: seq<Entry>)
    requires AllRecordsEncodable(history)
  {
    && (forall a | a in sp.archived ::
          var name := ArchiveName(x.archiveDir, a);
          name in sp.archives && sp.archives[name] == x.compress(Frames(RecordsOf(history, a))))
    && (forall n | n in sp.archives :: exists a | a in sp.archived :: n == ArchiveName(x.archiveDir, a))
  }

  /** Every appended record belongs to a trimmed, an archived or a retained segment. */
  ghost predicate HistoryOk(sp: Spill, history: seq<Entry>) {
    && AllRecordsEncodable(history) && InSegmentOrder(history)
    && (forall e | e in history ::
          && e.segment <= sp.store.activeIndex
          && (e.segment in sp.store.trimmed || e.segment in sp.archived || e.segment in Indices(sp.store.segments)))
  }

  ghost predicate Inv(x: Setup, w: Wal, clock: int) {
    && Placed(w.spill) && Dated(w.spill.store, clock) && HistoryOk(w.spill, w.history)
    && FilesOk(x, w.spill.store, w.history) && ArchivesOk(x, w.spill, w.history)
  }

  // --- each step keeps it ---

  lemma CreatedMembers(cfg: Config, st: Store, now: int)
    ensures var st' := Created(cfg, st, now);
            && (forall s :: s in st'.segments <==> s in st.segments || s == Active(st'))
            && Indices(st'.segments) == Indices(st.segments) + {st.activeIndex + 1}
  {
    var st' := Created(cfg, st, now);
    assert st'.segments == st.segments + [Active(st')];
  }

  lemma CreatedPlaced(x: Setup, sp: Spill, now: int, clock: int)
    requires Placed(sp) && Dated(sp.store, clock) && clock <= now
    ensures var st' := Created(x.cfg, sp.store, now); Placed(sp.(store := st')) && Dated(st', now)
  {
    CreatedMembers(x.cfg, sp.store, now);
    assert forall i | 0 <= i < |sp.store.segments| :: sp.store.segments[i] in sp.store.segments;
  }

  lemma CreatedFiles(x: Setup, st: Store, history: seq<Entry>, now: int)
    requires AllRecordsEncodable(history) && FilesOk(x, st, history)
    requires forall e | e in history :: e.segment <= st.activeIndex
    ensures FilesOk(x, Created(x.cfg, st, now), history)
  {
    CreatedMembers(x.cfg, st, now);
    NoRecordsBeyond(history, st.activeIndex + 1);
    assert SegmentPath(x.cfg.segmentDir, st.activeIndex + 1) !in st.files;
  }

  lemma CreateKeeps(x: Setup, w: Wal, now: int, clock: int)
    requires Inv(x, w, clock) && clock <= now
    ensures Inv(x, WithStore(w, Created(x.cfg, w.spill.store, now)), now)
  {
    CreatedMembers(x.cfg, w.spill.store, now);
    CreatedPlaced(x, w.spill, now, clock);
    CreatedFiles(x, w.spill.store, w.history, now);
    hide Placed, Dated, FilesOk, RecordsOf, Frames;
  }

  lemma TouchKeeps(x: Setup, w: Wal, now: int, clock: int)
    requires Inv(x, w, clock) && clock <= now
    ensures Inv(x, WithStore(w, Touched(x.cfg, w.spill.store, now)), now)
  {
    if w.spill.store.segments == [] {
      CreateKeeps(x, w, now, clock);
    }
  }

  function TrimOne(st: Store): Store
    requires st.segments != []
  {
    var oldest := st.segments[0];
    st.(segments := st.segments[1..], files := st.files - {oldest.path}, trimmed := st.trimmed + {oldest.index})
  }

  /** The segments after the oldest. */
  lemma TailOf(sp: Spill)
    requires sp.store.segments != [] && Placed(sp)
    ensures var segs := sp.store.segments;
            && segs[0] in segs
            && (forall s | s in segs :: s == segs[0] || s in segs[1..])
            && (forall s | s in segs[1..] :: s in segs && segs[0].index < s.index)
            && (segs[1..] != [] ==> segs[1..][|segs| - 2] == segs[|segs| - 1])
  {
    var segs := sp.store.segments;
    forall s | s in segs[1..] ensures s in segs && segs[0].index < s.index {
      var k :| 0 <= k < |segs[1..]| && segs[1..][k] == s;
      assert s == segs[k + 1];
    }
  }

  /** Taking the oldest segment and its file away leaves the other files as they were. */
  lemma DropOldest(x: Setup, sp: Spill, history: seq<Entry>)
    requires sp.store.segments != [] && Placed(sp) && AllRecordsEncodable(history) && FilesOk(x, sp.store, history)
    ensures var st := sp.store;
            FilesOk(x, st.(segments := st.segments[1..], files := st.files - {st.segments[0].path}), history)
  {
    hide RecordsOf, Frames, SegmentPath;
    TailOf(sp);
    var st := sp.store;
    var oldest := st.segments[0];
    forall s | s in st.segments[1..] ensures s.path != oldest.path {
      if s.path == oldest.path {
        SegmentPathInjective(x.cfg.segmentDir, s.index, oldest.index);
      }
    }
  }

  lemma DatedTail(st: Store, clock: int)
    requires Dated(st, clock) && st.segments != []
    ensures Dated(st.(segments := st.segments[1..]), clock)
  {
    var rest := st.segments[1..];
    assert forall i | 0 <= i < |rest| :: rest[i] == st.segments[i + 1];
  }

  lemma PlacedTrimmed(sp: Spill)
    requires Placed(sp) && sp.store.segments != []
    ensures Placed(sp.(store := TrimOne(sp.store)))
  {
    hide Ascending;
    TailOf(sp);
    var segs := sp.store.segments;
    var rest := segs[1..];
    forall i, j | 0 <= i < j < |rest| ensures rest[i].index < rest[j].index {
      assert rest[i] == segs[i + 1] && rest[j] == segs[j + 1];
    }
    assert segs[0].index !in sp.archived;
  }

  lemma TrimOneKeeps(x: Setup, w: Wal, clock: int)
    requires Inv(x, w, clock) && w.spill.store.segments != []
    ensures Inv(x, WithStore(w, TrimOne(w.spill.store)), clock)
  {
    var st := w.spill.store;
    DropOldest(x, w.spill, w.history);
    DatedTail(st, clock);
    PlacedTrimmed(w.spill);
    TailOf(w.spill);
    hide Placed;
    assert Indices(st.segments) == {st.segments[0].index} + Indices(st.segments[1..]);
  }

  lemma {:induction false} TrimmedKeeps(x: Setup, w: Wal, clock: int)
    requires Inv(x, w, clock)
    ensures Inv(x, WithStore(w, Trimmed(x.cfg, w.spill.store)), clock)
    decreases |w.spill.store.segments|
  {
    hide Inv;
    if |w.spill.store.segments| > x.cfg.maxSegments {
      TrimOneKeeps(x, w, clock);
      TrimmedKeeps(x, WithStore(w, TrimOne(w.spill.store)), clock);
    }
  }

  lemma RotateKeeps(x: Setup, w: Wal, now: int, later: int, clock: int)
    requires Inv(x, w, clock) && clock <= now <= later
    ensures Inv(x, WithStore(w, Rotated(x.cfg, w.spill.store, now, later)), later)
  {
    hide Inv, Created, Trimmed, Touched;
    CreateKeeps(x, w, now, clock);
    var w1 := WithStore(w, Created(x.cfg, w.spill.store, now));
    TrimmedKeeps(x, w1, now);
    TouchKeeps(x, WithStore(w1, Trimmed(x.cfg, w1.spill.store)), later, now);
  }

  lemma LaterKeeps(x: Setup, w: Wal, clock: int, later: int)
    requires Inv(x, w, clock) && clock <= later
    ensures Inv(x, w, later)
  {
  }

  /** The same segments but for their sizes. */
  predicate Resized(segs: seq<Segment>, segs': seq<Segment>) {
    && |segs| == |segs'|
    && forall k | 0 <= k < |segs| :: segs'[k] == segs[k].(sizeBytes := segs'[k].sizeBytes)
  }

  lemma ResizedMembers(segs: seq<Segment>, segs': seq<Segment>)
    requires Resized(segs, segs')
    ensures forall s' | s' in segs' :: exists size: nat :: s'.(sizeBytes := size) in segs
    ensures Indices(segs) == Indices(segs')
  {
    forall s' | s' in segs'
      ensures exists size: nat :: s'.(sizeBytes := size) in segs
      ensures s'.index in Indices(segs)
    {
      var k :| 0 <= k < |segs'| && segs'[k] == s';
      assert s'.(sizeBytes := segs[k].sizeBytes) == segs[k];
      assert segs[k] in segs;
    }
    forall s | s in segs ensures s.index in Indices(segs') {
      var k :| 0 <= k < |segs| && segs[k] == s;
      assert segs'[k] in segs';
    }
  }

  lemma ResizedKeepsOrder(sp: Spill, segs: seq<Segment>, clock: int)
    requires Resized(sp.store.segments, segs) && Placed(sp) && Dated(sp.store, clock)
    ensures Placed(sp.(store := sp.store.(segments := segs))) && Dated(sp.store.(segments := segs), clock)
  {
    ResizedMembers(sp.store.segments, segs);
  }

  lemma ResizedKeepsFiles(x: Setup, st: Store, segs: seq<Segment>, history: seq<Entry>)
    requires Resized(st.segments, segs) && AllRecordsEncodable(history) && FilesOk(x, st, history)
    ensures FilesOk(x, st.(segments := segs), history)
  {
    ResizedMembers(st.segments, segs);
    forall s' | s' in segs
      ensures s'.path == SegmentPath(x.cfg.segmentDir, s'.index)
              && Get(st.files, s'.path, []) == Frames(RecordsOf(history, s'.index))
    {
      var size: nat :| s'.(sizeBytes := size) in st.segments;
      var s := s'.(sizeBytes := size);
      assert s in st.segments && s.path == s'.path && s.index == s'.index;
    }
  }

  lemma ResizedKeepsRest(x: Setup, sp: Spill, segs: seq<Segment>, history: seq<Entry>)
    requires Resized(sp.store.segments, segs) && AllRecordsEncodable(history)
    requires HistoryOk(sp, history) && ArchivesOk(x, sp, history)
    ensures var sp' := sp.(store := sp.store.(segments := segs)); HistoryOk(sp', history) && ArchivesOk(x, sp', history)
  {
    ResizedMembers(sp.store.segments, segs);
    hide RecordsOf, Frames;
  }

  /** Accounting for bytes changes only a size. */
  lemma GrownKeeps(x: Setup, w: Wal, bytes: nat, clock: int)
    requires Inv(x, w, clock) && w.spill.store.segments != []
    ensures Inv(x, WithStore(w, Grown(w.spill.store, bytes)), clock)
  {
    var st := w.spill.store;
    var segs := Grown(st, bytes).segments;
    assert Resized(st.segments, segs);
    assert AllRecordsEncodable(w.history);
    hide Placed, Dated, HistoryOk, FilesOk, ArchivesOk, Resized;
    ResizedKeepsOrder(w.spill, segs, clock);
    ResizedKeepsFiles(x, st, segs, w.history);
    ResizedKeepsRest(x, w.spill, segs, w.history);
  }

  function WithBytes(st: Store, path: string, bytes: seq<Byte>): Store {
    st.(files := st.files[path := Get(st.files, path, []) + bytes])
  }

  /** A frame added to the active segment's file, with its record in the history. */
  lemma FrameFiles(x: Setup, sp: Spill, history: seq<Entry>, r: WalRecord)
    requires Encodable(r) && sp.store.segments != []
    requires Placed(sp) && AllRecordsEncodable(history) && FilesOk(x, sp.store, history)
    ensures AllRecordsEncodable(history + [Entry(r, Active(sp.store).index)])
    ensures FilesOk(x, WithBytes(sp.store, Active(sp.store).path, Frame(r)),
                    history + [Entry(r, Active(sp.store).index)])
  {
    var st, active := sp.store, Active(sp.store);
    var e := Entry(r, active.index);
    var st' := WithBytes(st, active.path, Frame(r));
    assert active in st.segments;
    forall s | s in st.segments
      ensures s.path == SegmentPath(x.cfg.segmentDir, s.index)
              && Get(st'.files, s.path, []) == Frames(RecordsOf(history + [e], s.index))
    {
      RecordsOfSnoc(history, e, s.index);
      if s.index == active.index {
        var rs := RecordsOf(history, s.index);
        assert (rs + [r])[..|rs|] == rs;
      } else if s.path == active.path {
        SegmentPathInjective(x.cfg.segmentDir, s.index, active.index);
      }
    }
    forall i: nat | i > st.activeIndex ensures SegmentPath(x.cfg.segmentDir, i) !in st'.files {
      if SegmentPath(x.cfg.segmentDir, i) == active.path {
        SegmentPathInjective(x.cfg.segmentDir, i, active.index);
      }
    }
  }

  lemma FrameArchives(x: Setup, sp: Spill, history: seq<Entry>, r: WalRecord)
    requires Encodable(r) && sp.store.segments != []
    requires Placed(sp) && AllRecordsEncodable(history) && ArchivesOk(x, sp, history)
    ensures AllRecordsEncodable(history + [Entry(r, Active(sp.store).index)])
    ensures ArchivesOk(x, sp, history + [Entry(r, Active(sp.store).index)])
  {
    var e := Entry(r, Active(sp.store).index);
    assert Active(sp.store) in sp.store.segments;
    forall a | a in sp.archived ensures RecordsOf(history + [e], a) == RecordsOf(history, a) {
      RecordsOfSnoc(history, e, a);
    }
  }

  lemma FrameHistory(sp: Spill, history: seq<Entry>, r: WalRecord)
    requires Encodable(r) && sp.store.segments != [] && Placed(sp) && HistoryOk(sp, history)
    ensures HistoryOk(sp, history + [Entry(r, Active(sp.store).index)])
  {
    assert Active(sp.store) in sp.store.segments;
    assert forall h | h in history :: h.segment <= Active(sp.store).index;
  }

  lemma FrameKeeps(x: Setup, w: Wal, r: WalRecord, clock: int)
    requires Inv(x, w, clock) && Encodable(r) && w.spill.store.segments != []
    ensures var st := w.spill.store;
            Inv(x, Wal(w.spill.(store := WithBytes(st, Active(st).path, Frame(r))),
                       w.history + [Entry(r, Active(st).index)]), clock)
  {
    hide Placed, Dated, FilesOk, ArchivesOk, InSegmentOrder, AllRecordsEncodable, RecordsOf, Frame, Frames;
    var sp, history' := w.spill, w.history + [Entry(r, Active(w.spill.store).index)];
    FrameFiles(x, sp, w.history, r);
    FrameArchives(x, sp, w.history, r);
    FrameHistory(sp, w.history, r);
    hide HistoryOk;
    NewFiles(x, sp, WithBytes(sp.store, Active(sp.store).path, Frame(r)).files, history', clock);
  }

  /** Files aside, nothing depends on what they hold. */
  lemma NewFiles(x: Setup, sp: Spill, files: Files, history: seq<Entry>, clock: int)
    requires Placed(sp) && Dated(sp.store, clock) && HistoryOk(sp, history) && ArchivesOk(x, sp, history)
    ensures var sp' := sp.(store := sp.store.(files := files));
            Placed(sp') && Dated(sp'.store, clock) && HistoryOk(sp', history) && ArchivesOk(x, sp', history)
  {
    hide RecordsOf, Frames;
  }

  lemma AppendKeeps(x: Setup, w: Wal, r: WalRecord, now: int, later: int, clock: int)
    requires Inv(x, w, clock) && Encodable(r) && clock <= now <= later
    ensures Inv(x, WalStep(x, w, AppendRecord(r, now, later)), later)
  {
    hide Inv, Rotated, Created;
    TouchKeeps(x, w, now, clock);
    var touched := Touched(x.cfg, w.spill.store, now);
    var w1 := WithStore(w, touched);
    FrameKeeps(x, w1, r, now);
    var st2 := WithBytes(touched, Active(touched).path, Frame(r));
    var w2 := Wal(w.spill.(store := st2), w.history + [Entry(r, Active(touched).index)]);
    GrownKeeps(x, w2, |Frame(r)|, now);
    var w3 := WithStore(w2, Grown(st2, |Frame(r)|));
    RotateKeeps(x, w3, now, later, now);
    LaterKeeps(x, w3, now, later);
  }

  // --- spilling ---

  /** With segments in creation order, the stale ones are the oldest. */
  lemma {:induction false} StaleIsPrefix(segs: seq<Segment>, cutoff: int) returns (k: nat)
    requires forall i, j | 0 <= i < j < |segs| :: segs[i].createdAt <= segs[j].createdAt
    ensures k <= |segs| && OlderThan(segs, cutoff) == segs[..k]
  {
    if segs == [] {
      return 0;
    }
    var last := segs[|segs| - 1];
    if last.createdAt < cutoff {
      StaleAll(segs, cutoff, last.createdAt);
      assert segs[..|segs|] == segs;
      return |segs|;
    }
    k := StaleIsPrefix(segs[..|segs| - 1], cutoff);
    assert segs[..|segs| - 1][..k] == segs[..k];
  }

  lemma {:induction false} StaleAll(segs: seq<Segment>, cutoff: int, latest: int)
    requires latest < cutoff && forall s | s in segs :: s.createdAt <= latest
    ensures OlderThan(segs, cutoff) == segs
  {
    if segs != [] {
      var front, last := segs[..|segs| - 1], segs[|segs| - 1];
      assert segs == front + [last];
      assert last in segs && forall s | s in front :: s in segs;
      StaleAll(front, cutoff, latest);
    }
  }

  lemma SpillOneIs(x: Setup, sp: Spill)
    requires sp.store.segments != []
    ensures var st := sp.store;
            var oldest := st.segments[0];
            SpillOne(x.archiveDir, x.compress, sp, oldest) ==
              Spill(st.(segments := st.segments[1..], files := st.files - {oldest.path}),
                    sp.archives[ArchiveName(x.archiveDir, oldest.index) := x.compress(Get(st.files, oldest.path, []))],
                    sp.archived + [oldest.index])
  {
    assert [] + sp.store.segments[1..] == sp.store.segments[1..];
  }

  lemma ArchiveNameInjective(dir: string, i: nat, j: nat)
    requires ArchiveName(dir, i) == ArchiveName(dir, j)
    ensures i == j
  {
    Between(dir + "/wal-", Padded(i), Padded(j), ARCHIVE_SUFFIX);
    PaddedInjective(i, j);
  }

  lemma SpillOneArchives(x: Setup, sp: Spill, history: seq<Entry>)
    requires sp.store.segments != [] && Placed(sp) && AllRecordsEncodable(history)
    requires FilesOk(x, sp.store, history) && ArchivesOk(x, sp, history)
    ensures ArchivesOk(x, SpillOne(x.archiveDir, x.compress, sp, sp.store.segments[0]), history)
  {
    hide RecordsOf, Frames, ArchiveName, SpillOne;
    var oldest := sp.store.segments[0];
    assert oldest in sp.store.segments;
    SpillOneIs(x, sp);
    forall a | a in sp.archived ensures ArchiveName(x.archiveDir, a) != ArchiveName(x.archiveDir, oldest.index) {
      if ArchiveName(x.archiveDir, a) == ArchiveName(x.archiveDir, oldest.index) {
        ArchiveNameInjective(x.archiveDir, a, oldest.index);
      }
    }
    var sp' := SpillOne(x.archiveDir, x.compress, sp, oldest);
    forall n | n in sp'.archives ensures exists a | a in sp'.archived :: n == ArchiveName(x.archiveDir, a) {
      if n in sp.archives {
        var a :| a in sp.archived && n == ArchiveName(x.archiveDir, a);
        assert a in sp'.archived;
      } else {
        assert oldest.index in sp'.archived;
      }
    }
  }

  /** The oldest segment becomes the newest archived one. */
  lemma PlacedMoved(sp: Spill, files: Files, archives: Files)
    requires sp.store.segments != [] && Placed(sp)
    ensures var st := sp.store;
            Placed(Spill(st.(segments := st.segments[1..], files := files), archives,
                         sp.archived + [st.segments[0].index]))
  {
    TailOf(sp);
    var oldest, rest := sp.store.segments[0], sp.store.segments[1..];
    AscendingSnoc(sp.archived, oldest.index);
    assert forall i | 0 <= i < |rest| :: rest[i] == sp.store.segments[i + 1];
    hide Ascending;
    forall a | a in sp.archived + [oldest.index]
      ensures a <= sp.store.activeIndex && a !in sp.store.trimmed && forall s | s in rest :: a < s.index
    {
      assert a in sp.archived || a == oldest.index;
    }
  }

  lemma SpillOnePlaced(x: Setup, sp: Spill)
    requires sp.store.segments != [] && Placed(sp)
    ensures Placed(SpillOne(x.archiveDir, x.compress, sp, sp.store.segments[0]))
  {
    SpillOneIs(x, sp);
    var sp' := SpillOne(x.archiveDir, x.compress, sp, sp.store.segments[0]);
    PlacedMoved(sp, sp'.store.files, sp'.archives);
    hide Placed, SpillOne;
  }

  lemma AscendingSnoc(ks: seq<nat>, k: nat)
    requires Ascending(ks) && forall a | a in ks :: a < k
    ensures Ascending(ks + [k])
  {
    assert forall i | 0 <= i < |ks| :: ks[i] in ks;
  }

  lemma SpillOneHistory(x: Setup, sp: Spill, history: seq<Entry>)
    requires sp.store.segments != [] && Placed(sp) && HistoryOk(sp, history)
    ensures HistoryOk(SpillOne(x.archiveDir, x.compress, sp, sp.store.segments[0]), history)
  {
    SpillOneIs(x, sp);
    TailOf(sp);
    var segs := sp.store.segments;
    assert Indices(segs) == {segs[0].index} + Indices(segs[1..]);
  }

  lemma SpillOneKeeps(x: Setup, w: Wal, clock: int)
    requires Inv(x, w, clock) && w.spill.store.segments != []
    ensures Inv(x, w.(spill := SpillOne(x.archiveDir, x.compress, w.spill, w.spill.store.segments[0])), clock)
  {
    var st := w.spill.store;
    DropOldest(x, w.spill, w.history);
    DatedTail(st, clock);
    SpillOnePlaced(x, w.spill);
    SpillOneArchives(x, w.spill, w.history);
    SpillOneHistory(x, w.spill, w.history);
    SpillOneIs(x, w.spill);
    hide Placed, Dated, HistoryOk, FilesOk, ArchivesOk, SpillOne;
  }

  lemma {:induction false} SpillPrefixKeeps(x: Setup, w: Wal, k: nat, clock: int)
    requires Inv(x, w, clock) && k <= |w.spill.store.segments|
    ensures var sp := SpillAll(x.archiveDir, x.compress, w.spill, w.spill.store.segments[..k]);
            && Inv(x, w.(spill := sp), clock)
            && sp.store.segments == w.spill.store.segments[k..] && sp.store.trimmed == w.spill.store.trimmed
  {
    hide Inv;
    var segs := w.spill.store.segments;
    if k > 0 {
      SpillPrefixKeeps(x, w, k - 1, clock);
      var sp := SpillAll(x.archiveDir, x.compress, w.spill, segs[..k - 1]);
      assert segs[..k][..k - 1] == segs[..k - 1];
      assert sp.store.segments[0] == segs[k - 1];
      SpillOneKeeps(x, w.(spill := sp), clock);
      SpillOneIs(x, sp);
      assert segs[k - 1..][1..] == segs[k..];
    }
  }

  lemma SpillKeeps(x: Setup, w: Wal, now: int, clock: int)
    requires Inv(x, w, clock) && clock <= now
    ensures Inv(x, WalStep(x, w, SpillStale(now)), now)
  {
    var segs := w.spill.store.segments;
    var k := StaleIsPrefix(segs, now - ARCHIVE_SPILL_AGE_MS);
    hide *;
    SpillPrefixKeeps(x, w, k, clock);
    var sp := SpillAll(x.archiveDir, x.compress, w.spill, segs[..k]);
    LaterKeeps(x, w.(spill := sp), clock, now);
    SpillStaleIs(x, w, now);
  }

  lemma SpillStaleIs(x: Setup, w: Wal, now: int)
    ensures WalStep(x, w, SpillStale(now)) ==
              w.(spill := SpillAll(x.archiveDir, x.compress, w.spill,
                                   OlderThan(w.spill.store.segments, now - ARCHIVE_SPILL_AGE_MS)))
  {
    hide SpillAll, OlderThan, Rotated, WithFrame, Touched;
  }

  lemma StepKeeps(x: Setup, w: Wal, op: WalOp, clock: int)
    requires Inv(x, w, clock) && clock <= Start(op) <= End(op)
    ensures Inv(x, WalStep(x, w, op), End(op))
  {
    match op {
      case AppendRecord(r, now, later) =>
        if Encodable(r) {
          AppendKeeps(x, w, r, now, later, clock);
        } else {
          LaterKeeps(x, w, clock, later);
        }
      case RotateSegment(now, later) => RotateKeeps(x, w, now, later, clock);
      case TouchSegment(now) => TouchKeeps(x, w, now, clock);
      case SpillStale(now) => SpillKeeps(x, w, now, clock);
    }
  }

  lemma {:induction false} RunKeeps(x: Setup, ops: seq<WalOp>) returns (clock: int)
    requires Clocked(ops)
    ensures Inv(x, WalRun(x, ops), clock)
    ensures ops != [] ==> clock == End(ops[|ops| - 1])
  {
    if ops == [] {
      clock := 0;
    } else {
      var front, op := ops[..|ops| - 1], ops[|ops| - 1];
      clock := RunKeeps(x, front);
      if front == [] {
        clock := Start(op);
      }
      hide WalStep;
      StepKeeps(x, WalRun(x, front), op, clock);
      clock := End(op);
    }
  }

  // --- the archives in order ---

  function Names(dir: string, ks: seq<nat>): (ns: seq<string>)
    ensures |ns| == |ks|
  {
    if ks == [] then [] else Names(dir, ks[..|ks| - 1]) + [ArchiveName(dir, ks[|ks| - 1])]
  }

  lemma {:induction false} NamesAre(dir: string, ks: seq<nat>)
    ensures forall i | 0 <= i < |ks| :: Names(dir, ks)[i] == ArchiveName(dir, ks[i])
  {
    if ks != [] {
      NamesAre(dir, ks[..|ks| - 1]);
    }
  }

  predicate StrictlySorted(names: seq<string>) {
    forall i, j | 0 <= i < j < |names| :: Decimal.Less(names[i], names[j])
  }

  predicate NoDuplicates(names: seq<string>) {
    forall i, j | 0 <= i < j < |names| :: names[i] != names[j]
  }

  lemma {:induction false} InsertSorts(sorted: seq<string>, name: string)
    requires StrictlySorted(sorted) && name !in sorted
    ensures StrictlySorted(Insert(sorted, name))
  {
    if sorted != [] {
      var first, rest := sorted[0], sorted[1..];
      Decimal.LessTrichotomy(name, first);
      if Decimal.Less(name, first) {
        forall i | 0 <= i < |sorted| ensures Decimal.Less(name, sorted[i]) {
          if i > 0 {
            Decimal.LessTransitive(name, first, sorted[i]);
          }
        }
      } else {
        assert forall i | 0 <= i < |rest| :: rest[i] == sorted[i + 1];
        InsertSorts(rest, name);
        var r := Insert(rest, name);
        forall i | 0 <= i < |r| ensures Decimal.Less(first, r[i]) {
          assert r[i] in r;
          if r[i] != name {
            var k :| 0 <= k < |rest| && rest[k] == r[i];
          }
        }
      }
    }
  }

  lemma {:induction false} SortSorts(names: seq<string>)
    requires NoDuplicates(names)
    ensures StrictlySorted(Sort(names))
  {
    if names != [] {
      SortSorts(names[..|names| - 1]);
      assert names[|names| - 1] !in names[..|names| - 1];
      InsertSorts(Sort(names[..|names| - 1]), names[|names| - 1]);
    }
  }

  lemma {:induction false} OnlyArchivesNoDuplicates(names: seq<string>)
    requires NoDuplicates(names)
    ensures NoDuplicates(OnlyArchives(names))
  {
    if names != [] {
      var front := names[..|names| - 1];
      OnlyArchivesNoDuplicates(front);
      assert names[|names| - 1] !in front;
    }
  }

  /** There is only one way to sort a set of names. */
  lemma {:induction false} SortedIsUnique(a: seq<string>, b: seq<string>)
    requires StrictlySorted(a) && StrictlySorted(b) && forall n :: n in a <==> n in b
    ensures a == b
  {
    if b != [] {
      var n := b[0];
      assert n in b;
    }
    if a != [] {
      assert a[0] in a && a[0] in b;
      assert b[0] in b && b[0] in a;
      FirstIsLeast(a, b[0]);
      FirstIsLeast(b, a[0]);
      Decimal.LessTrichotomy(a[0], b[0]);
      TailMembers(a);
      TailMembers(b);
      SortedIsUnique(a[1..], b[1..]);
      assert a == [a[0]] + a[1..] && b == [b[0]] + b[1..];
    }
  }

  lemma FirstIsLeast(a: seq<string>, n: string)
    requires StrictlySorted(a) && n in a
    ensures n == a[0] || Decimal.Less(a[0], n)
  {
    var i :| 0 <= i < |a| && a[i] == n;
  }

  lemma TailMembers(a: seq<string>)
    requires StrictlySorted(a) && a != []
    ensures StrictlySorted(a[1..]) && forall n :: n in a[1..] <==> n in a && n != a[0]
  {
    Decimal.LessIrreflexive(a[0]);
    forall n | n in a[1..] ensures n in a && n != a[0] {
      var i :| 0 <= i < |a[1..]| && a[1..][i] == n;
      assert a[i + 1] == n && Decimal.Less(a[0], n);
    }
  }

  /** A directory listing, in any order, that shows every file once. */
  ghost predicate Lists(listing: seq<string>, files: Files) {
    NoDuplicates(listing) && forall n :: n in listing <==> n in files
  }

  lemma EndsWithSuffix(dir: string, i: nat)
    ensures IsArchive(ArchiveName(dir, i))
  {
    var n := ArchiveName(dir, i);
    assert n[|n| - |ARCHIVE_SUFFIX|..] == ARCHIVE_SUFFIX;
  }

  lemma ArchivedNamesSorted(x: Setup, w: Wal, clock: int)
    requires Inv(x, w, clock) && w.spill.store.activeIndex < INDEX_LIMIT
    ensures StrictlySorted(Names(x.archiveDir, w.spill.archived))
  {
    var ks := w.spill.archived;
    NamesAre(x.archiveDir, ks);
    forall i, j | 0 <= i < j < |ks| ensures Decimal.Less(Names(x.archiveDir, ks)[i], Names(x.archiveDir, ks)[j]) {
      assert ks[i] in ks && ks[j] in ks;
      NamesOrdered(x.archiveDir, ks[i], ks[j]);
    }
  }

  /** The sorted listing is the archived segments in index order. */
  lemma ListingInOrder(x: Setup, w: Wal, listing: seq<string>, clock: int)
    requires Inv(x, w, clock) && w.spill.store.activeIndex < INDEX_LIMIT && Lists(listing, w.spill.archives)
    ensures Sort(OnlyArchives(listing)) == Names(x.archiveDir, w.spill.archived)
  {
    hide Sort, OnlyArchives, ArchiveName, IsArchive, Placed, Dated, FilesOk, HistoryOk, RecordsOf, Frames,
        StrictlySorted;
    var sorted, names := Sort(OnlyArchives(listing)), Names(x.archiveDir, w.spill.archived);
    OnlyArchivesNoDuplicates(listing);
    SortSorts(OnlyArchives(listing));
    ArchivedNamesSorted(x, w, clock);
    NamesAre(x.archiveDir, w.spill.archived);
    forall n ensures n in sorted <==> n in names {
      if n in names {
        var i :| 0 <= i < |names| && names[i] == n;
        assert w.spill.archived[i] in w.spill.archived;
        EndsWithSuffix(x.archiveDir, w.spill.archived[i]);
      }
      if n in sorted {
        var a :| a in w.spill.archived && n == ArchiveName(x.archiveDir, a);
        var i :| 0 <= i < |w.spill.archived| && w.spill.archived[i] == a;
        assert names[i] == n;
      }
    }
    SortedIsUnique(sorted, names);
  }

  lemma {:induction false} ReplayIsCollect(x: Setup, w: Wal, ks: seq<nat>, clock: int)
    requires Inv(x, w, clock) && Lossless(x) && forall k | k in ks :: k in w.spill.archived
    ensures forall n | n in Names(x.archiveDir, ks) :: n in w.spill.archives
    ensures ReplayNames(x.decompress, w.spill.archives, Names(x.archiveDir, ks)) == Collect(w.history, ks)
  {
    hide Inv, Lossless, Collect, RecordsOf, ReplayNames, Decode, ArchiveName;
    EncodableHistory(x, w, clock);
    if ks == [] {
      CollectEmpty(w.history);
      NothingToReplay(x.decompress, w.spill.archives);
    } else {
      var front, k := ks[..|ks| - 1], ks[|ks| - 1];
      assert k in ks && forall a | a in front :: a in ks;
      ReplayIsCollect(x, w, front, clock);
      var names, n := Names(x.archiveDir, ks), ArchiveName(x.archiveDir, k);
      assert names[..|names| - 1] == Names(x.archiveDir, front) && names[|names| - 1] == n;
      ArchiveHolds(x, w, k, clock);
      forall m | m in names ensures m in w.spill.archives {
        assert m in Names(x.archiveDir, front) || m == n;
      }
      ReplayLast(x.decompress, w.spill.archives, names);
      CollectLast(w.history, ks);
    }
  }

  lemma EncodableHistory(x: Setup, w: Wal, clock: int)
    requires Inv(x, w, clock)
    ensures AllRecordsEncodable(w.history)
  {
  }

  /** The archive of an archived segment reads back as its records. */
  lemma ArchiveHolds(x: Setup, w: Wal, k: nat, clock: int)
    requires Inv(x, w, clock) && Lossless(x) && k in w.spill.archived && AllRecordsEncodable(w.history)
    ensures var n := ArchiveName(x.archiveDir, k);
            n in w.spill.archives && Decode(x.decompress(w.spill.archives[n])) == RecordsOf(w.history, k)
  {
    hide Placed, Dated, FilesOk, RecordsOf, Frames, Decode, ArchiveName;
    DecodeFrames(RecordsOf(w.history, k));
  }

  lemma NothingToReplay(decompress: Coding, archives: Files)
    ensures ReplayNames(decompress, archives, []) == []
  {
  }

  lemma ReplayLast(decompress: Coding, archives: Files, names: seq<string>)
    requires names != [] && forall n | n in names :: n in archives
    ensures ReplayNames(decompress, archives, names)
            == ReplayNames(decompress, archives, names[..|names| - 1])
                + Decode(decompress(archives[names[|names| - 1]]))
  {
  }

  /** What is read back from the files of the retained segments. */
  function Retained(files: Files, segs: seq<Segment>): seq<WalRecord> {
    if segs == [] then []
    else Retained(files, segs[..|segs| - 1]) + Decode(Get(files, segs[|segs| - 1].path, []))
  }

  function IndexSeq(segs: seq<Segment>): (ks: seq<nat>)
    ensures |ks| == |segs|
    ensures forall i | 0 <= i < |segs| :: ks[i] == segs[i].index
  {
    if segs == [] then [] else IndexSeq(segs[..|segs| - 1]) + [segs[|segs| - 1].index]
  }

  lemma {:induction false} RetainedIsCollect(x: Setup, w: Wal, segs: seq<Segment>, clock: int)
    requires Inv(x, w, clock) && forall s | s in segs :: s in w.spill.store.segments
    ensures Retained(w.spill.store.files, segs) == Collect(w.history, IndexSeq(segs))
  {
    if segs != [] {
      var front, s := segs[..|segs| - 1], segs[|segs| - 1];
      assert s in segs && forall a | a in front :: a in segs;
      RetainedIsCollect(x, w, front, clock);
      DecodeFrames(RecordsOf(w.history, s.index));
      assert IndexSeq(segs)[..|segs| - 1] == IndexSeq(front);
    }
  }

  lemma AllIndicesAscend(x: Setup, w: Wal, clock: int)
    requires Inv(x, w, clock)
    ensures Ascending(w.spill.archived + IndexSeq(w.spill.store.segments))
    ensures var ks := w.spill.archived + IndexSeq(w.spill.store.segments);
            && (forall k | k in ks :: k !in w.spill.store.trimmed)
            && (forall e | e in w.history :: e.segment in ks || e.segment in w.spill.store.trimmed)
  {
    var a, segs := w.spill.archived, w.spill.store.segments;
    var b := IndexSeq(segs);
    forall i, j | 0 <= i < |a| && 0 <= j < |b| ensures a[i] < b[j] {
      assert a[i] in a && segs[j] in segs;
    }
    forall j | 0 <= j < |b| ensures b[j] !in w.spill.store.trimmed {
      assert segs[j] in segs;
    }
    forall e | e in w.history ensures e.segment in a + b || e.segment in w.spill.store.trimmed {
      if e.segment in Indices(segs) {
        var j :| 0 <= j < |segs| && segs[j].index == e.segment;
        assert b[j] == e.segment;
      }
    }
  }

  /**
   End to end. For every run of appends, rotations, window trims and spills with a clock that never
   goes back, no archive step failing and fewer than 10^10 segments: the records delivered by
   replaying the archives, in whatever order the directory lists them, followed by those read from
   the retained segments, are exactly the appended records in append order, minus exactly those of
   the segments the window trimmed.
   */
  lemma ReplayThenRetainedIsTheLog(x: Setup, ops: seq<WalOp>, listing: seq<string>)
    requires Lossless(x) && Clocked(ops)
    requires WalRun(x, ops).spill.store.activeIndex < INDEX_LIMIT
    requires Lists(listing, WalRun(x, ops).spill.archives)
    ensures var w := WalRun(x, ops);
            var st := w.spill.store;
            && (forall n | n in Sort(OnlyArchives(listing)) :: n in w.spill.archives)
            && ReplayNames(x.decompress, w.spill.archives, Sort(OnlyArchives(listing)))
                + Retained(st.files, st.segments)
               == Kept(w.history, st.trimmed)
  {
    var clock := RunKeeps(x, ops);
    var w := WalRun(x, ops);
    var st := w.spill.store;
    hide WalRun;
    ListingInOrder(x, w, listing, clock);
    ReplayIsCollect(x, w, w.spill.archived, clock);
    RetainedIsCollect(x, w, st.segments, clock);
    AllIndicesAscend(x, w, clock);
    var ks := w.spill.archived + IndexSeq(st.segments);
    CollectConcat(w.history, w.spill.archived, IndexSeq(st.segments));
    CollectIsKept(w.history, ks, st.trimmed);
  }

  function Appended(ops: seq<WalOp>): seq<WalRecord> {
    if ops == [] then []
    else
      var rest, op := Appended(ops[..|ops| - 1]), ops[|ops| - 1];
      if op.AppendRecord? && Encodable(op.record) then rest + [op.record] else rest
  }

  /** The history is what was appended; with nothing trimmed, replay and retained give all of it. */
  lemma {:induction false} HistoryIsAppended(x: Setup, ops: seq<WalOp>)
    ensures Kept(WalRun(x, ops).history, {}) == Appended(ops)
  {
    if ops != [] {
      var front, op := ops[..|ops| - 1], ops[|ops| - 1];
      HistoryIsAppended(x, front);
      var history := WalRun(x, front).history;
      if op.AppendRecord? && Encodable(op.record) {
        var e := Entry(op.record, Active(Touched(x.cfg, WalRun(x, front).spill.store, op.now)).index);
        assert (history + [e])[..|history|] == history;
      }
    }
  }
}
