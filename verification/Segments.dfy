/** Segment life cycle of the write-ahead log (src/ledger/segment-manager.ts). */
module SegmentStore {
  import opened Common
  import opened WalFrames
  import Decimal

  const SEGMENT_SIZE_BYTES := 64 * 1024 * 1024

  datatype Segment = Segment(index: nat, path: string, sizeBytes: nat, createdAt: int)

  type Files = map<string, seq<Byte>>

  datatype Config = Config(segmentDir: string, maxSegments: nat)

  /** The tracked segments, the files behind them, and which segments the window has trimmed. */
  datatype Store = Store(segments: seq<Segment>, activeIndex: nat, files: Files, trimmed: set<nat>)

  function Padded(index: nat): string {
    Decimal.PadStart(Decimal.ToText(index), 10)
  }

  function SegmentPath(dir: string, index: nat): string {
    dir + "/wal-" + Padded(index) + ".seg"
  }

  /** Padding never makes two indices alike, however long they are. */
  lemma PaddedInjective(i: nat, j: nat)
    requires Padded(i) == Padded(j)
    ensures i == j
  {
    PaddedIsNumeral(i);
    PaddedIsNumeral(j);
  }

  lemma PaddedIsNumeral(i: nat)
    ensures Decimal.IsNumeral(Padded(i)) && Decimal.Value(Padded(i)) == i
  {
    Decimal.ValueOfText(i);
    var s := Decimal.ToText(i);
    if |s| < 10 {
      Decimal.PaddedValue(s, 10 - |s|);
    }
  }

  lemma Between(prefix: string, a: string, b: string, suffix: string)
    requires prefix + a + suffix == prefix + b + suffix
    ensures a == b
  {
    var s, t := prefix + a + suffix, prefix + b + suffix;
    assert |s| == |prefix| + |a| + |suffix| && |t| == |prefix| + |b| + |suffix|;
    assert a == s[|prefix|..|prefix| + |a|] && b == t[|prefix|..|prefix| + |b|];
  }

  lemma SegmentPathInjective(dir: string, i: nat, j: nat)
    requires SegmentPath(dir, i) == SegmentPath(dir, j)
    ensures i == j
  {
    Between(dir + "/wal-", Padded(i), Padded(j), ".seg");
    PaddedInjective(i, j);
  }

  // --- one step ---

  function Created(cfg: Config, st: Store, now: int): Store {
    var index := st.activeIndex + 1;
    st.(segments := st.segments + [Segment(index, SegmentPath(cfg.segmentDir, index), 0, now)], activeIndex := index)
  }

  /** `getActiveSegment` creates the first segment lazily. */
  function Touched(cfg: Config, st: Store, now: int): (r: Store)
    ensures r.segments != []
  {
    if st.segments == [] then Created(cfg, st, now) else st
  }

  function Trimmed(cfg: Config, st: Store): (r: Store)
    ensures |r.segments| <= cfg.maxSegments
    decreases |st.segments|
  {
    if |st.segments| <= cfg.maxSegments then st
    else
      var oldest := st.segments[0];
      Trimmed(cfg, st.(segments := st.segments[1..], files := st.files - {oldest.path},
                       trimmed := st.trimmed + {oldest.index}))
  }

  function Rotated(cfg: Config, st: Store, now: int, later: int): (r: Store)
    ensures r.segments != []
  {
    Touched(cfg, Trimmed(cfg, Created(cfg, st, now)), later)
  }

  function Active(st: Store): Segment
    requires st.segments != []
  {
    st.segments[|st.segments| - 1]
  }

  function Grown(st: Store, bytes: nat): (r: Store)
    requires st.segments != []
    ensures r.segments != []
  {
    st.(segments := st.segments[|st.segments| - 1 := Active(st).(sizeBytes := Active(st).sizeBytes + bytes)])
  }

  function Recorded(cfg: Config, st: Store, bytes: nat, now: int, later: int): (r: Store)
    ensures r.segments != []
  {
    var grown := Grown(Touched(cfg, st, now), bytes);
    if Active(grown).sizeBytes >= SEGMENT_SIZE_BYTES then Rotated(cfg, grown, now, later) else grown
  }

  /** The position of the first segment with an index, or the number of segments. */
  function Position(segments: seq<Segment>, index: nat): (pos: nat)
    ensures pos <= |segments| && (pos < |segments| ==> segments[pos].index == index)
    ensures forall i | 0 <= i < pos :: segments[i].index != index
  {
    if segments == [] then 0
    else if segments[0].index == index then 0
    else
      var pos := 1 + Position(segments[1..], index);
      assert forall i | 1 <= i < pos :: segments[i] == segments[1..][i - 1];
      pos
  }

  function Removed(st: Store, index: nat): Store {
    var pos := Position(st.segments, index);
    if pos == |st.segments| then st
    else st.(segments := st.segments[..pos] + st.segments[pos + 1..], files := st.files - {st.segments[pos].path})
  }

  /** The segment leaves the list, its file stays. */
  function Unlisted(st: Store, index: nat): Store {
    st.(segments := Removed(st, index).segments)
  }

  /** The segments created before `cutoff`. */
  function OlderThan(segments: seq<Segment>, cutoff: int): (r: seq<Segment>)
    ensures forall s | s in r :: s in segments && s.createdAt < cutoff
  {
    if segments == [] then []
    else
      var rest := OlderThan(segments[..|segments| - 1], cutoff);
      var last := segments[|segments| - 1];
      if last.createdAt < cutoff then rest + [last] else rest
  }

  /** The ascending positions `at` are those of all segments created before `cutoff`, and `r` is what stands there. */
  predicate OldAt(r: seq<Segment>, segments: seq<Segment>, cutoff: int, at: seq<nat>) {
    && |at| == |r|
    && (forall i | 0 <= i < |at| :: at[i] < |segments| && r[i] == segments[at[i]] && r[i].createdAt < cutoff)
    && (forall i, j | 0 <= i < j < |at| :: at[i] < at[j])
    && (forall k | 0 <= k < |segments| && segments[k].createdAt < cutoff :: k in at)
  }

  lemma OldAtSnoc(r: seq<Segment>, segments: seq<Segment>, last: Segment, cutoff: int, at: seq<nat>)
    requires OldAt(r, segments, cutoff, at)
    ensures last.createdAt < cutoff ==> OldAt(r + [last], segments + [last], cutoff, at + [|segments|])
    ensures last.createdAt >= cutoff ==> OldAt(r, segments + [last], cutoff, at)
  {
    var all, more := segments + [last], at + [|segments|];
    assert forall k | 0 <= k < |segments| :: all[k] == segments[k];
    assert more[|at|] == |segments|;
    assert forall k | k in at :: k in more;
  }

  /** Exactly the segments created before the cutoff, in their order. */
  ghost predicate OldOnes(r: seq<Segment>, segments: seq<Segment>, cutoff: int) {
    exists at: seq<nat> :: OldAt(r, segments, cutoff, at)
  }

  lemma {:induction false} OlderThanIsExact(segments: seq<Segment>, cutoff: int)
    ensures OldOnes(OlderThan(segments, cutoff), segments, cutoff)
  {
    hide OldAt;
    if segments == [] {
      NoneOld(cutoff);
    } else {
      var front, last := segments[..|segments| - 1], segments[|segments| - 1];
      assert segments == front + [last];
      OlderThanIsExact(front, cutoff);
      var rest := OlderThan(front, cutoff);
      var at: seq<nat> :| OldAt(rest, front, cutoff, at);
      OldAtSnoc(rest, front, last, cutoff, at);
      assert OlderThan(segments, cutoff) == if last.createdAt < cutoff then rest + [last] else rest;
      hide OlderThan;
      var at': seq<nat> := if last.createdAt < cutoff then at + [|front|] else at;
      assert OldAt(OlderThan(segments, cutoff), segments, cutoff, at');
    }
  }

  lemma {:induction false} OlderThanMembers(segments: seq<Segment>, cutoff: int)
    ensures forall s :: s in OlderThan(segments, cutoff) <==> s in segments && s.createdAt < cutoff
  {
    if segments != [] {
      var front, last := segments[..|segments| - 1], segments[|segments| - 1];
      assert segments == front + [last];
      OlderThanMembers(front, cutoff);
    }
  }

  lemma NoneOld(cutoff: int)
    ensures OldAt([], [], cutoff, [])
  {
  }

  function TotalBytes(segments: seq<Segment>): nat {
    if segments == [] then 0
    else TotalBytes(segments[..|segments| - 1]) + segments[|segments| - 1].sizeBytes
  }

  // --- the classes ---

  /** The files, by path. */
  class Disk {
    var files: Files

    constructor ()
      ensures files == map[]
    {
      files := map[];
    }

    method AppendFile(path: string, data: seq<Byte>)
      modifies this
      ensures files == old(files)[path := Get(old(files), path, []) + data]
    {
      files := files[path := Get(files, path, []) + data];
    }

    method WriteFile(path: string, data: seq<Byte>)
      modifies this
      ensures files == old(files)[path := data]
    {
      files := files[path := data];
    }

    method DeleteFile(path: string)
      modifies this
      ensures files == old(files) - {path}
    {
      files := files - {path};
    }

    /** A file that is not there reads as empty. */
    method ReadSegment(path: string) returns (data: seq<Byte>)
      ensures data == Get(files, path, [])
    {
      data := Get(files, path, []);
    }
  }

  class SegmentManager {
    var segments: seq<Segment>
    var activeIndex: nat
    ghost var trimmed: set<nat>
    const cfg: Config
    const disk: Disk

    constructor (segmentDir: string, walDiskQuotaGb: real, disk: Disk)
      requires walDiskQuotaGb >= 0.0
      ensures cfg == Config(segmentDir, (walDiskQuotaGb * 1024.0 / 64.0).Floor) && this.disk == disk
      ensures State() == Store([], 0, disk.files, {})
    {
      segments, activeIndex, trimmed := [], 0, {};
      cfg := Config(segmentDir, (walDiskQuotaGb * 1024.0 / 64.0).Floor);
      this.disk := disk;
    }

    ghost function State(): Store
      reads this, disk
    {
      Store(segments, activeIndex, disk.files, trimmed)
    }

    method CreateNewSegment(now: int)
      modifies this
      ensures State() == Created(cfg, old(State()), now)
    {
      activeIndex := activeIndex + 1;
      segments := segments + [Segment(activeIndex, SegmentPath(cfg.segmentDir, activeIndex), 0, now)];
    }

    method GetActiveSegment(now: int) returns (active: Segment)
      modifies this
      ensures State() == Touched(cfg, old(State()), now) && active == Active(State())
    {
      if |segments| == 0 {
        CreateNewSegment(now);
      }
      active := segments[|segments| - 1];
    }

    method TrimWindow()
      modifies this, disk
      ensures State() == Trimmed(cfg, old(State()))
    {
      while |segments| > cfg.maxSegments
        invariant Trimmed(cfg, State()) == Trimmed(cfg, old(State()))
        decreases |segments|
      {
        var oldest := segments[0];
        segments, trimmed := segments[1..], trimmed + {oldest.index};
        disk.DeleteFile(oldest.path);
      }
    }

    method Rotate(now: int, later: int) returns (active: Segment)
      modifies this, disk
      ensures State() == Rotated(cfg, old(State()), now, later) && active == Active(State())
    {
      CreateNewSegment(now);
      TrimWindow();
      active := GetActiveSegment(later);
    }

    method RecordWrite(byteCount: nat, now: int, later: int) returns (rotated: bool)
      modifies this, disk
      ensures State() == Recorded(cfg, old(State()), byteCount, now, later)
      ensures rotated <==> Active(Grown(Touched(cfg, old(State()), now), byteCount)).sizeBytes >= SEGMENT_SIZE_BYTES
    {
      var active := GetActiveSegment(now);
      active := active.(sizeBytes := active.sizeBytes + byteCount);
      segments := segments[|segments| - 1 := active];
      if active.sizeBytes >= SEGMENT_SIZE_BYTES {
        var _ := Rotate(now, later);
        return true;
      }
      return false;
    }

    /** The segment leaves the list before its file is deleted; `deletes` says whether the deletion succeeds. */
    method RemoveSegment(index: nat, deletes: bool := true) returns (ok: bool)
      modifies this, disk
      ensures State() == if deletes then Removed(old(State()), index) else Unlisted(old(State()), index)
      ensures ok == (deletes || Position(old(segments), index) == |old(segments)|)
    {
      var pos := Position(segments, index);
      if pos == |segments| {
        return true;
      }
      var seg := segments[pos];
      segments := segments[..pos] + segments[pos + 1..];
      if !deletes {
        return false;
      }
      disk.DeleteFile(seg.path);
      return true;
    }

    method GetSegmentsOlderThan(ageMs: int, now: int) returns (r: seq<Segment>)
      ensures OldOnes(r, segments, now - ageMs)
      ensures forall s :: s in r <==> s in segments && s.createdAt < now - ageMs
      ensures r == OlderThan(segments, now - ageMs)
    {
      hide OldOnes;
      OlderThanIsExact(segments, now - ageMs);
      OlderThanMembers(segments, now - ageMs);
      r := OlderThan(segments, now - ageMs);
    }
  }

  // --- the size of the window ---

  datatype StoreOp =
    | Write(bytes: nat, now: int, later: int)
    | RotateNow(now: int, later: int)
    | TouchNow(now: int)
    | DropPrefix(count: nat)

  /** Spilling removes whole prefixes of the window; here only what it does to the segment list. */
  function WindowStep(cfg: Config, st: Store, op: StoreOp): Store {
    match op
    case Write(bytes, now, later) => Recorded(cfg, st, bytes, now, later)
    case RotateNow(now, later) => Rotated(cfg, st, now, later)
    case TouchNow(now) => Touched(cfg, st, now)
    case DropPrefix(count) => if count <= |st.segments| then st.(segments := st.segments[count..]) else st
  }

  function WindowRun(cfg: Config, ops: seq<StoreOp>): Store {
    if ops == [] then Store([], 0, map[], {}) else WindowStep(cfg, WindowRun(cfg, ops[..|ops| - 1]), ops[|ops| - 1])
  }

  function WindowSize(cfg: Config): nat {
    if cfg.maxSegments == 0 then 1 else cfg.maxSegments
  }

  /** Strictly increasing indices up to the active one, and no segment over `most` bytes. */
  ghost predicate Row(segments: seq<Segment>, activeIndex: nat, most: int) {
    && (forall i, j | 0 <= i < j < |segments| :: segments[i].index < segments[j].index)
    && (forall i | 0 <= i < |segments| :: segments[i].index <= activeIndex && segments[i].sizeBytes <= most)
  }

  /** Every segment at most one write over full, and the active one not full. */
  ghost predicate WindowOk(cfg: Config, maxWrite: nat, st: Store) {
    && |st.segments| <= WindowSize(cfg)
    && Row(st.segments, st.activeIndex, SEGMENT_SIZE_BYTES - 1 + maxWrite)
    && (st.segments != [] ==> Active(st).sizeBytes < SEGMENT_SIZE_BYTES)
  }

  lemma RowSuffix(segments: seq<Segment>, activeIndex: nat, most: int, d: nat)
    requires Row(segments, activeIndex, most) && d <= |segments|
    ensures Row(segments[d..], activeIndex, most)
  {
    var kept := segments[d..];
    assert forall i | 0 <= i < |kept| :: kept[i] == segments[d + i];
  }

  function Indices(segments: seq<Segment>): set<nat> {
    set s | s in segments :: s.index
  }

  function Paths(segments: seq<Segment>): set<string> {
    set s | s in segments :: s.path
  }

  function TrimCount(cfg: Config, st: Store): (d: nat)
    ensures d <= |st.segments|
  {
    if |st.segments| <= cfg.maxSegments then 0 else |st.segments| - cfg.maxSegments
  }

  /** What `Trimmed` leaves: the newest segments. */
  lemma {:induction false} TrimmedIs(cfg: Config, st: Store)
    ensures var d := TrimCount(cfg, st);
            Trimmed(cfg, st) ==
              Store(st.segments[d..], st.activeIndex, st.files - Paths(st.segments[..d]),
                    st.trimmed + Indices(st.segments[..d]))
    decreases |st.segments|
  {
    hide Paths, Indices;
    var d := TrimCount(cfg, st);
    NamesOfNone();
    if d > 0 {
      var oldest, rest := st.segments[0], st.segments[1..];
      var next := st.(segments := rest, files := st.files - {oldest.path}, trimmed := st.trimmed + {oldest.index});
      TrimmedIs(cfg, next);
      assert st.segments[..d] == [oldest] + rest[..d - 1];
      NamesOfFirst(oldest, rest[..d - 1]);
      assert rest[d - 1..] == st.segments[d..];
      assert st.files - {oldest.path} - Paths(rest[..d - 1]) == st.files - ({oldest.path} + Paths(rest[..d - 1]));
      assert st.trimmed + {oldest.index} + Indices(rest[..d - 1])
          == st.trimmed + ({oldest.index} + Indices(rest[..d - 1]));
    } else {
      assert st.segments[..0] == [] && st.segments[0..] == st.segments;
      assert st.files - {} == st.files && st.trimmed + {} == st.trimmed;
    }
  }

  lemma NamesOfNone()
    ensures Paths([]) == {} && Indices([]) == {}
  {
  }

  lemma NamesOfFirst(first: Segment, rest: seq<Segment>)
    ensures Paths([first] + rest) == {first.path} + Paths(rest)
    ensures Indices([first] + rest) == {first.index} + Indices(rest)
  {
    assert forall s :: s in [first] + rest <==> s == first || s in rest;
  }

  lemma CreatedRow(cfg: Config, st: Store, now: int, most: nat)
    requires Row(st.segments, st.activeIndex, most)
    ensures var c := Created(cfg, st, now); Row(c.segments, c.activeIndex, most)
  {
  }

  lemma TouchedOk(cfg: Config, maxWrite: nat, st: Store, now: int)
    requires WindowOk(cfg, maxWrite, st)
    ensures WindowOk(cfg, maxWrite, Touched(cfg, st, now))
  {
    CreatedRow(cfg, st, now, SEGMENT_SIZE_BYTES - 1 + maxWrite);
  }

  /** Rotation keeps the window, also when it has just filled the active segment. */
  lemma RotatedOk(cfg: Config, maxWrite: nat, st: Store, now: int, later: int)
    requires Row(st.segments, st.activeIndex, SEGMENT_SIZE_BYTES - 1 + maxWrite)
    ensures WindowOk(cfg, maxWrite, Rotated(cfg, st, now, later))
  {
    var created := Created(cfg, st, now);
    CreatedRow(cfg, st, now, SEGMENT_SIZE_BYTES - 1 + maxWrite);
    TrimmedIs(cfg, created);
    var d := TrimCount(cfg, created);
    RowSuffix(created.segments, created.activeIndex, SEGMENT_SIZE_BYTES - 1 + maxWrite, d);
    CreatedRow(cfg, Trimmed(cfg, created), later, SEGMENT_SIZE_BYTES - 1 + maxWrite);
    hide Trimmed, Created;
    RotatedSize(cfg, st, now, later);
  }

  lemma RotatedSize(cfg: Config, st: Store, now: int, later: int)
    ensures |Rotated(cfg, st, now, later).segments| <= WindowSize(cfg)
    ensures Active(Rotated(cfg, st, now, later)).sizeBytes == 0
  {
    TrimmedIs(cfg, Created(cfg, st, now));
  }

  lemma RecordedOk(cfg: Config, maxWrite: nat, st: Store, bytes: nat, now: int, later: int)
    requires WindowOk(cfg, maxWrite, st) && bytes <= maxWrite
    ensures WindowOk(cfg, maxWrite, Recorded(cfg, st, bytes, now, later))
  {
    TouchedOk(cfg, maxWrite, st, now);
    var touched := Touched(cfg, st, now);
    var grown := Grown(touched, bytes);
    assert forall i | 0 <= i < |grown.segments| - 1 :: grown.segments[i] == touched.segments[i];
    if Active(grown).sizeBytes >= SEGMENT_SIZE_BYTES {
      RotatedOk(cfg, maxWrite, grown, now, later);
    }
  }

  predicate WritesAtMost(ops: seq<StoreOp>, maxWrite: nat) {
    forall op | op in ops && op.Write? :: op.bytes <= maxWrite
  }

  lemma WindowStepOk(cfg: Config, maxWrite: nat, st: Store, op: StoreOp)
    requires WindowOk(cfg, maxWrite, st) && (op.Write? ==> op.bytes <= maxWrite)
    ensures WindowOk(cfg, maxWrite, WindowStep(cfg, st, op))
  {
    hide Recorded, Rotated, Touched;
    match op {
      case Write(bytes, now, later) => RecordedOk(cfg, maxWrite, st, bytes, now, later);
      case RotateNow(now, later) => RotatedOk(cfg, maxWrite, st, now, later);
      case TouchNow(now) => TouchedOk(cfg, maxWrite, st, now);
      case DropPrefix(count) =>
        if count <= |st.segments| {
          RowSuffix(st.segments, st.activeIndex, SEGMENT_SIZE_BYTES - 1 + maxWrite, count);
        }
    }
  }

  lemma {:induction false} WindowRunOk(cfg: Config, maxWrite: nat, ops: seq<StoreOp>)
    requires WritesAtMost(ops, maxWrite)
    ensures WindowOk(cfg, maxWrite, WindowRun(cfg, ops))
  {
    hide WindowStep;
    if ops != [] {
      var front, op := ops[..|ops| - 1], ops[|ops| - 1];
      assert op in ops && forall o | o in front :: o in ops;
      WindowRunOk(cfg, maxWrite, front);
      WindowStepOk(cfg, maxWrite, WindowRun(cfg, front), op);
    }
  }

  lemma {:induction false} TotalAtMost(segments: seq<Segment>, each: nat)
    requires forall s | s in segments :: s.sizeBytes <= each
    ensures TotalBytes(segments) <= |segments| * each
  {
    if segments != [] {
      TotalAtMost(segments[..|segments| - 1], each);
      assert segments[|segments| - 1] in segments;
      assert |segments| * each == (|segments| - 1) * each + each;
    }
  }

  /**
   After any writes of at most `maxWrite` bytes, rotations and prefix removals: the indices strictly
   increase, there are at most N = max(1, maxSegments) segments, the active one is below 64 MiB, and
   together they hold at most (N - 1) * (64 MiB - 1 + maxWrite) + 64 MiB - 1 bytes.
   */
  lemma WindowIsBounded(cfg: Config, maxWrite: nat, ops: seq<StoreOp>)
    requires WritesAtMost(ops, maxWrite)
    ensures var st := WindowRun(cfg, ops);
            var n := WindowSize(cfg);
            && WindowOk(cfg, maxWrite, st)
            && TotalBytes(st.segments) <= (n - 1) * (SEGMENT_SIZE_BYTES - 1 + maxWrite) + SEGMENT_SIZE_BYTES - 1
  {
    WindowRunOk(cfg, maxWrite, ops);
    TotalBounded(cfg, maxWrite, WindowRun(cfg, ops));
  }

  lemma TotalBounded(cfg: Config, maxWrite: nat, st: Store)
    requires WindowOk(cfg, maxWrite, st)
    ensures TotalBytes(st.segments) <= (WindowSize(cfg) - 1) * (SEGMENT_SIZE_BYTES - 1 + maxWrite)
            + SEGMENT_SIZE_BYTES - 1
  {
    var n, each := WindowSize(cfg), SEGMENT_SIZE_BYTES - 1 + maxWrite;
    if st.segments == [] {
      MonotoneProduct(0, n - 1, each);
    } else {
      var full := st.segments[..|st.segments| - 1];
      forall s | s in full ensures s.sizeBytes <= each {
        var i :| 0 <= i < |full| && full[i] == s;
        assert st.segments[i] == s;
      }
      TotalAtMost(full, each);
      MonotoneProduct(|full|, n - 1, each);
    }
  }

  lemma MonotoneProduct(a: nat, b: nat, c: nat)
    requires a <= b
    ensures a * c <= b * c
  {
    assert b * c == a * c + (b - a) * c;
  }
}
