/** Appending to the write-ahead log, with the partition-mode throttle (src/ledger/wal-writer.ts). */
module WalWriters {
  import opened Common
  import opened WalFrames
  import opened SegmentStore
  import opened AckWatermarks

  const PARTITION_THROTTLE_BYTES_PER_MIN := 50 * 1024 * 1024
  const PARTITION_FLUSH_BYTES := 10 * 1024 * 1024
  const NORMAL_FLUSH_BYTES := 64 * 1024 * 1024

  /** A record and the segment it was appended to. */
  datatype Entry = Entry(record: WalRecord, segment: nat)

  datatype AppendResult = Appended | Throttled | EncodingError

  // --- the throttle ---

  datatype Throttle = Throttle(partitionMode: bool, written: nat, windowStart: int)

  /** The throttle after its window has slid, and whether a payload of this size is let through. */
  function Admit(t: Throttle, payloadBytes: nat, now: int): (Throttle, bool) {
    if !t.partitionMode then (t, true)
    else
      var slid := if now - t.windowStart >= 60_000 then Throttle(true, 0, now) else t;
      (slid, slid.written + payloadBytes <= PARTITION_THROTTLE_BYTES_PER_MIN)
  }

  function Charge(t: Throttle, frameBytes: nat): Throttle {
    if t.partitionMode then t.(written := t.written + frameBytes) else t
  }

  /** The store with a frame appended to the active segment's file and accounted for. */
  function WithFrame(cfg: Config, st: Store, r: WalRecord, now: int, later: int): (s: Store)
    requires Encodable(r)
    ensures s.segments != []
  {
    var touched := Touched(cfg, st, now);
    var path := Active(touched).path;
    Recorded(cfg, touched.(files := touched.files[path := Get(touched.files, path, []) + Frame(r)]),
             |Frame(r)|, now, later)
  }

  class WalWriter {
    var partitionMode: bool
    var bytesWrittenThisMinute: nat
    var minuteWindowStart: int
    var bytesSinceLastFlush: nat
    const segmentManager: SegmentManager
    const watermark: AckWatermark
    /** Every record appended so far, with its segment. */
    ghost var history: seq<Entry>

    constructor (segmentManager: SegmentManager, watermark: AckWatermark, now: int)
      ensures this.segmentManager == segmentManager && this.watermark == watermark && history == []
      ensures ThrottleState() == Throttle(false, 0, now)
    {
      this.segmentManager, this.watermark := segmentManager, watermark;
      partitionMode, bytesWrittenThisMinute, minuteWindowStart, bytesSinceLastFlush := false, 0, now, 0;
      history := [];
    }

    function ThrottleState(): Throttle
      reads this
    {
      Throttle(partitionMode, bytesWrittenThisMinute, minuteWindowStart)
    }

    method Append(record: WalRecord, now: int, later: int) returns (r: AppendResult)
      modifies this, segmentManager, segmentManager.disk, watermark
      ensures var (t, admitted) := Admit(old(ThrottleState()), |record.payload|, now);
              && r == (if !admitted then Throttled else if !Encodable(record) then EncodingError else Appended)
              && ThrottleState() == (if r == Appended then Charge(t, 12 + |record.payload|) else t)
      ensures r != Throttled ==>
                (r == Appended <==> 0 <= record.lsn < 0x1_0000_0000_0000_0000 && |record.payload| < 0x1_0000_0000)
      ensures !old(partitionMode) ==> r != Throttled && ThrottleState() == old(ThrottleState())
      ensures r != Appended ==>
                && segmentManager.State() == old(segmentManager.State()) && history == old(history)
                && unchanged(watermark) && bytesSinceLastFlush == old(bytesSinceLastFlush)
      ensures r == Appended ==>
                && var unsynced := old(bytesSinceLastFlush) + 12 + |record.payload|;
                && var threshold := (if old(partitionMode) then 10 else 64) * 1024 * 1024;
                && bytesSinceLastFlush == (if unsynced >= threshold then 0 else unsynced)
                && segmentManager.State() ==
                   WithFrame(segmentManager.cfg, old(segmentManager.State()), record, now, later)
                && var active := Active(Touched(segmentManager.cfg, old(segmentManager.State()), now));
                && history == old(history) + [Entry(record, active.index)]
                && watermark.Stepped(Acknowledge(record.lsn))
    {
      hide WithFrame, Created, WatermarkStep;
      if partitionMode {
        if now - minuteWindowStart >= 60_000 {
          bytesWrittenThisMinute, minuteWindowStart := 0, now;
        }
        if bytesWrittenThisMinute + |record.payload| > PARTITION_THROTTLE_BYTES_PER_MIN {
          return Throttled;
        }
      }
      if !(0 <= record.lsn < 0x1_0000_0000_0000_0000) || |record.payload| >= 0x1_0000_0000 {
        return EncodingError;
      }
      WriteFrame(record, now, later);
      var frameBytes := 12 + |record.payload|;
      if partitionMode {
        bytesWrittenThisMinute := bytesWrittenThisMinute + frameBytes;
      }
      bytesSinceLastFlush := bytesSinceLastFlush + frameBytes;
      var flushThreshold := if partitionMode then PARTITION_FLUSH_BYTES else NORMAL_FLUSH_BYTES;
      if bytesSinceLastFlush >= flushThreshold {
        Flush(later);
      }
      watermark.AcknowledgeLsn(record.lsn);
      return Appended;
    }

    /** Appends the frame to the active segment's file and accounts for it. */
    method WriteFrame(record: WalRecord, now: int, later: int)
      requires Encodable(record)
      modifies this`history, segmentManager, segmentManager.disk
      ensures segmentManager.State() == WithFrame(segmentManager.cfg, old(segmentManager.State()), record, now, later)
      ensures var active := Active(Touched(segmentManager.cfg, old(segmentManager.State()), now));
              history == old(history) + [Entry(record, active.index)]
    {
      var frame := Frame(record);
      var active := segmentManager.GetActiveSegment(now);
      history := history + [Entry(record, active.index)];
      segmentManager.disk.AppendFile(active.path, frame);
      var _ := segmentManager.RecordWrite(|frame|, now, later);
    }

    /** Syncing itself is not modelled; finding the segment to sync may create the first one. */
    method Flush(now: int)
      modifies this`bytesSinceLastFlush, segmentManager
      ensures segmentManager.State() == Touched(segmentManager.cfg, old(segmentManager.State()), now)
      ensures bytesSinceLastFlush == 0
    {
      var _ := segmentManager.GetActiveSegment(now);
      bytesSinceLastFlush := 0;
    }

    method SetPartitionMode(active: bool, now: int)
      modifies this`partitionMode, this`bytesWrittenThisMinute, this`minuteWindowStart, this`bytesSinceLastFlush,
          segmentManager
      ensures active && !old(partitionMode) ==>
                && ThrottleState() == Throttle(true, 0, now) && bytesSinceLastFlush == 0
                && segmentManager.State() == Touched(segmentManager.cfg, old(segmentManager.State()), now)
      ensures !(active && !old(partitionMode)) ==>
                && ThrottleState() == old(ThrottleState()).(partitionMode := active)
                && bytesSinceLastFlush == old(bytesSinceLastFlush)
                && segmentManager.State() == old(segmentManager.State())
    {
      if active == partitionMode {
        return;
      }
      partitionMode := active;
      if active {
        Flush(now);
        bytesWrittenThisMinute, minuteWindowStart := 0, now;
      }
    }
  }

  // --- how much a partition lets through ---

  /** One call of `append` during a partition. */
  datatype Attempt = Attempt(payloadBytes: nat, encodable: bool, now: int)

  /** The throttle after the attempts of an episode that began at `start`, and the frame bytes written. */
  function Episode(start: int, attempts: seq<Attempt>): (Throttle, nat) {
    if attempts == [] then (Throttle(true, 0, start), 0)
    else
      var (before, total) := Episode(start, attempts[..|attempts| - 1]);
      var a := attempts[|attempts| - 1];
      var (t, admitted) := Admit(before, a.payloadBytes, a.now);
      if admitted && a.encodable then (Charge(t, 12 + a.payloadBytes), total + 12 + a.payloadBytes) else (t, total)
  }

  /** The clock never goes back, from the start of the episode to its end. */
  predicate Clocked(start: int, attempts: seq<Attempt>, end: int) {
    if attempts == [] then start <= end
    else attempts[|attempts| - 1].now <= end && Clocked(start, attempts[..|attempts| - 1], attempts[|attempts| - 1].now)
  }

  const WINDOW_MAX := PARTITION_THROTTLE_BYTES_PER_MIN + 12

  /** `closed` windows have ended; each let through at most `WINDOW_MAX`. */
  lemma {:induction false} WindowsBound(start: int, attempts: seq<Attempt>, end: int) returns (closed: nat)
    requires Clocked(start, attempts, end)
    ensures var (t, total) := Episode(start, attempts);
            && t.partitionMode && start + 60_000 * closed <= t.windowStart <= end
            && t.written <= WINDOW_MAX && total <= closed * WINDOW_MAX + t.written
  {
    if attempts == [] {
      return 0;
    }
    var a := attempts[|attempts| - 1];
    var before := WindowsBound(start, attempts[..|attempts| - 1], a.now);
    closed := if a.now - Episode(start, attempts[..|attempts| - 1]).0.windowStart >= 60_000 then before + 1 else before;
  }

  /**
   In a partition episode of D ms no more than (D / 60000 + 1) * (50 MiB + 12) frame bytes are
   written: the check counts the payload, the charge the whole frame, so a window can go over by
   one header.
   */
  lemma EpisodeIsBounded(start: int, attempts: seq<Attempt>, end: int)
    requires Clocked(start, attempts, end)
    ensures start <= end
    ensures Episode(start, attempts).1 <= ((end - start) / 60_000 + 1) * WINDOW_MAX
  {
    var closed := WindowsBound(start, attempts, end);
    var minutes := (end - start) / 60_000;
    assert closed <= minutes;
    assert (minutes - closed) * WINDOW_MAX >= 0;
    assert (minutes + 1) * WINDOW_MAX == closed * WINDOW_MAX + (minutes - closed) * WINDOW_MAX + WINDOW_MAX;
  }

  function FullMinutes(start: int, k: nat): seq<Attempt> {
    if k == 0 then [Attempt(PARTITION_THROTTLE_BYTES_PER_MIN, true, start)]
    else FullMinutes(start, k - 1) + [Attempt(PARTITION_THROTTLE_BYTES_PER_MIN, true, start + 60_000 * k)]
  }

  /** The bound is exact for every length: one full payload a minute attains it. */
  lemma BoundIsAttained(start: int, k: nat, end: int)
    requires start + 60_000 * k <= end < start + 60_000 * (k + 1)
    ensures Clocked(start, FullMinutes(start, k), end)
    ensures Episode(start, FullMinutes(start, k)).1 == ((end - start) / 60_000 + 1) * WINDOW_MAX
    ensures Episode(start, FullMinutes(start, k)).0 == Throttle(true, WINDOW_MAX, start + 60_000 * k)
  {
    hide Episode, Clocked, FullMinutes;
    MinutesAttain(start, k);
    ClockedLonger(start, FullMinutes(start, k), start + 60_000 * k, end);
    assert (end - start) / 60_000 == k;
  }

  lemma {:induction false} MinutesAttain(start: int, k: nat)
    ensures Clocked(start, FullMinutes(start, k), start + 60_000 * k)
    ensures Episode(start, FullMinutes(start, k))
            == (Throttle(true, WINDOW_MAX, start + 60_000 * k), (k + 1) * WINDOW_MAX)
  {
    if k == 0 {
      assert FullMinutes(start, k)[..0] == [];
    } else {
      hide Episode, Clocked;
      var at, before := start + 60_000 * k, FullMinutes(start, k - 1);
      var a := Attempt(PARTITION_THROTTLE_BYTES_PER_MIN, true, at);
      assert FullMinutes(start, k) == before + [a];
      MinutesAttain(start, k - 1);
      ClockedLonger(start, before, start + 60_000 * (k - 1), at);
      OneMoreMinute(start, before, a);
      assert (k + 1) * WINDOW_MAX == k * WINDOW_MAX + WINDOW_MAX;
    }
  }

  /** A full payload a minute after the last one opens a window and fills it. */
  lemma OneMoreMinute(start: int, before: seq<Attempt>, a: Attempt)
    requires Clocked(start, before, a.now) && a.payloadBytes == PARTITION_THROTTLE_BYTES_PER_MIN && a.encodable
    requires var t := Episode(start, before).0; t.partitionMode && a.now - t.windowStart >= 60_000
    ensures Clocked(start, before + [a], a.now)
    ensures Episode(start, before + [a]) == (Throttle(true, WINDOW_MAX, a.now), Episode(start, before).1 + WINDOW_MAX)
  {
    assert (before + [a])[..|before|] == before;
  }

  lemma ClockedLonger(start: int, attempts: seq<Attempt>, end: int, later: int)
    requires Clocked(start, attempts, end) && end <= later
    ensures Clocked(start, attempts, later)
  {
  }
}
