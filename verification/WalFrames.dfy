/**
 The frames of the write-ahead log: [8-byte LSN][4-byte payload length][payload], big-endian
 (src/ledger/wal-writer.ts, src/ledger/ledger-sync-protocol.ts).
 */
module WalFrames {
  import opened Common

  type Byte = b: int | 0 <= b < 0x100

  /** An LSN is a `bigint`: nothing but the encoder bounds it. */
  datatype WalRecord = WalRecord(lsn: int, payload: seq<Byte>)

  function Pow256(k: nat): (r: nat)
    ensures r > 0
  {
    if k == 0 then 1 else 0x100 * Pow256(k - 1)
  }

  function BigEndian(n: nat, k: nat): (bs: seq<Byte>)
    ensures |bs| == k
  {
    if k == 0 then [] else BigEndian(n / 0x100, k - 1) + [n % 0x100]
  }

  function FromBigEndian(bs: seq<Byte>): nat {
    if bs == [] then 0 else FromBigEndian(bs[..|bs| - 1]) * 0x100 + bs[|bs| - 1]
  }

  lemma {:induction false} BigEndianRoundTrip(n: nat, k: nat)
    requires n < Pow256(k)
    ensures FromBigEndian(BigEndian(n, k)) == n
  {
    if k > 0 {
      BigEndianRoundTrip(n / 0x100, k - 1);
      var bs := BigEndian(n, k);
      assert bs[..|bs| - 1] == BigEndian(n / 0x100, k - 1);
    }
  }

  lemma WordSizes()
    ensures Pow256(4) == 0x1_0000_0000 && Pow256(8) == 0x1_0000_0000_0000_0000
  {
    assert Pow256(2) == 0x1_0000;
    assert Pow256(4) == 0x1_0000 * Pow256(2);
    assert Pow256(6) == 0x1_0000 * Pow256(4);
    assert Pow256(8) == 0x1_0000 * Pow256(6);
  }

  /** What `writeBigUInt64BE` and `writeUInt32BE` accept; anything else makes them throw. */
  predicate Encodable(r: WalRecord) {
    0 <= r.lsn < 0x1_0000_0000_0000_0000 && |r.payload| < 0x1_0000_0000
  }

  function Frame(r: WalRecord): (bs: seq<Byte>)
    requires Encodable(r)
    ensures |bs| == 12 + |r.payload|
  {
    BigEndian(r.lsn, 8) + BigEndian(|r.payload|, 4) + r.payload
  }

  predicate AllEncodable(rs: seq<WalRecord>) {
    forall r | r in rs :: Encodable(r)
  }

  function Frames(rs: seq<WalRecord>): seq<Byte>
    requires AllEncodable(rs)
  {
    if rs == [] then [] else Frames(rs[..|rs| - 1]) + Frame(rs[|rs| - 1])
  }

  /** The records whose frames lie wholly at the start of `raw`; a truncated frame ends the decoding. */
  function Decode(raw: seq<Byte>): seq<WalRecord> {
    if |raw| < 12 then []
    else
      var size := FromBigEndian(raw[8..12]);
      if 12 + size > |raw| then []
      else [WalRecord(FromBigEndian(raw[..8]), raw[12..12 + size])] + Decode(raw[12 + size..])
  }

  /** The highest LSN, or 0 where there is none. */
  function MaxLsn(rs: seq<WalRecord>): int {
    if rs == [] then 0
    else
      var m := MaxLsn(rs[..|rs| - 1]);
      if rs[|rs| - 1].lsn > m then rs[|rs| - 1].lsn else m
  }

  lemma {:induction false} MaxLsnBounds(rs: seq<WalRecord>)
    ensures forall r | r in rs :: r.lsn <= MaxLsn(rs)
    ensures MaxLsn(rs) == 0 || exists r | r in rs :: r.lsn == MaxLsn(rs)
    ensures MaxLsn(rs) >= 0
  {
    if rs != [] {
      MaxLsnBounds(rs[..|rs| - 1]);
      assert rs[|rs| - 1] in rs && forall r | r in rs[..|rs| - 1] :: r in rs;
    }
  }

  lemma {:induction false} FramesConcat(a: seq<WalRecord>, b: seq<WalRecord>)
    requires AllEncodable(a) && AllEncodable(b)
    ensures AllEncodable(a + b) && Frames(a + b) == Frames(a) + Frames(b)
  {
    hide Frames, Frame, Encodable;
    NoFrames();
    if b == [] {
      assert a + b == a;
      assert Frames(a) + [] == Frames(a);
    } else {
      var front, last, all := b[..|b| - 1], b[|b| - 1], a + b;
      assert all[..|all| - 1] == a + front && all[|all| - 1] == last;
      assert forall r | r in front :: r in b;
      FramesConcat(a, front);
      FramesLast(b);
      FramesLast(all);
      SameParts(Frames(a), Frames(front), Frame(last));
    }
  }

  lemma FramesLast(rs: seq<WalRecord>)
    requires AllEncodable(rs) && rs != []
    ensures Encodable(rs[|rs| - 1]) && AllEncodable(rs[..|rs| - 1])
    ensures Frames(rs) == Frames(rs[..|rs| - 1]) + Frame(rs[|rs| - 1])
  {
    assert rs[|rs| - 1] in rs;
  }

  /** A frame at the start of the bytes is decoded to its record, whatever follows. */
  lemma DecodeFrame(r: WalRecord, rest: seq<Byte>)
    requires Encodable(r)
    ensures Decode(Frame(r) + rest) == [r] + Decode(rest)
  {
    WordSizes();
    BigEndianRoundTrip(r.lsn, 8);
    BigEndianRoundTrip(|r.payload|, 4);
    var raw := Frame(r) + rest;
    assert raw[..8] == BigEndian(r.lsn, 8);
    assert raw[8..12] == BigEndian(|r.payload|, 4);
    assert raw[12..12 + |r.payload|] == r.payload;
    assert raw[12 + |r.payload|..] == rest;
  }

  /** Fewer bytes than its frame has decode to nothing. */
  lemma DecodeTruncated(r: WalRecord, n: nat)
    requires Encodable(r) && n < |Frame(r)|
    ensures Decode(Frame(r)[..n]) == []
  {
    WordSizes();
    BigEndianRoundTrip(|r.payload|, 4);
    var raw := Frame(r)[..n];
    if n >= 12 {
      assert raw[8..12] == BigEndian(|r.payload|, 4);
    }
  }

  /** The frame of the first record, then the frames of the others. */
  lemma FramesFirst(r: WalRecord, rs: seq<WalRecord>)
    requires Encodable(r) && AllEncodable(rs)
    ensures AllEncodable([r] + rs) && Frames([r] + rs) == Frame(r) + Frames(rs)
  {
    assert [r][..0] == [];
    assert Frames([r]) == [] + Frame(r);
    FramesConcat([r], rs);
  }

  lemma FirstFrameCut(r: WalRecord, rs: seq<WalRecord>, n: nat)
    requires Encodable(r) && AllEncodable(rs) && n <= |Frame(r)| + |Frames(rs)|
    ensures AllEncodable([r] + rs) && n <= |Frames([r] + rs)|
    ensures n < |Frame(r)| ==> Decode(Frames([r] + rs)[..n]) == []
    ensures n >= |Frame(r)| ==>
              Decode(Frames([r] + rs)[..n]) == [r] + Decode(Frames(rs)[..n - |Frame(r)|])
  {
    FramesFirst(r, rs);
    var all := Frame(r) + Frames(rs);
    if n < |Frame(r)| {
      assert all[..n] == Frame(r)[..n];
      DecodeTruncated(r, n);
    } else {
      assert all[..n] == Frame(r) + Frames(rs)[..n - |Frame(r)|];
      DecodeFrame(r, Frames(rs)[..n - |Frame(r)|]);
    }
  }

  /**
   Decoding the first `n` bytes of encoded records gives exactly the `k` records whose frames lie
   wholly within them.
   */
  lemma {:induction false} DecodePrefix(rs: seq<WalRecord>, n: nat, k: nat)
    requires AllEncodable(rs) && n <= |Frames(rs)|
    requires k <= |rs| && |Frames(rs[..k])| <= n && (k < |rs| ==> n < |Frames(rs[..k + 1])|)
    ensures Decode(Frames(rs)[..n]) == rs[..k]
    decreases |rs|
  {
    hide Decode, Frames, Frame, Encodable;
    if rs == [] {
      NoFrames();
      assert Frames(rs)[..n] == [] && rs[..k] == [];
    } else {
      var first, rest := rs[0], rs[1..];
      assert first in rs && rs == [first] + rest;
      assert forall r | r in rest :: r in rs;
      FramesFirst(first, rest);
      FirstFrameCut(first, rest, n);
      PrefixLength(first, rest, k);
      if k < |rs| {
        PrefixLength(first, rest, k + 1);
      }
      if k == 0 {
        assert rs[..0] == [];
      } else {
        var m := n - |Frame(first)|;
        DecodePrefix(rest, m, k - 1);
        assert Decode(Frames(rs)[..n]) == [first] + rest[..k - 1];
        assert rs[..k] == [first] + rest[..k - 1];
      }
    }
  }

  lemma NoFrames()
    ensures Frames([]) == [] && Decode([]) == []
  {
  }

  lemma PrefixLength(r: WalRecord, rs: seq<WalRecord>, k: nat)
    requires Encodable(r) && AllEncodable(rs) && k <= |rs| + 1
    ensures AllEncodable(([r] + rs)[..k])
    ensures |Frames(([r] + rs)[..k])| == if k == 0 then 0 else |Frame(r)| + |Frames(rs[..k - 1])|
  {
    if k > 0 {
      assert ([r] + rs)[..k] == [r] + rs[..k - 1];
      FramesFirst(r, rs[..k - 1]);
    }
  }

  /** Decoding what was encoded gives back exactly the records. */
  lemma DecodeFrames(rs: seq<WalRecord>)
    requires AllEncodable(rs)
    ensures Decode(Frames(rs)) == rs
  {
    assert rs[..|rs|] == rs && Frames(rs)[..|Frames(rs)|] == Frames(rs);
    DecodePrefix(rs, |Frames(rs)|, |rs|);
  }

  lemma SliceOfTail<T>(s: seq<T>, at: nat, lo: nat, hi: nat)
    requires at + hi <= |s| && lo <= hi
    ensures s[at..][lo..hi] == s[at + lo..at + hi]
  {
  }

  /** Decoding from an offset: nothing more, or a record and what follows it. */
  lemma DecodeAt(raw: seq<Byte>, offset: nat)
    requires offset <= |raw|
    ensures offset + 12 > |raw| ==> Decode(raw[offset..]) == []
    ensures offset + 12 <= |raw| ==>
              var size := FromBigEndian(raw[offset + 8..offset + 12]);
              var body := offset + 12;
              if body + size > |raw| then Decode(raw[offset..]) == []
              else Decode(raw[offset..])
                   == [WalRecord(FromBigEndian(raw[offset..offset + 8]), raw[body..body + size])]
                       + Decode(raw[body + size..])
  {
    hide FromBigEndian;
    if offset + 12 <= |raw| {
      var tail := raw[offset..];
      SliceOfTail(raw, offset, 0, 8);
      SliceOfTail(raw, offset, 8, 12);
      var size := FromBigEndian(raw[offset + 8..offset + 12]);
      if offset + 12 + size <= |raw| {
        SliceOfTail(raw, offset, 12, 12 + size);
        assert tail[12 + size..] == raw[offset + 12 + size..];
      }
    }
  }

  lemma MaxLsnSnoc(rs: seq<WalRecord>, r: WalRecord)
    ensures MaxLsn(rs + [r]) == if r.lsn > MaxLsn(rs) then r.lsn else MaxLsn(rs)
    ensures MaxLsn([]) == 0
  {
    assert (rs + [r])[..|rs|] == rs;
  }

  /** The decoding loop of `replayArchiveFile`, delivering each record in turn. */
  method ReplayRaw(raw: seq<Byte>) returns (delivered: seq<WalRecord>, highestLsn: int)
    ensures delivered == Decode(raw) && highestLsn == MaxLsn(delivered)
  {
    hide Decode, FromBigEndian, MaxLsn;
    var offset := 0;
    highestLsn, delivered := 0, [];
    MaxLsnSnoc([], WalRecord(0, []));
    assert raw[0..] == raw;
    while offset + 12 <= |raw|
      invariant 0 <= offset <= |raw|
      invariant delivered + Decode(raw[offset..]) == Decode(raw)
      invariant highestLsn == MaxLsn(delivered)
      decreases |raw| - offset
    {
      DecodeAt(raw, offset);
      var lsn := FromBigEndian(raw[offset..offset + 8]);
      var payloadLen := FromBigEndian(raw[offset + 8..offset + 12]);
      offset := offset + 12;
      if offset + payloadLen > |raw| {
        assert delivered + [] == delivered;
        return;
      }
      var payload := raw[offset..offset + payloadLen];
      offset := offset + payloadLen;
      ghost var before, r := delivered, WalRecord(lsn, payload);
      delivered := delivered + [WalRecord(lsn, payload)];
      assert before + ([r] + Decode(raw[offset..])) == delivered + Decode(raw[offset..]);
      MaxLsnSnoc(before, r);
      if lsn > highestLsn {
        highestLsn := lsn;
      }
    }
    DecodeAt(raw, offset);
    assert delivered + [] == delivered;
  }
}
