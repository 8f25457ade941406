/**
 Per-NIC flow counters and their reconciliation, as in src/metering/flow-tracker.ts and
 src/metering/nic-aggregator.ts. A record is a value in its shard's map; counters are unbounded.
 */
module Metering {
  import opened Common
  import opened FlowNormalizer

  const METERING_NIC_COUNT: nat := 8
  const HASH_TABLE_SIZE: nat := 500_000
  const SHARD_CAPACITY: nat := HASH_TABLE_SIZE / METERING_NIC_COUNT

  datatype FlowRecord = FlowRecord(canonicalHash: string, tuple: CanonicalFlowTuple, ingressBytes: int,
      egressBytes: int)

  type Shard = map<string, FlowRecord>

  datatype Packet = Packet(nicId: int, tuple: CanonicalFlowTuple, bytes: int)

  // --- recording ---

  predicate Accepts(shards: seq<Shard>, p: Packet) {
    && 0 <= p.nicId < |shards|
    && (HashCanonicalFlow(p.tuple) in shards[p.nicId] || |shards[p.nicId]| < SHARD_CAPACITY)
  }

  function Counted(r: FlowRecord, p: Packet): FlowRecord {
    if p.tuple.isIngress then r.(ingressBytes := r.ingressBytes + p.bytes)
    else r.(egressBytes := r.egressBytes + p.bytes)
  }

  function RecordFor(shard: Shard, p: Packet): FlowRecord {
    var hash := HashCanonicalFlow(p.tuple);
    if hash in shard then shard[hash] else FlowRecord(hash, p.tuple, 0, 0)
  }

  function Recorded(shards: seq<Shard>, p: Packet): (shards': seq<Shard>)
    ensures |shards'| == |shards|
  {
    if Accepts(shards, p) then
      var shard := shards[p.nicId];
      shards[p.nicId := shard[HashCanonicalFlow(p.tuple) := Counted(RecordFor(shard, p), p)]]
    else shards
  }

  class FlowTracker {
    var shards: seq<Shard>

    constructor ()
      ensures shards == Empty()
    {
      shards := seq(METERING_NIC_COUNT, _ => map[]);
    }

    method RecordTraffic(nicId: int, tuple: CanonicalFlowTuple, bytes: int)
      requires |shards| == METERING_NIC_COUNT
      modifies this
      ensures shards == Recorded(old(shards), Packet(nicId, tuple, bytes))
    {
      if nicId < 0 || nicId >= METERING_NIC_COUNT {
        return;
      }
      var hash := HashCanonicalFlow(tuple);
      var shard := shards[nicId];
      var record := FlowRecord(hash, tuple, 0, 0);
      if hash in shard {
        record := shard[hash];
      } else if |shard| >= HASH_TABLE_SIZE / METERING_NIC_COUNT {
        return;
      }
      if tuple.isIngress {
        record := record.(ingressBytes := record.ingressBytes + bytes);
      } else {
        record := record.(egressBytes := record.egressBytes + bytes);
      }
      shards := shards[nicId := shard[hash := record]];
    }
  }

  function Empty(): seq<Shard> {
    seq(METERING_NIC_COUNT, _ => map[])
  }

  // --- one simple sum ---

  function Ingress(shard: Shard, hash: string): int {
    if hash in shard then shard[hash].ingressBytes else 0
  }

  function Egress(shard: Shard, hash: string): int {
    if hash in shard then shard[hash].egressBytes else 0
  }

  function TotalIngress(shards: seq<Shard>, hash: string): int {
    if shards == [] then 0 else TotalIngress(shards[..|shards| - 1], hash) + Ingress(shards[|shards| - 1], hash)
  }

  function TotalEgress(shards: seq<Shard>, hash: string): int {
    if shards == [] then 0 else TotalEgress(shards[..|shards| - 1], hash) + Egress(shards[|shards| - 1], hash)
  }

  /** The record of a flow in the first shard that has one. */
  function First(shards: seq<Shard>, hash: string): Option<FlowRecord> {
    if shards == [] then None
    else
      var before, last := First(shards[..|shards| - 1], hash), shards[|shards| - 1];
      if before.None? && hash in last then Some(last[hash]) else before
  }

  // --- reconciling ---

  class NicAggregator {
    var mergedTable: Shard

    constructor ()
      ensures mergedTable == map[]
    {
      mergedTable := map[];
    }

    method Reconcile(tracker: FlowTracker)
      modifies this
      ensures Reports(mergedTable, tracker.shards)
    {
      hide Reports;
      var shards := tracker.shards;
      var newMerged: Shard := map[];
      ReportsNothing();
      for i := 0 to |shards|
        invariant Reports(newMerged, shards[..i])
      {
        ReportsOneMore(newMerged, shards[..i], shards[i]);
        newMerged := MergeShard(newMerged, shards[i]);
        assert shards[..i + 1] == shards[..i] + [shards[i]];
      }
      assert shards[..|shards|] == shards;
      mergedTable := newMerged;
    }

    method MergeShard(merged: Shard, shard: Shard) returns (newMerged: Shard)
      ensures newMerged == Merged(merged, shard)
    {
      hide MergedSoFar;
      newMerged := merged;
      var todo := shard.Keys;
      NothingMerged(merged, shard);
      while todo != {}
        invariant todo <= shard.Keys && MergedSoFar(newMerged, merged, shard, todo)
        decreases |todo|
      {
        var hash :| hash in todo;
        var record := shard[hash];
        OneMoreMerged(newMerged, merged, shard, todo, hash);
        if hash !in newMerged {
          newMerged := newMerged[hash := FlowRecord(hash, record.tuple, record.ingressBytes, record.egressBytes)];
        } else {
          var existing := newMerged[hash];
          newMerged := newMerged[hash := existing.(ingressBytes := existing.ingressBytes + record.ingressBytes,
                                                   egressBytes := existing.egressBytes + record.egressBytes)];
        }
        todo := todo - {hash};
      }
      AllMerged(newMerged, merged, shard);
    }

    method GetTotalBytes(hash: string) returns (total: int)
      ensures total == Ingress(mergedTable, hash) + Egress(mergedTable, hash)
    {
      if hash !in mergedTable {
        return 0;
      }
      return mergedTable[hash].ingressBytes + mergedTable[hash].egressBytes;
    }
  }

  function MergedRecord(merged: Shard, shard: Shard, h: string): FlowRecord
    requires h in merged || h in shard
  {
    if h !in shard then merged[h]
    else if h !in merged then shard[h].(canonicalHash := h)
    else merged[h].(ingressBytes := merged[h].ingressBytes + shard[h].ingressBytes,
                    egressBytes := merged[h].egressBytes + shard[h].egressBytes)
  }

  /** The records merged but for those still to do. */
  ghost predicate MergedSoFar(table: Shard, merged: Shard, shard: Shard, todo: set<string>) {
    && (forall h :: h in table <==> h in merged || (h in shard && h !in todo))
    && (forall h | h in table :: table[h] == if h in todo then merged[h] else MergedRecord(merged, shard, h))
  }

  lemma NothingMerged(merged: Shard, shard: Shard)
    ensures MergedSoFar(merged, merged, shard, shard.Keys)
  {
  }

  lemma OneMoreMerged(table: Shard, merged: Shard, shard: Shard, todo: set<string>, hash: string)
    requires MergedSoFar(table, merged, shard, todo) && todo <= shard.Keys && hash in todo
    ensures hash in table <==> hash in merged
    ensures hash in table ==> table[hash] == merged[hash]
    ensures MergedSoFar(table[hash := MergedRecord(merged, shard, hash)], merged, shard, todo - {hash})
  {
  }

  lemma AllMerged(table: Shard, merged: Shard, shard: Shard)
    requires MergedSoFar(table, merged, shard, {})
    ensures table == Merged(merged, shard)
  {
  }

  function Merged(merged: Shard, shard: Shard): Shard {
    map h | h in merged.Keys + shard.Keys :: MergedRecord(merged, shard, h)
  }

  /** One record for each flow any shard has seen, holding its counters' sums over all shards. */
  ghost predicate Reports(table: Shard, shards: seq<Shard>) {
    && (forall h :: h in table <==> First(shards, h).Some?)
    && (forall h | h in table ::
          table[h] == FlowRecord(h, First(shards, h).value.tuple, TotalIngress(shards, h), TotalEgress(shards, h)))
  }

  lemma ReportsNothing()
    ensures Reports(map[], [])
  {
  }

  lemma {:induction false} UnseenIsZero(shards: seq<Shard>, h: string)
    requires First(shards, h).None?
    ensures TotalIngress(shards, h) == 0 && TotalEgress(shards, h) == 0
  {
    if shards != [] {
      UnseenIsZero(shards[..|shards| - 1], h);
    }
  }

  lemma ReportsOneMore(table: Shard, shards: seq<Shard>, shard: Shard)
    requires Reports(table, shards)
    ensures Reports(Merged(table, shard), shards + [shard])
  {
    hide First, TotalIngress, TotalEgress;
    var merged, all := Merged(table, shard), shards + [shard];
    forall h
      ensures h in merged <==> First(all, h).Some?
      ensures h in merged ==>
                merged[h] == FlowRecord(h, First(all, h).value.tuple, TotalIngress(all, h), TotalEgress(all, h))
    {
      TotalsSnoc(shards, shard, h);
      if First(shards, h).None? {
        UnseenIsZero(shards, h);
      }
    }
  }

  /** A flow's reported total is read off the sums over the shards, seen or not. */
  lemma ReportedTotal(table: Shard, shards: seq<Shard>, h: string)
    requires Reports(table, shards)
    ensures Ingress(table, h) == TotalIngress(shards, h) && Egress(table, h) == TotalEgress(shards, h)
  {
    if h !in table {
      UnseenIsZero(shards, h);
    }
  }

  lemma TotalsSnoc(shards: seq<Shard>, shard: Shard, h: string)
    ensures TotalIngress(shards + [shard], h) == TotalIngress(shards, h) + Ingress(shard, h)
    ensures TotalEgress(shards + [shard], h) == TotalEgress(shards, h) + Egress(shard, h)
    ensures First(shards + [shard], h) ==
            if First(shards, h).Some? then First(shards, h) else if h in shard then Some(shard[h]) else None
  {
    assert (shards + [shard])[..|shards|] == shards;
  }

  // --- whole runs ---

  function Run(packets: seq<Packet>): (shards: seq<Shard>)
    ensures |shards| == METERING_NIC_COUNT
  {
    if packets == [] then Empty() else Recorded(Run(packets[..|packets| - 1]), packets[|packets| - 1])
  }

  /** The bytes of the accepted packets of a flow in one direction, over all NICs. */
  function AcceptedBytes(packets: seq<Packet>, hash: string, ingress: bool): int {
    if packets == [] then 0
    else
      var front, p := packets[..|packets| - 1], packets[|packets| - 1];
      var counts := Accepts(Run(front), p) && HashCanonicalFlow(p.tuple) == hash && p.tuple.isIngress == ingress;
      AcceptedBytes(front, hash, ingress) + if counts then p.bytes else 0
  }

  lemma {:induction false} TotalsUpdate(shards: seq<Shard>, i: nat, shard: Shard, h: string)
    requires i < |shards|
    ensures TotalIngress(shards[i := shard], h) == TotalIngress(shards, h) - Ingress(shards[i], h) + Ingress(shard, h)
    ensures TotalEgress(shards[i := shard], h) == TotalEgress(shards, h) - Egress(shards[i], h) + Egress(shard, h)
  {
    var n := |shards| - 1;
    var updated := shards[i := shard];
    if i == n {
      assert updated[..n] == shards[..n];
    } else {
      TotalsUpdate(shards[..n], i, shard, h);
      assert updated[..n] == shards[..n][i := shard];
    }
  }

  lemma {:induction false} EmptyTotals(shards: seq<Shard>, h: string)
    requires forall i | 0 <= i < |shards| :: shards[i] == map[]
    ensures TotalIngress(shards, h) == 0 && TotalEgress(shards, h) == 0
  {
    if shards != [] {
      EmptyTotals(shards[..|shards| - 1], h);
    }
  }

  /**
   For every run of packets over the NICs, the sum of a flow's counters over the shards, which is
   what reconciliation reports, is the sum of its accepted packets in each direction.
   */
  lemma {:induction false} CountersAreSums(packets: seq<Packet>, h: string)
    ensures TotalIngress(Run(packets), h) == AcceptedBytes(packets, h, true)
    ensures TotalEgress(Run(packets), h) == AcceptedBytes(packets, h, false)
  {
    hide HashCanonicalFlow;
    if packets == [] {
      EmptyTotals(Run(packets), h);
    } else {
      var front, p := packets[..|packets| - 1], packets[|packets| - 1];
      CountersAreSums(front, h);
      var shards := Run(front);
      if Accepts(shards, p) {
        var shard := shards[p.nicId];
        TotalsUpdate(shards, p.nicId, shard[HashCanonicalFlow(p.tuple) := Counted(RecordFor(shard, p), p)], h);
      }
    }
  }

  /** After any run, a reconciled table reports for every flow exactly its accepted bytes in each direction. */
  lemma ReconciledIsAcceptedBytes(packets: seq<Packet>, table: Shard, h: string)
    requires Reports(table, Run(packets))
    ensures Ingress(table, h) == AcceptedBytes(packets, h, true)
    ensures Egress(table, h) == AcceptedBytes(packets, h, false)
  {
    ReportedTotal(table, Run(packets), h);
    CountersAreSums(packets, h);
  }

  /** Two tables reconciled from the same shards are the same: reconciling again changes nothing. */
  lemma ReconcilingAgainChangesNothing(once: Shard, again: Shard, shards: seq<Shard>)
    requires Reports(once, shards) && Reports(again, shards)
    ensures once == again
  {
  }

  // --- when nothing is dropped ---

  /** The different flows that come in on one NIC. */
  function FlowsOn(packets: seq<Packet>, nicId: int): set<string> {
    set p | p in packets && p.nicId == nicId :: HashCanonicalFlow(p.tuple)
  }

  /** Every packet is accepted when it comes in. */
  predicate AllAccepted(packets: seq<Packet>) {
    packets != [] ==>
      AllAccepted(packets[..|packets| - 1]) && Accepts(Run(packets[..|packets| - 1]), packets[|packets| - 1])
  }

  /** Every packet names a NIC, and no NIC sees more different flows than its shard holds. */
  predicate Fits(packets: seq<Packet>) {
    && (forall p | p in packets :: 0 <= p.nicId < METERING_NIC_COUNT)
    && forall i | 0 <= i < METERING_NIC_COUNT :: |FlowsOn(packets, i)| <= SHARD_CAPACITY
  }

  lemma FlowsOnSnoc(packets: seq<Packet>, p: Packet, nicId: int)
    ensures FlowsOn(packets + [p], nicId)
         == FlowsOn(packets, nicId) + if p.nicId == nicId then {HashCanonicalFlow(p.tuple)} else {}
  {
    hide HashCanonicalFlow;
    assert forall q :: q in packets + [p] <==> q in packets || q == p;
  }

  /** While everything is accepted, a shard holds exactly the flows of its NIC, and never more than its capacity. */
  lemma {:induction false} ShardsHoldTheFlows(packets: seq<Packet>, nicId: nat)
    requires AllAccepted(packets) && nicId < METERING_NIC_COUNT
    ensures Run(packets)[nicId].Keys == FlowsOn(packets, nicId)
    ensures |Run(packets)[nicId]| <= SHARD_CAPACITY
  {
    hide HashCanonicalFlow, FlowsOn, Counted, RecordFor;
    if packets == [] {
      NoFlows(nicId);
    } else {
      var front, p := packets[..|packets| - 1], packets[|packets| - 1];
      assert packets == front + [p];
      ShardsHoldTheFlows(front, nicId);
      FlowsOnSnoc(front, p, nicId);
      var shard, hash := Run(front)[nicId], HashCanonicalFlow(p.tuple);
      if p.nicId == nicId {
        GrownSize(shard, hash, Counted(RecordFor(shard, p), p));
      }
    }
  }

  lemma NoFlows(nicId: nat)
    requires nicId < METERING_NIC_COUNT
    ensures Run([])[nicId] == map[] && FlowsOn([], nicId) == {}
  {
  }

  lemma GrownSize(shard: Shard, hash: string, record: FlowRecord)
    ensures shard[hash := record].Keys == shard.Keys + {hash}
    ensures |shard[hash := record]| == if hash in shard then |shard| else |shard| + 1
  {
    var grown := shard[hash := record];
    assert grown.Keys == shard.Keys + {hash} && |grown.Keys| == |grown| && |shard.Keys| == |shard|;
  }

  /** Every packet counts if and only if every one names a NIC and no NIC sees more flows than its shard holds. */
  lemma {:induction false} AllAcceptedIffFits(packets: seq<Packet>)
    ensures AllAccepted(packets) <==> Fits(packets)
  {
    hide FlowsOn, Run, Recorded;
    if packets == [] {
      forall i | 0 <= i < METERING_NIC_COUNT ensures |FlowsOn(packets, i)| <= SHARD_CAPACITY {
        NoFlows(i);
      }
    } else {
      var front, p := packets[..|packets| - 1], packets[|packets| - 1];
      assert packets == front + [p];
      AllAcceptedIffFits(front);
      if AllAccepted(packets) {
        forall q | q in packets ensures 0 <= q.nicId < METERING_NIC_COUNT {
          assert q in front || q == p;
        }
        forall i | 0 <= i < METERING_NIC_COUNT ensures |FlowsOn(packets, i)| <= SHARD_CAPACITY {
          ShardsHoldTheFlows(packets, i);
          assert |Run(packets)[i].Keys| == |Run(packets)[i]|;
        }
      }
      if Fits(packets) {
        FrontFits(packets);
        OneMoreFits(front, p);
      }
    }
  }

  lemma FrontFits(packets: seq<Packet>)
    requires packets != [] && Fits(packets)
    ensures Fits(packets[..|packets| - 1])
  {
    hide FlowsOn;
    var front, p := packets[..|packets| - 1], packets[|packets| - 1];
    assert packets == front + [p];
    assert forall q | q in front :: q in packets;
    forall i | 0 <= i < METERING_NIC_COUNT ensures |FlowsOn(front, i)| <= SHARD_CAPACITY {
      FlowsOnSnoc(front, p, i);
      SubsetSize(FlowsOn(front, i), FlowsOn(packets, i));
    }
  }

  lemma OneMoreFits(front: seq<Packet>, p: Packet)
    requires AllAccepted(front) && Fits(front + [p])
    ensures Accepts(Run(front), p)
  {
    hide FlowsOn, Run, AllAccepted, HashCanonicalFlow;
    assert p in front + [p];
    ShardsHoldTheFlows(front, p.nicId);
    FlowsOnSnoc(front, p, p.nicId);
    var shard := Run(front)[p.nicId];
    assert |shard.Keys| == |shard|;
  }

  function AllBytes(packets: seq<Packet>, hash: string, ingress: bool): int {
    if packets == [] then 0
    else
      var p := packets[|packets| - 1];
      AllBytes(packets[..|packets| - 1], hash, ingress) +
      if HashCanonicalFlow(p.tuple) == hash && p.tuple.isIngress == ingress then p.bytes else 0
  }

  lemma {:induction false} AcceptedIsEverything(packets: seq<Packet>, h: string, ingress: bool)
    requires AllAccepted(packets)
    ensures AcceptedBytes(packets, h, ingress) == AllBytes(packets, h, ingress)
  {
    hide HashCanonicalFlow, Accepts, Run;
    if packets != [] {
      AcceptedIsEverything(packets[..|packets| - 1], h, ingress);
    }
  }

  /** Then the counters are the plain sums of all packets, whatever NIC each of them came in on. */
  lemma NothingDroppedBelowCapacity(packets: seq<Packet>, h: string, ingress: bool)
    requires Fits(packets)
    ensures AcceptedBytes(packets, h, ingress) == AllBytes(packets, h, ingress)
  {
    hide *;
    AllAcceptedIffFits(packets);
    AcceptedIsEverything(packets, h, ingress);
  }

  // --- which flows a full shard keeps ---

  /** The flows of a NIC in the order in which they are first seen. */
  function FlowsInOrder(packets: seq<Packet>, nicId: int): seq<string> {
    if packets == [] then []
    else
      var before, p := FlowsInOrder(packets[..|packets| - 1], nicId), packets[|packets| - 1];
      var hash := HashCanonicalFlow(p.tuple);
      if p.nicId == nicId && hash !in before then before + [hash] else before
  }

  /** The first flows of a NIC, as many as a shard holds. */
  function FirstFlows(packets: seq<Packet>, nicId: int): seq<string> {
    var flows := FlowsInOrder(packets, nicId);
    if |flows| <= SHARD_CAPACITY then flows else flows[..SHARD_CAPACITY]
  }

  /** The tuple of the first packet of a flow on a NIC. */
  function FirstTuple(packets: seq<Packet>, nicId: int, h: string): Option<CanonicalFlowTuple> {
    if packets == [] then None
    else
      var before, p := FirstTuple(packets[..|packets| - 1], nicId, h), packets[|packets| - 1];
      if before.None? && p.nicId == nicId && HashCanonicalFlow(p.tuple) == h then Some(p.tuple) else before
  }

  lemma {:induction false} SeenHasTuple(packets: seq<Packet>, nicId: int, h: string)
    ensures h in FlowsInOrder(packets, nicId) <==> FirstTuple(packets, nicId, h).Some?
  {
    hide HashCanonicalFlow;
    if packets != [] {
      SeenHasTuple(packets[..|packets| - 1], nicId, h);
    }
  }

  lemma InFirst(flows: seq<string>, hash: string, n: nat)
    requires hash !in flows
    ensures var more := flows + [hash];
            var first := if |more| <= n then more else more[..n];
            if |flows| < n then first == flows + [hash]
            else first == flows[..n] && hash !in flows[..n]
  {
  }

  /** One more packet: a flow that is new joins the first ones while there is room. */
  lemma FirstFlowsSnoc(packets: seq<Packet>, p: Packet, nicId: int)
    ensures var first, hash := FirstFlows(packets, nicId), HashCanonicalFlow(p.tuple);
            FirstFlows(packets + [p], nicId) ==
              if p.nicId == nicId && hash !in first && |first| < SHARD_CAPACITY then first + [hash] else first
  {
    hide HashCanonicalFlow;
    var flows, hash := FlowsInOrder(packets, nicId), HashCanonicalFlow(p.tuple);
    assert (packets + [p])[..|packets|] == packets;
    if hash !in flows {
      InFirst(flows, hash, SHARD_CAPACITY);
    }
  }

  lemma FirstTupleSnoc(packets: seq<Packet>, p: Packet, nicId: int, h: string)
    ensures FirstTuple(packets + [p], nicId, h) ==
            if FirstTuple(packets, nicId, h).Some? then FirstTuple(packets, nicId, h)
            else if p.nicId == nicId && HashCanonicalFlow(p.tuple) == h then Some(p.tuple)
            else None
    ensures h in FirstFlows(packets, nicId) ==> FirstTuple(packets, nicId, h).Some?
    ensures |FirstFlows(packets, nicId)| < SHARD_CAPACITY && h !in FirstFlows(packets, nicId) ==>
              FirstTuple(packets, nicId, h).None?
  {
    hide HashCanonicalFlow;
    assert (packets + [p])[..|packets|] == packets;
    SeenHasTuple(packets, nicId, h);
  }

  /** The shard holds the first flows, each under its hash with the tuple of its first packet. */
  ghost predicate HoldsFirst(shard: Shard, packets: seq<Packet>, nicId: int) {
    && |shard| == |FirstFlows(packets, nicId)|
    && (forall h :: h in shard <==> h in FirstFlows(packets, nicId))
    && (forall h | h in shard ::
          shard[h].canonicalHash == h && Some(shard[h].tuple) == FirstTuple(packets, nicId, h))
  }

  /** After any run, each shard holds exactly the first flows of its NIC, up to its capacity. */
  lemma {:induction false} ShardKeepsTheFirst(packets: seq<Packet>, nicId: nat)
    requires nicId < METERING_NIC_COUNT
    ensures HoldsFirst(Run(packets)[nicId], packets, nicId)
  {
    hide HashCanonicalFlow, HoldsFirst, Counted, RecordFor;
    if packets == [] {
      NoneHeld(nicId);
    } else {
      var front, p := packets[..|packets| - 1], packets[|packets| - 1];
      assert packets == front + [p];
      ShardKeepsTheFirst(front, nicId);
      OneMoreHeld(Run(front)[nicId], front, p, nicId);
    }
  }

  lemma NoneHeld(nicId: nat)
    requires nicId < METERING_NIC_COUNT
    ensures HoldsFirst(Run([])[nicId], [], nicId)
  {
    assert Run([])[nicId] == map[];
  }

  lemma OneMoreHeld(shard: Shard, packets: seq<Packet>, p: Packet, nicId: nat)
    requires HoldsFirst(shard, packets, nicId)
    ensures var hash := HashCanonicalFlow(p.tuple);
            HoldsFirst(if p.nicId == nicId && (hash in shard || |shard| < SHARD_CAPACITY)
                       then shard[hash := Counted(RecordFor(shard, p), p)] else shard, packets + [p], nicId)
  {
    hide HashCanonicalFlow, FirstFlows, FirstTuple;
    FirstFlowsSnoc(packets, p, nicId);
    var hash := HashCanonicalFlow(p.tuple);
    GrownSize(shard, hash, Counted(RecordFor(shard, p), p));
    forall h
      ensures h in FirstFlows(packets + [p], nicId) && (h in shard || (p.nicId == nicId && h == hash)) ==>
                FirstTuple(packets + [p], nicId, h) == if h in shard then Some(shard[h].tuple) else Some(p.tuple)
    {
      FirstTupleSnoc(packets, p, nicId, h);
    }
  }

  /**
   So a packet counts if and only if its NIC exists and its flow is among the first ones that NIC
   has seen by then.
   */
  lemma AcceptedIff(packets: seq<Packet>, p: Packet)
    ensures Accepts(Run(packets), p) <==>
            0 <= p.nicId < METERING_NIC_COUNT && HashCanonicalFlow(p.tuple) in FirstFlows(packets + [p], p.nicId)
  {
    hide HashCanonicalFlow, Run, FirstFlows, FirstTuple;
    if 0 <= p.nicId < METERING_NIC_COUNT {
      ShardKeepsTheFirst(packets, p.nicId);
      FirstFlowsSnoc(packets, p, p.nicId);
    }
  }
}
