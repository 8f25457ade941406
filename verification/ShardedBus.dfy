/**
 The sharded event bus (backend/src/event-bus/sharded-bus.ts): publishing into per-partition
 buffers, pausing partitions, and flushing a buffer to the migration log.

 `flushMigrationLog` awaits the log between reading the buffer and clearing it, so one call is
 three steps here: `FlushBegin` (read and stamp the buffer), `FlushWrite` or `FlushFail` (the append
 lands in the log, or throws) and `FlushEnd` (clear the buffer). What a suspended call remembers is
 its `Flight`; a partition has at most one, which is the one-caller-at-a-time assumption.
 */
module ShardedBus {
  import opened Common
  import opened MessageSequencers

  datatype Record = Record(event: Event, migrationId: string, ownerNodeId: string, flushedAt: int)

  datatype Flight = Flight(records: seq<Record>, written: bool)

  datatype Config = Config(partitionCount: nat, localNodeId: string) {
    predicate Valid() { partitionCount > 0 }
  }

  datatype BusState = BusState(
    nextSeqno: map<string, int>,
    buffers: map<nat, seq<Event>>,
    paused: set<nat>,
    owners: map<nat, string>,
    log: map<nat, seq<Record>>,
    flights: map<nat, Flight>)
  {
    function Buffer(p: nat): seq<Event> { Get(buffers, p, []) }
    function Logged(p: nat): seq<Event> { EventsOf(Get(log, p, [])) }
    predicate Written(p: nat) { p in flights && flights[p].written }
  }

  datatype BusError = Paused(partition: nat)

  datatype Op =
    | Publish(flowId: string, payload: string, at: int)
    | Pause(partitions: seq<nat>)
    | Resume(partitions: seq<nat>)
    | FlushBegin(partition: nat, migrationId: string, at: int)
    | FlushWrite(partition: nat)
    | FlushFail(partition: nat)
    | FlushEnd(partition: nat)

  // --- the pure parts ---

  /** The rolling 32-bit hash; characters stand for UTF-16 code units. */
  function Hash(s: string): (h: nat)
    ensures h < 0x1_0000_0000
  {
    if s == [] then 0 else (Hash(s[..|s| - 1]) * 31 + s[|s| - 1] as int) % 0x1_0000_0000
  }

  function PartitionOf(cfg: Config, flowId: string): (p: nat)
    requires cfg.Valid()
    ensures p < cfg.partitionCount
  {
    Hash(flowId) % cfg.partitionCount
  }

  function EventsOf(rs: seq<Record>): (es: seq<Event>)
    ensures |es| == |rs|
  {
    if rs == [] then [] else EventsOf(rs[..|rs| - 1]) + [rs[|rs| - 1].event]
  }

  function Stamp(es: seq<Event>, migrationId: string, node: string, at: int): (rs: seq<Record>)
    ensures |rs| == |es|
  {
    if es == [] then []
    else Stamp(es[..|es| - 1], migrationId, node, at) + [Record(es[|es| - 1], migrationId, node, at)]
  }

  lemma {:induction false} EventsOfStamp(es: seq<Event>, migrationId: string, node: string, at: int)
    ensures EventsOf(Stamp(es, migrationId, node, at)) == es
  {
    if es != [] {
      EventsOfStamp(es[..|es| - 1], migrationId, node, at);
      var rs := Stamp(es, migrationId, node, at);
      assert rs[..|rs| - 1] == Stamp(es[..|es| - 1], migrationId, node, at);
    }
  }

  lemma {:induction false} EventsOfConcat(a: seq<Record>, b: seq<Record>)
    ensures EventsOf(a + b) == EventsOf(a) + EventsOf(b)
  {
    if b == [] {
      assert a + b == a;
    } else {
      EventsOfConcat(a, b[..|b| - 1]);
      assert (a + b)[..|a + b| - 1] == a + b[..|b| - 1];
    }
  }

  // --- one step ---

  function Numbered(cfg: Config, s: BusState, flowId: string, payload: string, at: int): Event
    requires cfg.Valid()
  {
    var p := PartitionOf(cfg, flowId);
    Event(flowId, p, Some(Get(s.nextSeqno, Key(flowId, p), 1)), payload, Some(at))
  }

  function AfterPublish(s: BusState, e: Event): BusState
    requires e.seqno.Some?
  {
    s.(nextSeqno := s.nextSeqno[Key(e.flowId, e.partition) := e.seqno.value + 1],
       buffers := s.buffers[e.partition := s.Buffer(e.partition) + [e]])
  }

  /** Whether a step can be taken at all: a flush continues only a call that is in flight. */
  predicate Possible(s: BusState, op: Op) {
    match op
    case FlushBegin(p, _, _) => p !in s.flights
    case FlushWrite(p) => p in s.flights && !s.flights[p].written
    case FlushFail(p) => p in s.flights && !s.flights[p].written
    case FlushEnd(p) => p in s.flights && s.flights[p].written
    case _ => true
  }

  /** The new state and the event published, if any. */
  function Step(cfg: Config, s: BusState, op: Op): (r: (BusState, seq<Event>))
    requires cfg.Valid() && Possible(s, op)
  {
    match op
    case Publish(flowId, payload, at) =>
      if PartitionOf(cfg, flowId) in s.paused then (s, [])
      else var e := Numbered(cfg, s, flowId, payload, at); (AfterPublish(s, e), [e])
    case Pause(ps) => (s.(paused := s.paused + (set p | p in ps)), [])
    case Resume(ps) => (s.(paused := s.paused - (set p | p in ps)), [])
    case FlushBegin(p, migrationId, at) =>
      (s.(flights := s.flights[p := Flight(Stamp(s.Buffer(p), migrationId, cfg.localNodeId, at), false)]), [])
    case FlushWrite(p) =>
      (s.(log := Appended(s.log, p, s.flights[p].records),
          flights := s.flights[p := Flight(s.flights[p].records, true)]), [])
    case FlushFail(p) => (s.(flights := s.flights - {p}), [])
    case FlushEnd(p) => (s.(buffers := s.buffers[p := []], flights := s.flights - {p}), [])
  }

  /** `FileMigrationLog.append`: an empty batch touches no file. */
  function Appended(log: map<nat, seq<Record>>, p: nat, rs: seq<Record>): map<nat, seq<Record>> {
    if rs == [] then log else log[p := Get(log, p, []) + rs]
  }

  // --- the classes ---

  class MigrationLog {
    var files: map<nat, seq<Record>>

    constructor ()
      ensures files == map[]
    {
      files := map[];
    }

    method Append(partition: nat, records: seq<Record>)
      modifies this
      ensures files == Appended(old(files), partition, records)
    {
      if |records| == 0 {
        return;
      }
      files := files[partition := Get(files, partition, []) + records];
    }

    function Replay(partition: nat): seq<Record>
      reads this
    {
      Get(files, partition, [])
    }
  }

  class ShardedEventBus {
    const cfg: Config
    const sequencer: MessageSequencer
    const migrationLog: MigrationLog
    var partitionOwners: map<nat, string>
    var buffers: map<nat, seq<Event>>
    var pausedPartitions: set<nat>
    /** What the suspended calls of `flushMigrationLog` hold in their local variables. */
    var flights: map<nat, Flight>

    ghost predicate Valid() { cfg.Valid() }

    function State(): BusState
      reads this, sequencer, migrationLog
    {
      BusState(sequencer.nextSeqno, buffers, pausedPartitions, partitionOwners, migrationLog.files, flights)
    }

    constructor (owners: map<nat, string>, cfg: Config, sequencer: MessageSequencer, migrationLog: MigrationLog)
      requires cfg.Valid()
      ensures Valid() && this.cfg == cfg && this.sequencer == sequencer && this.migrationLog == migrationLog
      ensures State() == BusState(sequencer.nextSeqno, map[], {}, owners, migrationLog.files, map[])
    {
      this.cfg, this.sequencer, this.migrationLog := cfg, sequencer, migrationLog;
      partitionOwners, buffers, pausedPartitions, flights := owners, map[], {}, map[];
    }

    method PartitionFor(flowId: string) returns (p: nat)
      requires Valid()
      ensures p == PartitionOf(cfg, flowId)
    {
      var hash := 0;
      for i := 0 to |flowId|
        invariant hash == Hash(flowId[..i])
      {
        assert flowId[..i + 1][..i] == flowId[..i];
        hash := (hash * 31 + flowId[i] as int) % 0x1_0000_0000;
      }
      assert flowId[..|flowId|] == flowId;
      p := hash % cfg.partitionCount;
    }

    method PublishEvent(flowId: string, payload: string, now: int) returns (r: Result<Event, BusError>)
      requires Valid()
      modifies this`buffers, sequencer`nextSeqno
      ensures var (after, published) := Step(cfg, old(State()), Publish(flowId, payload, now));
              && State() == after
              && r == if published == [] then Err(Paused(PartitionOf(cfg, flowId))) else Ok(published[0])
      ensures r.Err? <==> PartitionOf(cfg, flowId) in old(pausedPartitions)
      ensures r.Ok? ==>
                && r.value.flowId == flowId && r.value.partition == PartitionOf(cfg, flowId)
                && r.value.payload == payload && r.value.publishedAt == Some(now)
                && State().Buffer(r.value.partition) == old(State()).Buffer(r.value.partition) + [r.value]
    {
      var partition := PartitionFor(flowId);
      if partition in pausedPartitions {
        return Err(Paused(partition));
      }
      var event := sequencer.Assign(Event(flowId, partition, None, payload, Some(now)));
      buffers := buffers[partition := Get(buffers, partition, []) + [event]];
      return Ok(event);
    }

    method PauseProduction(partitions: seq<nat>)
      requires Valid()
      modifies this`pausedPartitions
      ensures State() == Step(cfg, old(State()), Pause(partitions)).0
    {
      for i := 0 to |partitions|
        invariant pausedPartitions == old(pausedPartitions) + (set p | p in partitions[..i])
      {
        assert partitions[..i + 1] == partitions[..i] + [partitions[i]];
        pausedPartitions := pausedPartitions + {partitions[i]};
      }
      assert partitions[..|partitions|] == partitions;
    }

    method ResumeProduction(partitions: seq<nat>)
      requires Valid()
      modifies this`pausedPartitions
      ensures State() == Step(cfg, old(State()), Resume(partitions)).0
    {
      for i := 0 to |partitions|
        invariant pausedPartitions == old(pausedPartitions) - (set p | p in partitions[..i])
      {
        assert partitions[..i + 1] == partitions[..i] + [partitions[i]];
        pausedPartitions := pausedPartitions - {partitions[i]};
      }
      assert partitions[..|partitions|] == partitions;
    }

    /** `flushMigrationLog` up to its `await`. */
    method BeginFlush(partition: nat, migrationId: string, now: int)
      requires Valid() && partition !in flights
      modifies this`flights
      ensures State() == Step(cfg, old(State()), FlushBegin(partition, migrationId, now)).0
    {
      var buffer := Get(buffers, partition, []);
      var records := Stamp(buffer, migrationId, cfg.localNodeId, now);
      flights := flights[partition := Flight(records, false)];
    }

    /** The awaited append completes. */
    method WriteFlush(partition: nat)
      requires Valid() && partition in flights && !flights[partition].written
      modifies this`flights, migrationLog
      ensures State() == Step(cfg, old(State()), FlushWrite(partition)).0
    {
      migrationLog.Append(partition, flights[partition].records);
      flights := flights[partition := Flight(flights[partition].records, true)];
    }

    /** The awaited append throws; the call is over and the buffer is as it was. */
    method FailFlush(partition: nat)
      requires Valid() && partition in flights && !flights[partition].written
      modifies this`flights
      ensures State() == Step(cfg, old(State()), FlushFail(partition)).0
    {
      flights := flights - {partition};
    }

    /** `flushMigrationLog` after its `await`. */
    method EndFlush(partition: nat) returns (records: seq<Record>)
      requires Valid() && partition in flights && flights[partition].written
      modifies this`flights, this`buffers
      ensures State() == Step(cfg, old(State()), FlushEnd(partition)).0
      ensures records == old(flights)[partition].records
    {
      records := flights[partition].records;
      buffers := buffers[partition := []];
      flights := flights - {partition};
    }

    method UpdatePartitionOwners(nextOwners: map<nat, string>)
      modifies this`partitionOwners
      ensures State() == old(State()).(owners := nextOwners)
    {
      partitionOwners := nextOwners;
    }

    /** Takes one step on behalf of some caller. */
    method Take(op: Op) returns (published: seq<Event>)
      requires Valid() && Possible(State(), op)
      modifies this, sequencer`nextSeqno, migrationLog
      ensures (State(), published) == Step(cfg, old(State()), op)
    {
      published := Step(cfg, State(), op).1;
      match op {
        case Publish(flowId, payload, at) => var _ := PublishEvent(flowId, payload, at);
        case Pause(ps) => PauseProduction(ps);
        case Resume(ps) => ResumeProduction(ps);
        case FlushBegin(p, migrationId, at) => BeginFlush(p, migrationId, at);
        case FlushWrite(p) => WriteFlush(p);
        case FlushFail(p) => FailFlush(p);
        case FlushEnd(p) => var _ := EndFlush(p);
      }
    }
  }
}
