/**
 The failure detector of src/consensus/partition-detector.ts: a sticky reachability flag for each
 peer, refreshed by heartbeats and cleared by the watchdog, and the quorum decision.

 `checkPeers` changes the flags and `partitioned` before its first await, so a check is one step;
 the callbacks it starts are recorded in `notices` in the order they are started.
 */
module PartitionDetectors {
  import opened Common

  datatype PeerState = PeerState(lastHeartbeatAt: int, reachable: bool)

  datatype Notice = Partition | Heal

  datatype View = View(peerStates: map<string, PeerState>, partitioned: bool, notices: seq<Notice>)

  datatype DetectorConfig = DetectorConfig(peers: seq<string>, timeoutMs: int)

  datatype Op = Heartbeat(peerId: string, now: int) | Check(now: int)

  // --- one step ---

  function Started(peers: seq<string>, now: int): View {
    View(map p | p in peers :: PeerState(now, true), false, [])
  }

  function Heard(v: View, peerId: string, now: int): View {
    if peerId in v.peerStates then v.(peerStates := v.peerStates[peerId := PeerState(now, true)]) else v
  }

  function TimedOut(s: PeerState, now: int, timeoutMs: int): PeerState {
    if now - s.lastHeartbeatAt > timeoutMs then s.(reachable := false) else s
  }

  function Polled(peerStates: map<string, PeerState>, now: int, timeoutMs: int): map<string, PeerState> {
    map p | p in peerStates :: TimedOut(peerStates[p], now, timeoutMs)
  }

  function Unreachable(peerStates: map<string, PeerState>): set<string> {
    set p | p in peerStates && !peerStates[p].reachable
  }

  function Decided(v: View, quorumLost: bool): View {
    if quorumLost && !v.partitioned then v.(partitioned := true, notices := v.notices + [Partition])
    else if !quorumLost && v.partitioned then v.(partitioned := false, notices := v.notices + [Heal])
    else v
  }

  function Checked(cfg: DetectorConfig, v: View, now: int): View {
    var polled := Polled(v.peerStates, now, cfg.timeoutMs);
    Decided(v.(peerStates := polled), |Unreachable(polled)| > |cfg.peers| / 2)
  }

  function Step(cfg: DetectorConfig, v: View, op: Op): View {
    match op
    case Heartbeat(p, now) => Heard(v, p, now)
    case Check(now) => Checked(cfg, v, now)
  }

  // --- the class ---

  class PartitionDetector {
    const peers: seq<string>
    const timeoutMs: int
    var peerStates: map<string, PeerState>
    var partitioned: bool
    var notices: seq<Notice>

    function Config(): DetectorConfig { DetectorConfig(peers, timeoutMs) }

    function Now(): View reads this { View(peerStates, partitioned, notices) }

    constructor (peers: seq<string>, timeoutMs: int, now: int)
      ensures Config() == DetectorConfig(peers, timeoutMs) && Now() == Started(peers, now)
    {
      this.peers := peers;
      this.timeoutMs := timeoutMs;
      partitioned := false;
      notices := [];
      var states: map<string, PeerState> := map[];
      for i := 0 to |peers|
        invariant states == map p | p in peers[..i] :: PeerState(now, true)
      {
        assert peers[..i + 1] == peers[..i] + [peers[i]];
        states := states[peers[i] := PeerState(now, true)];
      }
      assert peers[..|peers|] == peers;
      peerStates := states;
    }

    method ReceiveHeartbeat(peerId: string, now: int)
      modifies this
      ensures Now() == Step(Config(), old(Now()), Heartbeat(peerId, now))
    {
      if peerId !in peerStates {
        return;
      }
      peerStates := peerStates[peerId := PeerState(now, true)];
    }

    method GetUnreachableCount() returns (count: nat)
      ensures count == |Unreachable(peerStates)|
    {
      count := 0;
      var todo := peerStates.Keys;
      ghost var counted: set<string> := {};
      while todo != {}
        invariant todo <= peerStates.Keys
        invariant counted == (set p | p in peerStates && p !in todo && !peerStates[p].reachable)
        invariant count == |counted|
        decreases |todo|
      {
        var p :| p in todo;
        if !peerStates[p].reachable {
          count := count + 1;
          counted := counted + {p};
        }
        todo := todo - {p};
      }
      assert counted == Unreachable(peerStates);
    }

    method CheckPeers(now: int)
      modifies this
      ensures Now() == Step(Config(), old(Now()), Check(now))
    {
      hide PolledSoFar;
      ghost var was := peerStates;
      var unreachable := 0;
      var todo := peerStates.Keys;
      ghost var counted: set<string> := {};
      NothingPolled(was, now, timeoutMs);
      while todo != {}
        invariant todo <= was.Keys == peerStates.Keys
        invariant PolledSoFar(was, peerStates, todo, counted, now, timeoutMs)
        invariant unreachable == |counted|
        invariant partitioned == old(partitioned) && notices == old(notices)
        decreases |todo|
      {
        var p :| p in todo;
        OneMorePolled(was, peerStates, todo, counted, now, timeoutMs, p);
        if now - peerStates[p].lastHeartbeatAt > timeoutMs {
          peerStates := peerStates[p := peerStates[p].(reachable := false)];
        }
        if !peerStates[p].reachable {
          unreachable := unreachable + 1;
          counted := counted + {p};
        }
        todo := todo - {p};
      }
      AllPolled(was, peerStates, counted, now, timeoutMs);
      var quorumLost := unreachable > |peers| / 2;
      if quorumLost && !partitioned {
        partitioned := true;
        notices := notices + [Partition];
      } else if !quorumLost && partitioned {
        partitioned := false;
        notices := notices + [Heal];
      }
    }
  }

  /** The loop over the peers but for those still to do, and the ones counted as unreachable. */
  ghost predicate PolledSoFar(was: map<string, PeerState>, states: map<string, PeerState>, todo: set<string>,
                              counted: set<string>, now: int, timeoutMs: int)
  {
    && states.Keys == was.Keys
    && (forall p | p in was :: states[p] == if p in todo then was[p] else TimedOut(was[p], now, timeoutMs))
    && (forall p :: p in counted <==> p in was && p !in todo && !TimedOut(was[p], now, timeoutMs).reachable)
  }

  lemma NothingPolled(was: map<string, PeerState>, now: int, timeoutMs: int)
    ensures PolledSoFar(was, was, was.Keys, {}, now, timeoutMs)
  {
  }

  lemma OneMorePolled(was: map<string, PeerState>, states: map<string, PeerState>, todo: set<string>,
                      counted: set<string>, now: int, timeoutMs: int, p: string)
    requires PolledSoFar(was, states, todo, counted, now, timeoutMs) && todo <= was.Keys && p in todo
    ensures p in states && states[p] == was[p] && p !in counted
    ensures var polled := TimedOut(states[p], now, timeoutMs);
            && PolledSoFar(was, states[p := polled], todo - {p},
                           if polled.reachable then counted else counted + {p}, now, timeoutMs)
            && (polled == states[p] ==> states[p := polled] == states)
  {
  }

  lemma AllPolled(was: map<string, PeerState>, states: map<string, PeerState>, counted: set<string>, now: int,
      timeoutMs: int)
    requires PolledSoFar(was, states, {}, counted, now, timeoutMs)
    ensures states == Polled(was, now, timeoutMs) && counted == Unreachable(states)
  {
  }

  // --- whole runs ---

  function Run(cfg: DetectorConfig, start: int, ops: seq<Op>): View {
    if ops == [] then Started(cfg.peers, start)
    else Step(cfg, Run(cfg, start, ops[..|ops| - 1]), ops[|ops| - 1])
  }

  /** When the clock was last read. */
  function LastRead(start: int, ops: seq<Op>): int {
    if ops == [] then start else ops[|ops| - 1].now
  }

  /** The clock never goes back. */
  predicate Clocked(start: int, ops: seq<Op>) {
    ops != [] ==>
      Clocked(start, ops[..|ops| - 1]) && LastRead(start, ops[..|ops| - 1]) <= ops[|ops| - 1].now
  }

  /** When a peer was last heard from, read off the arrivals alone. */
  function LastHeard(start: int, ops: seq<Op>, p: string): int {
    if ops == [] then start
    else if ops[|ops| - 1].Heartbeat? && ops[|ops| - 1].peerId == p then ops[|ops| - 1].now
    else LastHeard(start, ops[..|ops| - 1], p)
  }

  /** The watched peers not heard from within the timeout. */
  function Silent(cfg: DetectorConfig, start: int, ops: seq<Op>, now: int): set<string> {
    set p | p in cfg.peers && now - LastHeard(start, ops, p) > cfg.timeoutMs
  }

  /** `ops[i]` is a check, and `p` was not heard from after it. */
  predicate Since(ops: seq<Op>, i: int, p: string) {
    && 0 <= i < |ops| && ops[i].Check?
    && forall j | i < j < |ops| :: !HeartbeatOf(ops[j], p)
  }

  predicate HeartbeatOf(op: Op, p: string) {
    op.Heartbeat? && op.peerId == p
  }

  /** Every check since the last heartbeat of `p` came within the timeout of that heartbeat. */
  ghost predicate AlwaysInTime(cfg: DetectorConfig, start: int, ops: seq<Op>, p: string) {
    forall i | Since(ops, i, p) :: ops[i].now - LastHeard(start, ops, p) <= cfg.timeoutMs
  }

  lemma SinceSnoc(ops: seq<Op>, i: int, p: string)
    requires ops != []
    ensures var n, op := |ops| - 1, ops[|ops| - 1];
            Since(ops, i, p) <==> if i == n then op.Check? else Since(ops[..n], i, p) && !HeartbeatOf(op, p)
  {
    var n := |ops| - 1;
    var front := ops[..n];
    if 0 <= i < n {
      if Since(ops, i, p) {
        assert !HeartbeatOf(ops[n], p);
        assert forall j | i < j < n :: front[j] == ops[j];
      }
      if Since(front, i, p) && !HeartbeatOf(ops[n], p) {
        forall j | i < j < |ops| ensures !HeartbeatOf(ops[j], p) {
          assert j < n ==> front[j] == ops[j];
        }
      }
    }
  }

  lemma InTimeSnoc(cfg: DetectorConfig, start: int, ops: seq<Op>, p: string)
    requires ops != []
    ensures var front, op := ops[..|ops| - 1], ops[|ops| - 1];
            AlwaysInTime(cfg, start, ops, p) <==>
              || HeartbeatOf(op, p)
              || (AlwaysInTime(cfg, start, front, p)
                  && (op.Check? ==> op.now - LastHeard(start, front, p) <= cfg.timeoutMs))
  {
    hide LastHeard;
    HeardBefore(start, ops, p);
    var n, front, op := |ops| - 1, ops[..|ops| - 1], ops[|ops| - 1];
    forall i ensures Since(ops, i, p) <==> if i == n then op.Check? else Since(front, i, p) && !HeartbeatOf(op, p) {
      SinceSnoc(ops, i, p);
    }
    if AlwaysInTime(cfg, start, ops, p) && !HeartbeatOf(op, p) {
      forall i | Since(front, i, p) ensures front[i].now - LastHeard(start, front, p) <= cfg.timeoutMs {
        assert Since(ops, i, p) && front[i] == ops[i];
      }
      assert op.Check? ==> Since(ops, n, p);
    }
    if HeartbeatOf(op, p) || (AlwaysInTime(cfg, start, front, p)
                              && (op.Check? ==> op.now - LastHeard(start, front, p) <= cfg.timeoutMs)) {
      forall i | Since(ops, i, p) ensures ops[i].now - LastHeard(start, ops, p) <= cfg.timeoutMs {
        if i < n {
          assert Since(front, i, p) && front[i] == ops[i];
        }
      }
    }
  }

  lemma HeardBefore(start: int, ops: seq<Op>, p: string)
    requires ops != []
    ensures !HeartbeatOf(ops[|ops| - 1], p) ==> LastHeard(start, ops, p) == LastHeard(start, ops[..|ops| - 1], p)
  {
  }

  /**
   For any clock, also one that goes back: the sticky flag of a peer is set if and only if every
   check since its last heartbeat came within the timeout of that heartbeat.
   */
  lemma {:induction false} FlagIsExact(cfg: DetectorConfig, start: int, ops: seq<Op>, p: string)
    ensures var v := Run(cfg, start, ops);
            && (p in v.peerStates <==> p in cfg.peers)
            && (p in cfg.peers ==>
                  && v.peerStates[p].lastHeartbeatAt == LastHeard(start, ops, p)
                  && (v.peerStates[p].reachable <==> AlwaysInTime(cfg, start, ops, p)))
  {
    hide AlwaysInTime;
    if ops == [] {
      NothingLate(cfg, start, p);
    } else {
      var front := ops[..|ops| - 1];
      FlagIsExact(cfg, start, front, p);
      InTimeSnoc(cfg, start, ops, p);
      StepFlag(cfg, Run(cfg, start, front), ops[|ops| - 1], p);
      hide Step;
    }
  }

  lemma NothingLate(cfg: DetectorConfig, start: int, p: string)
    ensures AlwaysInTime(cfg, start, [], p)
  {
  }

  lemma StepFlag(cfg: DetectorConfig, v: View, op: Op, p: string)
    ensures var v' := Step(cfg, v, op);
            && (p in v'.peerStates <==> p in v.peerStates)
            && (p in v.peerStates ==>
                  v'.peerStates[p] == if HeartbeatOf(op, p) then PeerState(op.now, true)
                                      else if op.Check? then TimedOut(v.peerStates[p], op.now, cfg.timeoutMs)
                                      else v.peerStates[p])
  {
  }

  /** The peers with a late check since their last heartbeat. */
  ghost function Missed(cfg: DetectorConfig, start: int, ops: seq<Op>): set<string> {
    set p | p in cfg.peers && !AlwaysInTime(cfg, start, ops, p)
  }

  lemma UnreachableAreMissed(cfg: DetectorConfig, start: int, ops: seq<Op>)
    ensures Unreachable(Run(cfg, start, ops).peerStates) == Missed(cfg, start, ops)
  {
    hide Run, AlwaysInTime;
    forall p ensures p in Unreachable(Run(cfg, start, ops).peerStates) <==> p in Missed(cfg, start, ops) {
      FlagIsExact(cfg, start, ops, p);
    }
  }

  /** And after a check the node counts as partitioned if and only if more than half of its peers have a late one. */
  lemma DecisionIsExact(cfg: DetectorConfig, start: int, ops: seq<Op>)
    requires ops != [] && ops[|ops| - 1].Check?
    ensures Run(cfg, start, ops).partitioned <==> |Missed(cfg, start, ops)| > |cfg.peers| / 2
  {
    UnreachableAreMissed(cfg, start, ops);
    hide Missed, Polled;
    var before := Run(cfg, start, ops[..|ops| - 1]);
    assert Run(cfg, start, ops) == Checked(cfg, before, ops[|ops| - 1].now);
  }

  lemma {:induction false} ClockedUpTo(start: int, ops: seq<Op>, i: nat)
    requires Clocked(start, ops) && i < |ops|
    ensures ops[i].now <= LastRead(start, ops)
  {
    if i < |ops| - 1 {
      ClockedUpTo(start, ops[..|ops| - 1], i);
    }
  }

  lemma LastCheckDecides(cfg: DetectorConfig, start: int, ops: seq<Op>, p: string)
    requires Clocked(start, ops) && ops != [] && ops[|ops| - 1].Check?
    ensures AlwaysInTime(cfg, start, ops, p) <==> ops[|ops| - 1].now - LastHeard(start, ops, p) <= cfg.timeoutMs
  {
    hide Clocked;
    assert Since(ops, |ops| - 1, p);
    forall i | Since(ops, i, p) ensures ops[i].now <= ops[|ops| - 1].now {
      ClockedUpTo(start, ops, i);
    }
  }

  /**
   With a clock that never goes back, after every check the sticky flag of each peer says exactly
   whether it was heard from within the timeout, and the node counts as partitioned exactly when
   more than half of its peers were not.
   */
  lemma CheckIsExact(cfg: DetectorConfig, start: int, ops: seq<Op>)
    requires Clocked(start, ops) && ops != [] && ops[|ops| - 1].Check?
    ensures var v, now := Run(cfg, start, ops), ops[|ops| - 1].now;
            && (forall p | p in cfg.peers ::
                  p in v.peerStates && (v.peerStates[p].reachable <==> now - LastHeard(start, ops, p) <= cfg.timeoutMs))
            && (v.partitioned <==> |Silent(cfg, start, ops, now)| > |cfg.peers| / 2)
            && Unreachable(v.peerStates) == Silent(cfg, start, ops, now)
  {
    hide Run, AlwaysInTime, Clocked, LastHeard;
    var v, now := Run(cfg, start, ops), ops[|ops| - 1].now;
    forall p ensures p in v.peerStates <==> p in cfg.peers
             ensures p in cfg.peers ==> (v.peerStates[p].reachable <==> now - LastHeard(start, ops, p) <= cfg.timeoutMs)
             ensures p in Missed(cfg, start, ops) <==> p in Silent(cfg, start, ops, now)
    {
      FlagIsExact(cfg, start, ops, p);
      LastCheckDecides(cfg, start, ops, p);
    }
    DecisionIsExact(cfg, start, ops);
    UnreachableAreMissed(cfg, start, ops);
    assert Missed(cfg, start, ops) == Silent(cfg, start, ops, now);
  }

  /**
   For any clock, after a check: a flag says "unreachable" of a peer heard from within the timeout
   if and only if an earlier check since that heartbeat read a clock beyond it.
   */
  lemma StaleFlagIff(cfg: DetectorConfig, start: int, ops: seq<Op>, p: string)
    requires p in cfg.peers && ops != [] && ops[|ops| - 1].Check?
    requires ops[|ops| - 1].now - LastHeard(start, ops, p) <= cfg.timeoutMs
    ensures p in Run(cfg, start, ops).peerStates
    ensures !Run(cfg, start, ops).peerStates[p].reachable
            <==> exists i :: i < |ops| - 1 && Since(ops, i, p) && ops[i].now - LastHeard(start, ops, p) > cfg.timeoutMs
  {
    hide Run, LastHeard;
    FlagIsExact(cfg, start, ops, p);
  }

  /** A clock that jumps ahead for one check and comes back leaves such a flag, for every configuration and peer. */
  lemma ClockGoingBackLeavesAStaleFlag(cfg: DetectorConfig, start: int, p: string)
    requires p in cfg.peers && cfg.timeoutMs >= 0
    ensures var ops := [Check(start + cfg.timeoutMs + 1), Check(start)];
            var v := Run(cfg, start, ops);
            && p in v.peerStates && !v.peerStates[p].reachable && start - LastHeard(start, ops, p) <= cfg.timeoutMs
  {
    hide Run;
    var ops := [Check(start + cfg.timeoutMs + 1), Check(start)];
    assert ops[..1][..0] == [];
    assert LastHeard(start, ops[..1], p) == start;
    assert Since(ops, 0, p);
    StaleFlagIff(cfg, start, ops, p);
  }

  // --- the callbacks ---

  /** Partition, heal, partition, … */
  predicate Alternates(notices: seq<Notice>) {
    forall i | 0 <= i < |notices| :: notices[i] == if i % 2 == 0 then Partition else Heal
  }

  /** In every run the callbacks alternate, starting with a partition, and the flag is the last one. */
  lemma {:induction false} NoticesAlternate(cfg: DetectorConfig, start: int, ops: seq<Op>)
    ensures var v := Run(cfg, start, ops);
            Alternates(v.notices) && (v.partitioned <==> |v.notices| % 2 == 1)
  {
    if ops != [] {
      NoticesAlternate(cfg, start, ops[..|ops| - 1]);
    }
  }

  // --- quorum ---

  lemma {:induction false} DistinctCount(s: seq<string>)
    requires forall i, j | 0 <= i < j < |s| :: s[i] != s[j]
    ensures |set p | p in s| == |s|
  {
    if s != [] {
      var front, x := s[..|s| - 1], s[|s| - 1];
      DistinctCount(front);
      assert (set p | p in s) == (set p | p in front) + {x};
    }
  }

  /** Between checks heartbeats only make peers reachable: an unpartitioned node keeps a quorum. */
  lemma {:induction false} UnpartitionedKeepsAQuorum(cfg: DetectorConfig, start: int, ops: seq<Op>)
    ensures var v := Run(cfg, start, ops);
            && (forall p :: p in v.peerStates <==> p in cfg.peers)
            && (!v.partitioned ==> |Unreachable(v.peerStates)| <= |cfg.peers| / 2)
  {
    if ops == [] {
      assert Unreachable(Run(cfg, start, ops).peerStates) == {};
    } else {
      var before, v := Run(cfg, start, ops[..|ops| - 1]), Run(cfg, start, ops);
      UnpartitionedKeepsAQuorum(cfg, start, ops[..|ops| - 1]);
      if ops[|ops| - 1].Heartbeat? {
        SubsetSize(Unreachable(v.peerStates), Unreachable(before.peerStates));
      }
    }
  }

  /** A node watching every other node of the cluster, each once. */
  predicate Watches(cfg: DetectorConfig, self: string, nodes: set<string>) {
    && self in nodes
    && (forall i, j | 0 <= i < j < |cfg.peers| :: cfg.peers[i] != cfg.peers[j])
    && (set p | p in cfg.peers) == nodes - {self}
  }

  /** The nodes a node can reach, itself included. */
  function Reach(v: View, self: string): set<string> {
    (set p | p in v.peerStates && v.peerStates[p].reachable) + {self}
  }

  /** An unpartitioned node reaches more than half of the cluster. */
  lemma MajorityReached(cfg: DetectorConfig, start: int, ops: seq<Op>, self: string, nodes: set<string>)
    requires Watches(cfg, self, nodes) && !Run(cfg, start, ops).partitioned
    ensures Reach(Run(cfg, start, ops), self) <= nodes && 2 * |Reach(Run(cfg, start, ops), self)| > |nodes|
  {
    hide Run;
    var v, others := Run(cfg, start, ops), nodes - {self};
    UnpartitionedKeepsAQuorum(cfg, start, ops);
    DistinctCount(cfg.peers);
    forall p ensures p in v.peerStates <==> p in others {
      assert p in cfg.peers <==> p in set q | q in cfg.peers;
    }
    hide Watches;
    assert nodes == others + {self};
    ReachOrNot(v, self, others);
  }

  /** Every other node is reachable or not, and not both. */
  lemma ReachOrNot(v: View, self: string, others: set<string>)
    requires self !in others && forall p :: p in v.peerStates <==> p in others
    ensures var reach, unreachable := Reach(v, self), Unreachable(v.peerStates);
            reach <= others + {self} && |reach| + |unreachable| == |others| + 1
  {
    var reach, unreachable := Reach(v, self), Unreachable(v.peerStates);
    forall p ensures p in others + {self} <==> p in reach + unreachable {
      if p in others {
        assert p in reach || p in unreachable;
      }
    }
    assert others + {self} == reach + unreachable && reach !! unreachable;
    assert |reach + unreachable| == |reach| + |unreachable|;
  }

  /**
   Any two nodes of one cluster, each with its own run, clock and timeout: when neither counts as
   partitioned, some node is reachable from both.
   */
  lemma QuorumsMeet(nodes: set<string>, a: string, cfgA: DetectorConfig, startA: int, opsA: seq<Op>,
                    b: string, cfgB: DetectorConfig, startB: int, opsB: seq<Op>)
    requires Watches(cfgA, a, nodes) && Watches(cfgB, b, nodes)
    requires !Run(cfgA, startA, opsA).partitioned && !Run(cfgB, startB, opsB).partitioned
    ensures Reach(Run(cfgA, startA, opsA), a) * Reach(Run(cfgB, startB, opsB), b) != {}
  {
    MajorityReached(cfgA, startA, opsA, a, nodes);
    MajorityReached(cfgB, startB, opsB, b, nodes);
    var ra, rb := Reach(Run(cfgA, startA, opsA), a), Reach(Run(cfgB, startB, opsB), b);
    if ra !! rb {
      assert |ra + rb| == |ra| + |rb|;
      SubsetSize(ra + rb, nodes);
    }
  }

  // --- peers listed more than once ---

  /** The number of different peers. */
  function PeerCount(cfg: DetectorConfig): nat {
    |set p | p in cfg.peers|
  }

  /** Every run that leaves the node unpartitioned leaves it at most half of its peers unreachable. */
  ghost predicate NeverMisses(cfg: DetectorConfig) {
    forall start, ops | !Run(cfg, start, ops).partitioned ::
      |Unreachable(Run(cfg, start, ops).peerStates)| <= PeerCount(cfg) / 2
  }

  /** Heartbeats at one time from all peers but the given ones, and a check at that time. */
  function AllBut(peers: seq<string>, silent: set<string>, now: int): seq<Op> {
    if peers == [] then []
    else
      var p := peers[|peers| - 1];
      AllBut(peers[..|peers| - 1], silent, now) + if p in silent then [] else [Heartbeat(p, now)]
  }

  lemma {:induction false} AllButHeard(peers: seq<string>, silent: set<string>, start: int, now: int, p: string)
    requires start <= now
    ensures var ops := AllBut(peers, silent, now);
            && Clocked(start, ops) && LastRead(start, ops) <= now
            && LastHeard(start, ops, p) == if p in peers && p !in silent then now else start
  {
    if peers != [] {
      var front, q := peers[..|peers| - 1], peers[|peers| - 1];
      AllButHeard(front, silent, start, now, p);
      var before, ops := AllBut(front, silent, now), AllBut(peers, silent, now);
      assert p in peers <==> p in front || p == q;
      if q in silent {
        assert ops == before;
      } else {
        assert ops[..|ops| - 1] == before && ops[|ops| - 1] == Heartbeat(q, now);
      }
    }
  }

  /** Any set of peers can be exactly the silent one. */
  lemma SilentRun(cfg: DetectorConfig, silent: set<string>) returns (ops: seq<Op>)
    requires cfg.timeoutMs >= 0 && forall p | p in silent :: p in cfg.peers
    ensures ops != [] && ops[|ops| - 1].Check? && Clocked(0, ops)
    ensures Silent(cfg, 0, ops, ops[|ops| - 1].now) == silent
  {
    hide Clocked, AllBut, LastHeard, LastRead;
    var now := cfg.timeoutMs + 1;
    var heard := AllBut(cfg.peers, silent, now);
    ops := heard + [Check(now)];
    AllButHeard(cfg.peers, silent, 0, now, "");
    ClockedSnoc(0, heard, Check(now));
    forall p ensures p in Silent(cfg, 0, ops, now) <==> p in silent {
      AllButHeard(cfg.peers, silent, 0, now, p);
      assert ops[..|ops| - 1] == heard;
      HeardBefore(0, ops, p);
    }
  }

  lemma ClockedSnoc(start: int, ops: seq<Op>, op: Op)
    requires Clocked(start, ops) && LastRead(start, ops) <= op.now
    ensures Clocked(start, ops + [op])
  {
    assert (ops + [op])[..|ops|] == ops;
  }

  lemma {:induction false} SomeOf(s: set<string>, k: nat) returns (part: set<string>)
    requires k <= |s|
    ensures part <= s && |part| == k
  {
    if k == |s| {
      return s;
    }
    var x :| x in s;
    part := SomeOf(s - {x}, k);
  }

  /**
   The threshold counts a peer as often as it is listed, the flags count it once. Listing peers more
   than once hides a lost majority in some run if and only if it changes half of their number,
   rounded down; and it does so in exactly the checks that find more than half of the different
   peers silent, but not more than half of the listed number.
   */
  lemma RepeatedPeersHideIff(cfg: DetectorConfig)
    requires cfg.timeoutMs >= 0
    ensures NeverMisses(cfg) <==> |cfg.peers| / 2 == PeerCount(cfg) / 2
    ensures forall start: int, ops: seq<Op> | Clocked(start, ops) && ops != [] && ops[|ops| - 1].Check? ::
              var silent := |Silent(cfg, start, ops, ops[|ops| - 1].now)|;
              !Run(cfg, start, ops).partitioned && silent > PeerCount(cfg) / 2
              <==> PeerCount(cfg) / 2 < silent <= |cfg.peers| / 2
  {
    hide Run, Unreachable, Silent;
    var peers := set p | p in cfg.peers;
    ListedAtLeast(cfg.peers);
    forall start: int, ops: seq<Op> | Clocked(start, ops) && ops != [] && ops[|ops| - 1].Check?
      ensures Run(cfg, start, ops).partitioned <==> |Silent(cfg, start, ops, ops[|ops| - 1].now)| > |cfg.peers| / 2
    {
      CheckIsExact(cfg, start, ops);
    }
    if |cfg.peers| / 2 == PeerCount(cfg) / 2 {
      forall start, ops | !Run(cfg, start, ops).partitioned
        ensures |Unreachable(Run(cfg, start, ops).peerStates)| <= PeerCount(cfg) / 2
      {
        UnpartitionedKeepsAQuorum(cfg, start, ops);
      }
    } else {
      var silent := SomeOf(peers, |peers| / 2 + 1);
      var ops := SilentRun(cfg, silent);
      CheckIsExact(cfg, 0, ops);
      assert !Run(cfg, 0, ops).partitioned;
    }
  }

  lemma {:induction false} ListedAtLeast(s: seq<string>)
    ensures |set p | p in s| <= |s|
    ensures s != [] ==> |set p | p in s| >= 1
  {
    if s != [] {
      var front, x := s[..|s| - 1], s[|s| - 1];
      ListedAtLeast(front);
      assert (set p | p in s) == (set p | p in front) + {x};
    }
  }
}
