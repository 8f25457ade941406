/** The owner of partitions behind a rebalance (backend/src/event-bus/partition-owner.rs). */
module PartitionOwners {
  import opened Common

  datatype Message = Message(flowId: string, partition: nat, seqno: nat, payload: seq<int>)

  datatype OwnerState = OwnerState(fences: map<nat, string>, buffers: map<nat, seq<Message>>) {
    function Buffer(p: nat): seq<Message> { Get(buffers, p, []) }
    predicate Confirms(p: nat, token: string) { p in fences && fences[p] == token }
  }

  datatype OwnerError = Fenced | MissingFenceToken | DifferentFenceToken

  datatype OwnerOp =
    | Activate(partition: nat, token: string)
    | Append(message: Message)
    | Drain(partition: nat, token: string)
    | Release(partition: nat, token: string)

  function OwnerStep(s: OwnerState, op: OwnerOp): (OwnerState, Result<seq<Message>, OwnerError>) {
    match op
    case Activate(p, token) => (s.(fences := s.fences[p := token]), Ok([]))
    case Append(m) =>
      if m.partition in s.fences then (s, Err(Fenced))
      else (s.(buffers := s.buffers[m.partition := s.Buffer(m.partition) + [m]]), Ok([]))
    case Drain(p, token) =>
      if !s.Confirms(p, token) then (s, Err(MissingFenceToken))
      else (s.(buffers := s.buffers - {p}), Ok(s.Buffer(p)))
    case Release(p, token) =>
      if !s.Confirms(p, token) then (s, Err(DifferentFenceToken))
      else (s.(fences := s.fences - {p}), Ok([]))
  }

  class PartitionOwner {
    var fenceTokens: map<nat, string>
    var buffers: map<nat, seq<Message>>

    function State(): OwnerState
      reads this
    {
      OwnerState(fenceTokens, buffers)
    }

    constructor ()
      ensures State() == OwnerState(map[], map[])
    {
      fenceTokens, buffers := map[], map[];
    }

    method ActivateFence(partition: nat, token: string)
      modifies this
      ensures State() == OwnerStep(old(State()), Activate(partition, token)).0
    {
      fenceTokens := fenceTokens[partition := token];
    }

    method ConfirmFence(partition: nat, token: string) returns (confirmed: bool)
      ensures confirmed <==> State().Confirms(partition, token)
    {
      confirmed := partition in fenceTokens && fenceTokens[partition] == token;
    }

    method AppendMessage(message: Message) returns (r: Result<seq<Message>, OwnerError>)
      modifies this
      ensures (State(), r) == OwnerStep(old(State()), Append(message))
    {
      if message.partition in fenceTokens {
        return Err(Fenced);
      }
      buffers := buffers[message.partition := Get(buffers, message.partition, []) + [message]];
      return Ok([]);
    }

    method DrainPartition(partition: nat, token: string) returns (r: Result<seq<Message>, OwnerError>)
      modifies this
      ensures (State(), r) == OwnerStep(old(State()), Drain(partition, token))
    {
      var confirmed := ConfirmFence(partition, token);
      if !confirmed {
        return Err(MissingFenceToken);
      }
      var drained := Get(buffers, partition, []);
      buffers := buffers - {partition};
      return Ok(drained);
    }

    method ReleaseFence(partition: nat, token: string) returns (r: Result<seq<Message>, OwnerError>)
      modifies this
      ensures (State(), r) == OwnerStep(old(State()), Release(partition, token))
    {
      var confirmed := ConfirmFence(partition, token);
      if !confirmed {
        return Err(DifferentFenceToken);
      }
      fenceTokens := fenceTokens - {partition};
      return Ok([]);
    }

    /** Takes one step on behalf of some client. */
    method Take(op: OwnerOp)
      modifies this
      ensures State() == OwnerStep(old(State()), op).0
    {
      match op {
        case Activate(p, token) => ActivateFence(p, token);
        case Append(m) => var _ := AppendMessage(m);
        case Drain(p, token) => var _ := DrainPartition(p, token);
        case Release(p, token) => var _ := ReleaseFence(p, token);
      }
    }
  }

  // --- whole runs ---

  /** An owner after some calls, with every message it accepted and every message it handed out. */
  datatype History = History(state: OwnerState, accepted: seq<Message>, drained: seq<Message>)

  function Play(ops: seq<OwnerOp>): History {
    if ops == [] then History(OwnerState(map[], map[]), [], [])
    else
      var h := Play(ops[..|ops| - 1]);
      var op := ops[|ops| - 1];
      var (s, r) := OwnerStep(h.state, op);
      History(s,
              h.accepted + (if op.Append? && r.Ok? then [op.message] else []),
              h.drained + (if r.Ok? then r.value else []))
  }

  function OfPartition(ms: seq<Message>, p: nat): seq<Message> {
    Where(ms, (m: Message) => m.partition == p)
  }

  lemma OfPartitionConcat(a: seq<Message>, b: seq<Message>, p: nat)
    ensures OfPartition(a + b, p) == OfPartition(a, p) + OfPartition(b, p)
  {
    WhereConcat(a, b, (m: Message) => m.partition == p);
  }

  lemma {:induction false} OfOnePartition(ms: seq<Message>, p: nat, q: nat)
    requires forall m | m in ms :: m.partition == q
    ensures OfPartition(ms, p) == if p == q then ms else []
  {
    if ms != [] {
      OfOnePartition(ms[..|ms| - 1], p, q);
    }
  }

  /** A buffer holds only messages of its partition. */
  predicate Sorted(s: OwnerState) {
    forall p | p in s.buffers :: forall m | m in s.buffers[p] :: m.partition == p
  }

  /** What one call adds to the accepted messages and to the drained ones. */
  function Accepts(s: OwnerState, op: OwnerOp): seq<Message> {
    if op.Append? && OwnerStep(s, op).1.Ok? then [op.message] else []
  }

  function HandsOut(s: OwnerState, op: OwnerOp): seq<Message> {
    var r := OwnerStep(s, op).1;
    if r.Ok? then r.value else []
  }

  lemma StepConserves(s: OwnerState, op: OwnerOp, p: nat)
    requires Sorted(s)
    ensures var s' := OwnerStep(s, op).0;
            && Sorted(s')
            && s.Buffer(p) + OfPartition(Accepts(s, op), p) == OfPartition(HandsOut(s, op), p) + s'.Buffer(p)
  {
    hide OfPartition;
    OfOnePartition([], p, p);
    assert s.Buffer(p) + [] == s.Buffer(p) && [] + s.Buffer(p) == s.Buffer(p);
    match op {
      case Append(m) =>
        OfOnePartition([m], p, m.partition);
      case Drain(q, token) =>
        OfOnePartition(s.Buffer(q), p, q);
      case _ =>
    }
  }

  lemma {:induction false} PlaySorted(ops: seq<OwnerOp>)
    ensures Sorted(Play(ops).state)
  {
    if ops != [] {
      PlaySorted(ops[..|ops| - 1]);
      StepConserves(Play(ops[..|ops| - 1]).state, ops[|ops| - 1], 0);
    }
  }

  /**
   Whatever calls are made, in any order and with any tokens: the messages of a partition that were
   accepted are, in order, those handed out by drains followed by those still in its buffer.
   */
  lemma {:induction false} AcceptedIsDrainedPlusBuffered(ops: seq<OwnerOp>, p: nat)
    ensures var h := Play(ops);
            OfPartition(h.accepted, p) == OfPartition(h.drained, p) + h.state.Buffer(p)
  {
    if ops != [] {
      var front, op := ops[..|ops| - 1], ops[|ops| - 1];
      var h := Play(front);
      AcceptedIsDrainedPlusBuffered(front, p);
      PlaySorted(front);
      StepConserves(h.state, op, p);
      hide OfPartition;
      var accepts, out := Accepts(h.state, op), HandsOut(h.state, op);
      OfPartitionConcat(h.accepted, accepts, p);
      OfPartitionConcat(h.drained, out, p);
      Rebracket(OfPartition(h.drained, p), h.state.Buffer(p), OfPartition(accepts, p),
                OfPartition(out, p), OwnerStep(h.state, op).0.Buffer(p));
    }
  }

  lemma Rebracket<T>(drained: seq<T>, buffer: seq<T>, accepts: seq<T>, out: seq<T>, buffer': seq<T>)
    requires buffer + accepts == out + buffer'
    ensures drained + buffer + accepts == drained + out + buffer'
  {
    assert drained + buffer + accepts == drained + (buffer + accepts);
    assert drained + out + buffer' == drained + (out + buffer');
  }

  /** `ops[i]` set the fence of `p` to `token`, and nothing after it changed that fence. */
  predicate Latest(ops: seq<OwnerOp>, i: int, p: nat, token: string) {
    && 0 <= i < |ops| && ops[i] == Activate(p, token)
    && forall j | i < j < |ops| :: !Changes(ops[j], p, token)
  }

  predicate Changes(op: OwnerOp, p: nat, token: string) {
    (op.Activate? && op.partition == p) || op == Release(p, token)
  }

  ghost predicate InForce(ops: seq<OwnerOp>, p: nat, token: string) {
    exists i :: Latest(ops, i, p, token)
  }

  lemma InForceSnoc(ops: seq<OwnerOp>, op: OwnerOp, p: nat, token: string)
    ensures InForce(ops + [op], p, token) <==>
              op == Activate(p, token) || (InForce(ops, p, token) && !Changes(op, p, token))
  {
    var all, n := ops + [op], |ops|;
    assert all[n] == op;
    if InForce(all, p, token) {
      var i :| Latest(all, i, p, token);
      if i < n {
        assert forall j | 0 <= j < n :: all[j] == ops[j];
        assert Latest(ops, i, p, token);
      }
    }
    if op == Activate(p, token) {
      assert Latest(all, n, p, token);
    } else if InForce(ops, p, token) && !Changes(op, p, token) {
      var i :| Latest(ops, i, p, token);
      assert Latest(all, i, p, token);
    }
  }

  /**
   A token is confirmed, and so can drain or release a partition, exactly when it is the latest one
   activated for it and was not released since.
   */
  lemma {:induction false} OnlyTheLatestTokenCounts(ops: seq<OwnerOp>, p: nat, token: string)
    ensures Play(ops).state.Confirms(p, token) <==> InForce(ops, p, token)
  {
    if ops != [] {
      var front, op := ops[..|ops| - 1], ops[|ops| - 1];
      hide InForce, OwnerStep, Changes;
      OnlyTheLatestTokenCounts(front, p, token);
      ConfirmsAfter(Play(front).state, op, p, token);
      InForceSnoc(front, op, p, token);
      assert ops == front + [op];
    } else {
      NeverInForce(p, token);
    }
  }

  lemma NeverInForce(p: nat, token: string)
    ensures !InForce([], p, token)
  {
  }

  lemma ConfirmsAfter(s: OwnerState, op: OwnerOp, p: nat, token: string)
    ensures OwnerStep(s, op).0.Confirms(p, token) <==>
              op == Activate(p, token) || (s.Confirms(p, token) && !Changes(op, p, token))
  {
  }

  /** What each call that needs a token, or the lack of one, does after any run. */
  lemma TokensDecide(ops: seq<OwnerOp>, p: nat, token: string, m: Message)
    requires m.partition == p
    ensures OwnerStep(Play(ops).state, Drain(p, token)).1.Ok? <==> InForce(ops, p, token)
    ensures OwnerStep(Play(ops).state, Release(p, token)).1.Ok? <==> InForce(ops, p, token)
    ensures OwnerStep(Play(ops).state, Append(m)).1.Ok? <==> forall t :: !InForce(ops, p, t)
  {
    OnlyTheLatestTokenCounts(ops, p, token);
    var s := Play(ops).state;
    forall t ensures s.Confirms(p, t) <==> InForce(ops, p, t) {
      OnlyTheLatestTokenCounts(ops, p, t);
    }
    if p in s.fences {
      assert s.Confirms(p, s.fences[p]);
    }
  }

  // --- fencing ---

  function PlayFrom(s: OwnerState, ops: seq<OwnerOp>): OwnerState {
    if ops == [] then s else OwnerStep(PlayFrom(s, ops[..|ops| - 1]), ops[|ops| - 1]).0
  }

  /** Calls by others: any call at all, except that they do not know the token. */
  predicate WithoutToken(ops: seq<OwnerOp>, token: string) {
    forall op | op in ops :: !op.Append? ==> op.token != token
  }

  /**
   If a partition was fenced with a token, others made any calls they like without knowing it, and
   the token is still confirmed, then the fence was in place throughout: the buffer is untouched.
   */
  lemma {:induction false} ConfirmedMeansUntouched(s: OwnerState, ops: seq<OwnerOp>, p: nat, token: string)
    requires s.Confirms(p, token) && WithoutToken(ops, token)
    ensures PlayFrom(s, ops).Confirms(p, token) ==> PlayFrom(s, ops).Buffer(p) == s.Buffer(p)
  {
    if ops != [] {
      var front := ops[..|ops| - 1];
      assert ops[|ops| - 1] in ops && forall op | op in front :: op in ops;
      ConfirmedMeansUntouched(s, front, p, token);
    }
  }

  /** A token that is not in force stays out of force unless its holder activates it again. */
  lemma {:induction false} LostStaysLost(s: OwnerState, ops: seq<OwnerOp>, p: nat, token: string)
    requires !s.Confirms(p, token) && WithoutToken(ops, token)
    ensures !PlayFrom(s, ops).Confirms(p, token)
  {
    if ops != [] {
      var front := ops[..|ops| - 1];
      assert ops[|ops| - 1] in ops && forall op | op in front :: op in ops;
      LostStaysLost(s, front, p, token);
    }
  }
}
