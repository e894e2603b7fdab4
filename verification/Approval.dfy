/** The approval machine seen abstractly: a log of operations, each with the votes and
    processed marks it has collected. Operation number i of the hub is `s[i - 1]`. */
module Approval {
  import opened HubTypes

  datatype Op = Op(
    opType: OperationType,
    status: OperationStatus,
    initiator: int,
    seed: Option<Bytes>,
    votes: map<int, bool>,
    processed: set<int>)

  type State = seq<Op>

  datatype Action =
    | Post(c: int, opType: OperationType, seed: Option<Bytes>)
    | Respond(c: int, idx: int, ack: bool)
    | Mark(c: int, idx: int)

  // ----- votes -----

  function Acks(votes: map<int, bool>): set<int> {
    set c | c in votes && votes[c]
  }

  function Nacks(votes: map<int, bool>): set<int> {
    set c | c in votes && !votes[c]
  }

  /** The status `n` cosigners reach under threshold `t`, in ideal arithmetic. */
  function Decide(n: int, t: int, acks: int, nacks: int): OperationStatus {
    if acks >= t then Approved else if nacks > n - t then Discarded else Pending
  }

  function Tallied(cfg: Config, t: int, votes: map<int, bool>): OperationStatus {
    Decide(|cfg.Cosigners()|, t, |Acks(votes)|, |Nacks(votes)|)
  }

  lemma VotesSplit(votes: map<int, bool>)
    ensures Acks(votes) !! Nacks(votes)
    ensures Acks(votes) + Nacks(votes) == votes.Keys
    ensures |Acks(votes)| + |Nacks(votes)| == |votes|
  {
    assert Acks(votes) + Nacks(votes) == votes.Keys;
  }

  lemma AckAdded(votes: map<int, bool>, c: int)
    requires c !in votes
    ensures Acks(votes[c := true]) == Acks(votes) + {c}
    ensures Nacks(votes[c := true]) == Nacks(votes)
  {
  }

  lemma NackAdded(votes: map<int, bool>, c: int)
    requires c !in votes
    ensures Acks(votes[c := false]) == Acks(votes)
    ensures Nacks(votes[c := false]) == Nacks(votes) + {c}
  {
  }

  lemma VoteAdded(votes: map<int, bool>, c: int, ack: bool)
    requires c !in votes
    ensures |Acks(votes[c := ack])| == |Acks(votes)| + (if ack then 1 else 0)
    ensures |Nacks(votes[c := ack])| == |Nacks(votes)| + (if ack then 0 else 1)
  {
    if ack { AckAdded(votes, c); } else { NackAdded(votes, c); }
  }

  // ----- the machine -----

  predicate HasPending(s: State) {
    exists i | 0 <= i < |s| :: s[i].status == Pending
  }

  predicate HasUnprocessed(s: State, c: int) {
    exists i | 0 <= i < |s| :: c !in s[i].processed
  }

  /** The largest operation number the cosigner has marked as processed, 0 if none. */
  function LastProcessed(s: State, c: int): (last: int)
    ensures 0 <= last <= |s|
    ensures last > 0 ==> c in s[last - 1].processed
    ensures forall i | last <= i < |s| :: c !in s[i].processed
  {
    if s == [] then 0
    else if c in s[|s| - 1].processed then |s|
    else LastProcessed(s[..|s| - 1], c)
  }

  lemma LastProcessedIs(s: State, c: int, last: nat)
    requires last <= |s|
    requires last > 0 ==> c in s[last - 1].processed
    requires forall i | last <= i < |s| :: c !in s[i].processed
    ensures LastProcessed(s, c) == last
  {
  }

  predicate Enabled(cfg: Config, s: State, a: Action) {
    a.c in cfg.Cosigners() &&
    match a
    case Post(c, opType, seed) =>
      !HasPending(s) && !HasUnprocessed(s, c) && SeedFits(opType, seed)
    case Respond(c, idx, _) =>
      && 1 <= idx <= |s|
      && s[idx - 1].status == Pending
      && c !in s[idx - 1].votes
      && idx == LastProcessed(s, c) + 1
    case Mark(c, idx) =>
      && 1 <= idx <= |s|
      && s[idx - 1].status != Pending
      && c !in s[idx - 1].processed
  }

  function InitialStatus(opType: OperationType): OperationStatus {
    if opType in AUTO_APPROVED_OPS then Approved else Pending
  }

  /** The operation after one more vote: the status follows the new tally, and stays
      Pending while neither side has won. */
  function Voted(cfg: Config, op: Op, c: int, ack: bool): Op {
    var votes := op.votes[c := ack];
    var t := cfg.Threshold(op.opType);
    op.(votes := votes, status := if t.None? then op.status else Tallied(cfg, t.value, votes))
  }

  function Apply(cfg: Config, s: State, a: Action): State
    requires Enabled(cfg, s, a)
  {
    match a
    case Post(c, opType, seed) =>
      s + [Op(opType, InitialStatus(opType), c, seed, map[], {})]
    case Respond(c, idx, ack) =>
      s[idx - 1 := Voted(cfg, s[idx - 1], c, ack)]
    case Mark(c, idx) =>
      s[idx - 1 := s[idx - 1].(processed := s[idx - 1].processed + {c})]
  }

  /** One request: a refused action leaves the log alone. */
  function Step(cfg: Config, s: State, a: Action): State {
    if Enabled(cfg, s, a) then Apply(cfg, s, a) else s
  }

  function Run(cfg: Config, s: State, run: seq<Action>): State
    decreases |run|
  {
    if run == [] then s else Run(cfg, Step(cfg, s, run[0]), run[1..])
  }

  lemma {:induction false} RunAppend(cfg: Config, s: State, run: seq<Action>, more: seq<Action>)
    ensures Run(cfg, s, run + more) == Run(cfg, Run(cfg, s, run), more)
    decreases |run|
  {
    if run == [] {
      assert run + more == more;
    } else {
      assert (run + more)[1..] == run[1..] + more;
      RunAppend(cfg, Step(cfg, s, run[0]), run[1..], more);
    }
  }

  // ----- the invariant of every reachable log -----

  /** What holds of one operation by itself. */
  ghost predicate OpInv(cfg: Config, op: Op) {
    && op.initiator in cfg.Cosigners()
    && op.votes.Keys <= cfg.Cosigners()
    && op.processed <= cfg.Cosigners()
    && SeedFits(op.opType, op.seed)
    && (op.status == Pending ==> op.processed == {})
    && match cfg.Threshold(op.opType)
       case None => op.status == Approved && op.votes == map[]
       case Some(t) =>
         && op.status == Tallied(cfg, t, op.votes)
         && (op.status == Approved ==> |Acks(op.votes)| == t)
         && (op.status == Discarded ==> |Nacks(op.votes)| == |cfg.Cosigners()| - t + 1)
  }

  /** Only the newest operation may be pending; an initiator had processed everything
      before its operation; a voter had processed the operation before. */
  ghost predicate Inv(cfg: Config, s: State) {
    && (forall i | 0 <= i < |s| :: OpInv(cfg, s[i]))
    && (forall i | 0 <= i < |s| - 1 :: s[i].status != Pending)
    && (forall i, j | 0 <= j < i < |s| :: s[i].initiator in s[j].processed)
    && (forall i, c | 1 <= i < |s| && c in s[i].votes :: c in s[i - 1].processed)
  }

  lemma VotedKeepsOpInv(cfg: Config, op: Op, c: int, ack: bool)
    requires cfg.Sound() && OpInv(cfg, op) && op.status == Pending
    requires c in cfg.Cosigners() && c !in op.votes
    ensures OpInv(cfg, Voted(cfg, op, c, ack))
  {
    VoteAdded(op.votes, c, ack);
  }

  lemma PostKeepsInv(cfg: Config, s: State, c: int, opType: OperationType, seed: Option<Bytes>)
    requires cfg.Sound() && Inv(cfg, s) && Enabled(cfg, s, Post(c, opType, seed))
    ensures Inv(cfg, Apply(cfg, s, Post(c, opType, seed)))
  {
    assert Acks(map[]) == {} && Nacks(map[]) == {};
    var op := Op(opType, InitialStatus(opType), c, seed, map[], {});
    assert OpInv(cfg, op);
  }

  /** Whoever votes on operation `i` has voted on it before, or has processed the previous one. */
  ghost predicate HadTurn(s: State, i: nat, votes: map<int, bool>)
    requires i < |s|
  {
    forall c | c in votes :: c in s[i].votes || (i > 0 ==> c in s[i - 1].processed)
  }

  /** One operation may change in place, if it keeps its initiator and its marks, does not
      become pending again, and gains only votes of cosigners that had their turn. */
  lemma OneChanged(cfg: Config, s: State, i: nat, op: Op)
    requires Inv(cfg, s) && i < |s| && OpInv(cfg, op)
    requires op.initiator == s[i].initiator && s[i].processed <= op.processed
    requires i < |s| - 1 ==> op.status != Pending
    requires HadTurn(s, i, op.votes)
    ensures Inv(cfg, s[i := op])
  {
    var t := s[i := op];
    forall j, k | 0 <= j < k < |t| ensures t[k].initiator in t[j].processed {
      assert s[k].initiator in s[j].processed;
    }
    forall k, c | 1 <= k < |t| && c in t[k].votes ensures c in t[k - 1].processed {
      assert c in s[k].votes ==> c in s[k - 1].processed;
    }
  }

  lemma InvAt(cfg: Config, s: State, i: nat)
    requires Inv(cfg, s) && i < |s|
    ensures OpInv(cfg, s[i])
  {
  }

  lemma PendingIsNewest(cfg: Config, s: State, i: nat)
    requires Inv(cfg, s) && i < |s| && s[i].status == Pending
    ensures i == |s| - 1 && OpInv(cfg, s[i])
  {
  }

  lemma VotersHadTurn(cfg: Config, s: State, c: int, idx: int, ack: bool)
    requires 1 <= idx <= |s| && idx == LastProcessed(s, c) + 1
    ensures HadTurn(s, idx - 1, Voted(cfg, s[idx - 1], c, ack).votes)
  {
    var last := LastProcessed(s, c);
    assert last > 0 ==> c in s[last - 1].processed;
  }

  lemma RespondKeepsInv(cfg: Config, s: State, c: int, idx: int, ack: bool)
    requires cfg.Sound() && Inv(cfg, s) && Enabled(cfg, s, Respond(c, idx, ack))
    ensures Inv(cfg, Apply(cfg, s, Respond(c, idx, ack)))
  {
    hide Inv, OpInv, LastProcessed, Tallied, HadTurn;
    PendingIsNewest(cfg, s, idx - 1);
    VotedKeepsOpInv(cfg, s[idx - 1], c, ack);
    VotersHadTurn(cfg, s, c, idx, ack);
    OneChanged(cfg, s, idx - 1, Voted(cfg, s[idx - 1], c, ack));
  }

  lemma MarkKeepsInv(cfg: Config, s: State, c: int, idx: int)
    requires cfg.Sound() && Inv(cfg, s) && Enabled(cfg, s, Mark(c, idx))
    ensures Inv(cfg, Apply(cfg, s, Mark(c, idx)))
  {
    var op := s[idx - 1];
    assert OpInv(cfg, op);
    OneChanged(cfg, s, idx - 1, op.(processed := op.processed + {c}));
  }

  lemma StepKeepsInv(cfg: Config, s: State, a: Action)
    requires cfg.Sound() && Inv(cfg, s)
    ensures Inv(cfg, Step(cfg, s, a))
  {
    if Enabled(cfg, s, a) {
      match a
      case Post(c, opType, seed) => PostKeepsInv(cfg, s, c, opType, seed);
      case Respond(c, idx, ack) => RespondKeepsInv(cfg, s, c, idx, ack);
      case Mark(c, idx) => MarkKeepsInv(cfg, s, c, idx);
    }
  }

  /** Every run of requests from the empty log satisfies the invariant. */
  lemma {:induction false} RunKeepsInv(cfg: Config, s: State, run: seq<Action>)
    requires cfg.Sound() && Inv(cfg, s)
    ensures Inv(cfg, Run(cfg, s, run))
    decreases |run|
  {
    if run != [] {
      StepKeepsInv(cfg, s, run[0]);
      RunKeepsInv(cfg, Step(cfg, s, run[0]), run[1..]);
    }
  }

  lemma EmptyLogInv(cfg: Config)
    ensures Inv(cfg, [])
  {
  }
}
