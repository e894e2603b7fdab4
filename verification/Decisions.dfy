/** The early decision is the right one: it is taken exactly when no further vote could
    change the outcome, and it does not depend on the order of the votes. */
module Decisions {
  import opened HubTypes
  import opened Approval
  import opened History

  /** `full` is a vote of every cosigner that agrees with the votes already cast. */
  ghost predicate Completes(cfg: Config, votes: map<int, bool>, full: map<int, bool>) {
    && full.Keys == cfg.Cosigners()
    && forall c | c in votes :: c in full && full[c] == votes[c]
  }

  /** The votes cast, with every missing one filled in the same way. */
  function Fill(cfg: Config, votes: map<int, bool>, ack: bool): map<int, bool> {
    map c | c in cfg.Cosigners() :: if c in votes then votes[c] else ack
  }

  lemma FillNacks(cfg: Config, votes: map<int, bool>)
    requires votes.Keys <= cfg.Cosigners()
    ensures Completes(cfg, votes, Fill(cfg, votes, false))
    ensures |Acks(Fill(cfg, votes, false))| == |Acks(votes)|
  {
    assert Acks(Fill(cfg, votes, false)) == Acks(votes);
  }

  lemma FillAcks(cfg: Config, votes: map<int, bool>)
    requires votes.Keys <= cfg.Cosigners()
    ensures Completes(cfg, votes, Fill(cfg, votes, true))
    ensures |Acks(Fill(cfg, votes, true))| == |cfg.Cosigners()| - |Nacks(votes)|
  {
    assert Nacks(Fill(cfg, votes, true)) == Nacks(votes);
    VotesSplit(Fill(cfg, votes, true));
    assert |Fill(cfg, votes, true)| == |Fill(cfg, votes, true).Keys|;
  }

  lemma CompletionBounds(cfg: Config, votes: map<int, bool>, full: map<int, bool>)
    requires Completes(cfg, votes, full)
    ensures |Acks(votes)| <= |Acks(full)| <= |cfg.Cosigners()| - |Nacks(votes)|
  {
    forall c | c in votes ensures c in full && full[c] == votes[c] {}
    assert Acks(votes) <= Acks(full) && Nacks(votes) <= Nacks(full);
    SubsetSize(Acks(votes), Acks(full));
    SubsetSize(Nacks(votes), Nacks(full));
    VotesSplit(full);
    assert |full| == |full.Keys|;
  }

  /** The status is Approved iff every completion of the missing votes reaches the threshold,
      Discarded iff none does, and Pending iff both kinds remain. */
  ghost predicate ExactStatus(cfg: Config, t: int, votes: map<int, bool>, status: OperationStatus) {
    && (status == Approved <==> forall full | Completes(cfg, votes, full) :: |Acks(full)| >= t)
    && (status == Discarded <==> forall full | Completes(cfg, votes, full) :: |Acks(full)| < t)
    && (status == Pending <==>
          (exists full | Completes(cfg, votes, full) :: |Acks(full)| >= t)
          && (exists full | Completes(cfg, votes, full) :: |Acks(full)| < t))
  }

  /** In every reachable log, the status of a voted operation is exact: it is decided as soon
      as, and no sooner than, the missing votes can no longer matter. */
  lemma EarlyDecisionIsExact(cfg: Config, op: Op)
    requires cfg.Sound() && OpInv(cfg, op) && cfg.Threshold(op.opType).Some?
    ensures ExactStatus(cfg, cfg.Threshold(op.opType).value, op.votes, op.status)
  {
    FillNacks(cfg, op.votes);
    FillAcks(cfg, op.votes);
    forall full | Completes(cfg, op.votes, full)
      ensures |Acks(op.votes)| <= |Acks(full)| <= |cfg.Cosigners()| - |Nacks(op.votes)|
    {
      CompletionBounds(cfg, op.votes, full);
    }
    hide Completes, Acks, Nacks, Fill;
  }

  /** Once all cosigners have voted, the operation is decided. */
  lemma AllVotedIsDecided(cfg: Config, op: Op)
    requires cfg.Sound() && OpInv(cfg, op) && op.votes.Keys == cfg.Cosigners()
    ensures op.status != Pending
  {
    VotesSplit(op.votes);
    assert |op.votes| == |op.votes.Keys|;
  }

  /** So a pending operation still misses a vote. */
  lemma PendingMissesAVote(cfg: Config, op: Op)
    requires cfg.Sound() && OpInv(cfg, op) && op.status == Pending
    ensures exists c :: c in cfg.Cosigners() && c !in op.votes
  {
    if forall c | c in cfg.Cosigners() :: c in op.votes {
      assert op.votes.Keys == cfg.Cosigners();
      AllVotedIsDecided(cfg, op);
    }
  }

  // ----- order independence -----

  /** Every vote the run casts on operation `idx` is the one its cosigner intends. */
  ghost predicate Follows(run: seq<Action>, idx: int, intent: map<int, bool>) {
    forall k | 0 <= k < |run| && run[k].Respond? && run[k].idx == idx ::
      run[k].c in intent ==> run[k].ack == intent[run[k].c]
  }

  ghost predicate Agrees(votes: map<int, bool>, intent: map<int, bool>) {
    forall c | c in votes :: c in intent && intent[c] == votes[c]
  }

  lemma {:induction false} IntentIsKept(cfg: Config, s: State, run: seq<Action>, idx: int, intent: map<int, bool>)
    requires 1 <= idx <= |s| && Follows(run, idx, intent)
    requires intent.Keys == cfg.Cosigners() && Agrees(s[idx - 1].votes, intent)
    ensures |Run(cfg, s, run)| >= |s| && Agrees(Run(cfg, s, run)[idx - 1].votes, intent)
    decreases |run|
  {
    if run != [] {
      assert Follows(run[1..], idx, intent);
      StepGrows(cfg, s, run[0]);
      IntentIsKept(cfg, Step(cfg, s, run[0]), run[1..], idx, intent);
    }
  }

  /** Fix what each cosigner intends to vote on a pending operation. Whatever else is
      requested and in whatever order the votes arrive, a decision on it is Approved if
      the intended ACKs reach the threshold and Discarded otherwise. */
  lemma DecisionFollowsIntent(cfg: Config, s: State, run: seq<Action>, idx: int, intent: map<int, bool>)
    requires cfg.Sound() && Inv(cfg, s) && 1 <= idx <= |s|
    requires cfg.Threshold(s[idx - 1].opType).Some?
    requires intent.Keys == cfg.Cosigners()
    requires Follows(run, idx, intent) && Agrees(s[idx - 1].votes, intent)
    ensures |Run(cfg, s, run)| >= |s|
    ensures var t := cfg.Threshold(s[idx - 1].opType).value;
            var status := Run(cfg, s, run)[idx - 1].status;
            || status == Pending
            || status == if |Acks(intent)| >= t then Approved else Discarded
  {
    RunKeepsInv(cfg, s, run);
    RunGrows(cfg, s, run);
    IntentIsKept(cfg, s, run, idx, intent);
    var op := Run(cfg, s, run)[idx - 1];
    assert OpGrows(s[idx - 1], op) && OpInv(cfg, op);
    CompletionBounds(cfg, op.votes, intent);
  }

  // ----- everyone has a say -----

  /** The operation is the next one the cosigner may vote on. */
  predicate HasTurn(s: State, c: int, idx: int) {
    idx == LastProcessed(s, c) + 1
  }

  /** At position `k` the cosigner responds, and it had its turn from the start or has asked
      before to mark the previous operation. */
  predicate SpeaksAt(s: State, run: seq<Action>, idx: int, c: int, ack: bool, k: int) {
    && 0 <= k < |run| && run[k] == Respond(c, idx, ack)
    && (HasTurn(s, c, idx) || Mark(c, idx - 1) in run[..k])
  }

  /** The cosigner has voted already, or the run lets it respond as it intends. */
  ghost predicate HasItsSay(s: State, run: seq<Action>, idx: int, c: int, intent: map<int, bool>)
    requires 1 <= idx <= |s|
  {
    c in s[idx - 1].votes || (c in intent && exists k :: SpeaksAt(s, run, idx, c, intent[c], k))
  }

  lemma SplitAt(cfg: Config, s: State, run: seq<Action>, k: nat)
    requires k < |run|
    ensures Run(cfg, s, run) == Run(cfg, Step(cfg, Run(cfg, s, run[..k]), run[k]), run[k + 1..])
  {
    assert run[..k] + run[k..] == run;
    RunAppend(cfg, s, run[..k], run[k..]);
    assert run[k..][1..] == run[k + 1..];
  }

  lemma MarkedAfter(cfg: Config, s: State, idx: int, c: int)
    requires Inv(cfg, s) && 1 <= idx < |s| && c in cfg.Cosigners()
    ensures |Step(cfg, s, Mark(c, idx))| == |s| && c in Step(cfg, s, Mark(c, idx))[idx - 1].processed
  {
    assert s[idx - 1].status != Pending;
  }

  /** Asking for a mark of an operation that is not the newest leaves it marked. */
  lemma MarkTakes(cfg: Config, s: State, run: seq<Action>, idx: int, c: int)
    requires cfg.Sound() && Inv(cfg, s) && 1 <= idx < |s| && c in cfg.Cosigners() && Mark(c, idx) in run
    ensures |Run(cfg, s, run)| >= |s| && c in Run(cfg, s, run)[idx - 1].processed
  {
    hide Config.Sound, OpInv, LastProcessed;
    var j :| 0 <= j < |run| && run[j] == Mark(c, idx);
    var before := Run(cfg, s, run[..j]);
    var after := Step(cfg, before, run[j]);
    RunKeepsInv(cfg, s, run[..j]);
    RunGrows(cfg, s, run[..j]);
    SplitAt(cfg, s, run, j);
    MarkedAfter(cfg, before, idx, c);
    RunGrows(cfg, after, run[j + 1..]);
    assert OpGrows(after[idx - 1], Run(cfg, s, run)[idx - 1]);
  }

  /** While an operation is pending, whoever has processed the previous one has its turn. */
  lemma PendingKeepsTurn(cfg: Config, s: State, idx: int, c: int)
    requires Inv(cfg, s) && 1 <= idx <= |s| && s[idx - 1].status == Pending
    requires idx > 1 ==> c in s[idx - 2].processed
    ensures HasTurn(s, c, idx)
  {
    assert idx == |s|;
    assert OpInv(cfg, s[idx - 1]);
    LastProcessedIs(s, c, idx - 1);
  }

  lemma TurnIsThere(cfg: Config, s: State, run: seq<Action>, idx: int, c: int)
    requires cfg.Sound() && Inv(cfg, s) && 1 <= idx <= |s| && c in cfg.Cosigners()
    requires HasTurn(s, c, idx) || Mark(c, idx - 1) in run
    ensures |Run(cfg, s, run)| >= |s|
    ensures idx > 1 ==> c in Run(cfg, s, run)[idx - 2].processed
  {
    hide Config.Sound, Inv;
    RunGrows(cfg, s, run);
    if idx > 1 && HasTurn(s, c, idx) {
      assert OpGrows(s[idx - 2], Run(cfg, s, run)[idx - 2]);
    } else if idx > 1 {
      MarkTakes(cfg, s, run, idx - 1, c);
    }
  }

  /** A say counts: if the operation is still pending after the run, the vote is in. */
  lemma SayCounts(cfg: Config, s: State, run: seq<Action>, idx: int, c: int, ack: bool, k: int)
    requires cfg.Sound() && Inv(cfg, s) && 1 <= idx <= |s| && c in cfg.Cosigners()
    requires SpeaksAt(s, run, idx, c, ack, k)
    requires |Run(cfg, s, run)| >= |s| && Run(cfg, s, run)[idx - 1].status == Pending
    ensures c in Run(cfg, s, run)[idx - 1].votes
  {
    hide Config.Sound, Inv, LastProcessed;
    var before := Run(cfg, s, run[..k]);
    var after := Step(cfg, before, run[k]);
    RunKeepsInv(cfg, s, run[..k]);
    TurnIsThere(cfg, s, run[..k], idx, c);
    SplitAt(cfg, s, run, k);
    StepGrows(cfg, before, run[k]);
    RunGrows(cfg, after, run[k + 1..]);
    assert OpGrows(before[idx - 1], after[idx - 1]) && OpGrows(after[idx - 1], Run(cfg, s, run)[idx - 1]);
    PendingKeepsTurn(cfg, before, idx, c);
  }

  lemma EveryoneVoted(cfg: Config, s: State, run: seq<Action>, idx: int, intent: map<int, bool>)
    requires cfg.Sound() && Inv(cfg, s) && 1 <= idx <= |s|
    requires forall c | c in cfg.Cosigners() :: HasItsSay(s, run, idx, c, intent)
    ensures |Run(cfg, s, run)| >= |s|
    ensures Run(cfg, s, run)[idx - 1].status == Pending ==>
              forall c | c in cfg.Cosigners() :: c in Run(cfg, s, run)[idx - 1].votes
  {
    hide Config.Sound, Inv;
    RunGrows(cfg, s, run);
    var op := Run(cfg, s, run)[idx - 1];
    if op.status == Pending {
      forall c | c in cfg.Cosigners() ensures c in op.votes {
        if c in s[idx - 1].votes {
          assert OpGrows(s[idx - 1], op);
        } else {
          assert HasItsSay(s, run, idx, c, intent);
          var k :| SpeaksAt(s, run, idx, c, intent[c], k);
          SayCounts(cfg, s, run, idx, c, intent[c], k);
        }
      }
    }
  }

  /** Give every cosigner its say, in any order, with repetitions, with marks and any other
      requests in between, and with late responses being rejected: the operation ends
      decided, and by the intended tally alone. */
  lemma OrderDoesNotMatter(cfg: Config, s: State, run: seq<Action>, idx: int, intent: map<int, bool>)
    requires cfg.Sound() && Inv(cfg, s) && 1 <= idx <= |s|
    requires cfg.Threshold(s[idx - 1].opType).Some?
    requires intent.Keys == cfg.Cosigners()
    requires Follows(run, idx, intent) && Agrees(s[idx - 1].votes, intent)
    requires forall c | c in cfg.Cosigners() :: HasItsSay(s, run, idx, c, intent)
    ensures |Run(cfg, s, run)| >= |s|
    ensures Run(cfg, s, run)[idx - 1].status
         == if |Acks(intent)| >= cfg.Threshold(s[idx - 1].opType).value then Approved else Discarded
  {
    hide HasItsSay, Follows, Agrees;
    DecisionFollowsIntent(cfg, s, run, idx, intent);
    EveryoneVoted(cfg, s, run, idx, intent);
    RunKeepsInv(cfg, s, run);
    var op := Run(cfg, s, run)[idx - 1];
    assert OpInv(cfg, op);
    if op.status == Pending {
      PendingMissesAVote(cfg, op);
    }
  }
}
