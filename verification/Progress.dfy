/** The hub never gets stuck: from every reachable log any cosigner can get to post. */
module Progress {
  import opened HubTypes
  import opened Approval
  import opened History
  import Decisions

  predicate AllSucceed(cfg: Config, s: State, run: seq<Action>)
    decreases |run|
  {
    run == [] || (Enabled(cfg, s, run[0]) && AllSucceed(cfg, Step(cfg, s, run[0]), run[1..]))
  }

  lemma {:induction false} AllSucceedAppend(cfg: Config, s: State, run: seq<Action>, more: seq<Action>)
    requires AllSucceed(cfg, s, run) && AllSucceed(cfg, Run(cfg, s, run), more)
    ensures AllSucceed(cfg, s, run + more)
    decreases |run|
  {
    if run == [] {
      assert run + more == more;
    } else {
      assert (run + more)[1..] == run[1..] + more;
      AllSucceedAppend(cfg, Step(cfg, s, run[0]), run[1..], more);
    }
  }

  ghost predicate NewestPending(s: State) {
    s != [] && s[|s| - 1].status == Pending
  }

  /** What a cosigner that has not voted on the pending operation has to do to vote. */
  function VoteRun(s: State, c: int, ack: bool): seq<Action> {
    if LastProcessed(s, c) + 1 == |s| then [Respond(c, |s|, ack)]
    else [Mark(c, |s| - 1), Respond(c, |s|, ack)]
  }

  lemma ReadyVote(cfg: Config, s: State, c: int, ack: bool)
    requires NewestPending(s) && c in cfg.Cosigners() && c !in s[|s| - 1].votes
    requires LastProcessed(s, c) + 1 == |s|
    ensures Enabled(cfg, s, Respond(c, |s|, ack))
    ensures AllSucceed(cfg, s, [Respond(c, |s|, ack)])
    ensures Run(cfg, s, [Respond(c, |s|, ack)]) == Apply(cfg, s, Respond(c, |s|, ack))
    ensures c in Apply(cfg, s, Respond(c, |s|, ack))[|s| - 1].votes
  {
    var run := [Respond(c, |s|, ack)];
    assert Enabled(cfg, s, run[0]);
    assert run[1..] == [];
    assert Run(cfg, Step(cfg, s, run[0]), []) == Step(cfg, s, run[0]);
  }

  lemma MarkMakesReady(cfg: Config, s: State, c: int)
    requires cfg.Sound() && Inv(cfg, s) && NewestPending(s) && c in cfg.Cosigners()
    requires LastProcessed(s, c) + 1 != |s|
    ensures |s| >= 2 && Enabled(cfg, s, Mark(c, |s| - 1))
    ensures LastProcessed(Apply(cfg, s, Mark(c, |s| - 1)), c) + 1 == |s|
  {
    assert OpInv(cfg, s[|s| - 1]);
    assert LastProcessed(s, c) < |s|;
    LastProcessedIs(Apply(cfg, s, Mark(c, |s| - 1)), c, |s| - 1);
  }

  /** Every non-voter on the pending operation can vote at once, or after a single mark
      of the operation before it. */
  lemma NonVoterCanVote(cfg: Config, s: State, c: int, ack: bool)
    requires cfg.Sound() && Inv(cfg, s) && NewestPending(s)
    requires c in cfg.Cosigners() && c !in s[|s| - 1].votes
    ensures AllSucceed(cfg, s, VoteRun(s, c, ack)) && |VoteRun(s, c, ack)| <= 2
    ensures |Run(cfg, s, VoteRun(s, c, ack))| == |s|
    ensures c in Run(cfg, s, VoteRun(s, c, ack))[|s| - 1].votes
  {
    hide Inv, Config.Sound, LastProcessed, Tallied;
    if LastProcessed(s, c) + 1 == |s| {
      ReadyVote(cfg, s, c, ack);
    } else {
      MarkMakesReady(cfg, s, c);
      MarkThenVote(cfg, s, c, ack);
    }
  }

  lemma MarkThenVote(cfg: Config, s: State, c: int, ack: bool)
    requires NewestPending(s) && c in cfg.Cosigners() && c !in s[|s| - 1].votes
    requires |s| >= 2 && Enabled(cfg, s, Mark(c, |s| - 1))
    requires LastProcessed(Apply(cfg, s, Mark(c, |s| - 1)), c) + 1 == |s|
    ensures var run := [Mark(c, |s| - 1), Respond(c, |s|, ack)];
            && AllSucceed(cfg, s, run)
            && |Run(cfg, s, run)| == |s| && c in Run(cfg, s, run)[|s| - 1].votes
  {
    hide LastProcessed, Tallied, Voted;
    var run := [Mark(c, |s| - 1), Respond(c, |s|, ack)];
    var ready := Apply(cfg, s, run[0]);
    ReadyVote(cfg, ready, c, ack);
    assert run[1..] == [Respond(c, |ready|, ack)];
  }

  lemma InitiatorIsReady(cfg: Config, s: State)
    requires Inv(cfg, s) && NewestPending(s)
    ensures s[|s| - 1].initiator in cfg.Cosigners()
    ensures LastProcessed(s, s[|s| - 1].initiator) == |s| - 1
  {
    hide Tallied;
    assert OpInv(cfg, s[|s| - 1]);
    LastProcessedIs(s, s[|s| - 1].initiator, |s| - 1);
  }

  /** The initiator of the pending operation has voted already or can vote at once. */
  lemma InitiatorCanVoteAtOnce(cfg: Config, s: State, ack: bool)
    requires cfg.Sound() && Inv(cfg, s) && NewestPending(s)
    requires s[|s| - 1].initiator !in s[|s| - 1].votes
    ensures Enabled(cfg, s, Respond(s[|s| - 1].initiator, |s|, ack))
  {
    hide Config.Sound, Tallied, Inv, OpInv;
    InitiatorIsReady(cfg, s);
  }

  function NonVoters(cfg: Config, s: State): set<int>
    requires s != []
  {
    cfg.Cosigners() - s[|s| - 1].votes.Keys
  }

  /** One more vote on the pending operation, in at most two steps. */
  lemma OneLessMissing(cfg: Config, s: State) returns (run: seq<Action>)
    requires cfg.Sound() && Inv(cfg, s) && NewestPending(s)
    ensures AllSucceed(cfg, s, run) && |run| <= 2
    ensures Inv(cfg, Run(cfg, s, run)) && |Run(cfg, s, run)| == |s|
    ensures |NonVoters(cfg, Run(cfg, s, run))| < |NonVoters(cfg, s)|
  {
    assert OpInv(cfg, s[|s| - 1]);
    Decisions.PendingMissesAVote(cfg, s[|s| - 1]);
    var c :| c in cfg.Cosigners() && c !in s[|s| - 1].votes;
    run := VoteRun(s, c, true);
    NonVoterCanVote(cfg, s, c, true);
    RunKeepsInv(cfg, s, run);
    RunGrows(cfg, s, run);
    FewerNonVoters(cfg, s, Run(cfg, s, run), c);
  }

  lemma FewerMissing(all: set<int>, before: map<int, bool>, after: map<int, bool>, c: int)
    requires (forall d | d in before :: d in after) && c in all && c !in before && c in after
    ensures |all - after.Keys| < |all - before.Keys|
  {
    assert forall d | d in all - after.Keys :: d in all - before.Keys - {c};
    SubsetSize(all - after.Keys, all - before.Keys - {c});
  }

  lemma FewerNonVoters(cfg: Config, s: State, next: State, c: int)
    requires s != [] && |next| == |s| && Grows(s, next)
    requires c in NonVoters(cfg, s) && c in next[|s| - 1].votes
    ensures |NonVoters(cfg, next)| < |NonVoters(cfg, s)|
  {
    var before, after := s[|s| - 1], next[|s| - 1];
    assert OpGrows(before, after);
    FewerMissing(cfg.Cosigners(), before.votes, after.votes, c);
  }

  lemma NoneElsePending(cfg: Config, s: State)
    requires Inv(cfg, s) && (s == [] || s[|s| - 1].status != Pending)
    ensures !HasPending(s)
  {
  }

  /** At most two steps per missing vote settle the pending operation. */
  lemma {:induction false} Settle(cfg: Config, s: State) returns (run: seq<Action>)
    requires cfg.Sound() && Inv(cfg, s) && s != []
    ensures AllSucceed(cfg, s, run) && |run| <= 2 * |NonVoters(cfg, s)|
    ensures |Run(cfg, s, run)| == |s| && !HasPending(Run(cfg, s, run))
    decreases |NonVoters(cfg, s)|
  {
    if s[|s| - 1].status != Pending {
      run := [];
      NoneElsePending(cfg, s);
    } else {
      var first := OneLessMissing(cfg, s);
      var next := Run(cfg, s, first);
      var rest := Settle(cfg, next);
      RunAppend(cfg, s, first, rest);
      AllSucceedAppend(cfg, s, first, rest);
      run := first + rest;
    }
  }

  /** With nothing pending, a cosigner catches up in at most one mark per operation. */
  lemma {:induction false} CatchUp(cfg: Config, s: State, c: int, from: nat) returns (run: seq<Action>)
    requires c in cfg.Cosigners() && !HasPending(s) && from <= |s|
    requires forall i | 0 <= i < from :: c in s[i].processed
    ensures AllSucceed(cfg, s, run) && |run| <= |s| - from
    ensures |Run(cfg, s, run)| == |s| && !HasPending(Run(cfg, s, run))
    ensures !HasUnprocessed(Run(cfg, s, run), c)
    decreases |s| - from
  {
    if from == |s| {
      run := [];
    } else if c in s[from].processed {
      run := CatchUp(cfg, s, c, from + 1);
    } else {
      var first := [Mark(c, from + 1)];
      var next := Step(cfg, s, first[0]);
      assert Run(cfg, s, first) == next;
      var rest := CatchUp(cfg, next, c, from + 1);
      RunAppend(cfg, s, first, rest);
      AllSucceedAppend(cfg, s, first, rest);
      run := first + rest;
    }
  }

  lemma {:induction false} PostWhenReady(cfg: Config, s: State, a: Action)
    requires a.Post? && Enabled(cfg, s, a)
    ensures AllSucceed(cfg, s, [a]) && |Run(cfg, s, [a])| == |s| + 1
  {
    assert [a][1..] == [];
    assert Run(cfg, Step(cfg, s, a), []) == Step(cfg, s, a);
  }

  lemma SettleThenCatchUp(cfg: Config, s: State, c: int) returns (run: seq<Action>)
    requires cfg.Sound() && Inv(cfg, s) && c in cfg.Cosigners()
    ensures AllSucceed(cfg, s, run) && |run| <= 2 * |cfg.Cosigners()| + |s|
    ensures |Run(cfg, s, run)| == |s|
    ensures !HasPending(Run(cfg, s, run)) && !HasUnprocessed(Run(cfg, s, run), c)
  {
    var settle: seq<Action> := [];
    if s != [] {
      settle := Settle(cfg, s);
      SubsetSize(NonVoters(cfg, s), cfg.Cosigners());
    }
    var calm := Run(cfg, s, settle);
    var catchUp := CatchUp(cfg, calm, c, 0);
    AllSucceedAppend(cfg, s, settle, catchUp);
    RunAppend(cfg, s, settle, catchUp);
    run := settle + catchUp;
  }

  /** From every reachable log of k operations, for every cosigner and every valid
      proposal, there is a run of at most 2n + k + 1 steps, all of which succeed, that ends
      in that cosigner posting it. */
  lemma AnyoneCanPost(cfg: Config, s: State, c: int, opType: OperationType, seed: Option<Bytes>)
    returns (run: seq<Action>)
    requires cfg.Sound() && Inv(cfg, s) && c in cfg.Cosigners() && SeedFits(opType, seed)
    ensures AllSucceed(cfg, s, run)
    ensures 1 <= |run| <= 2 * |cfg.Cosigners()| + |s| + 1
    ensures run[|run| - 1] == Post(c, opType, seed)
    ensures |Run(cfg, s, run)| == |s| + 1
  {
    var prepare := SettleThenCatchUp(cfg, s, c);
    var post := Post(c, opType, seed);
    PostWhenReady(cfg, Run(cfg, s, prepare), post);
    AllSucceedAppend(cfg, s, prepare, [post]);
    RunAppend(cfg, s, prepare, [post]);
    run := prepare + [post];
  }
}
