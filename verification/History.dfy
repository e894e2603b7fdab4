/** What no run can undo: operations keep their identity, votes and processed marks only
    accumulate, and a decided operation is frozen. */
module History {
  import opened HubTypes
  import opened Approval

  ghost predicate OpGrows(before: Op, after: Op) {
    && after.opType == before.opType
    && after.initiator == before.initiator
    && after.seed == before.seed
    && (forall c | c in before.votes :: c in after.votes && after.votes[c] == before.votes[c])
    && before.processed <= after.processed
    && (before.status != Pending ==> after.status == before.status && after.votes == before.votes)
  }

  ghost predicate Grows(before: State, after: State) {
    && |before| <= |after|
    && forall i | 0 <= i < |before| :: OpGrows(before[i], after[i])
  }

  lemma GrowsTransitive(a: State, b: State, c: State)
    requires Grows(a, b) && Grows(b, c)
    ensures Grows(a, c)
  {
    forall i | 0 <= i < |a| ensures OpGrows(a[i], c[i]) {
      assert OpGrows(a[i], b[i]) && OpGrows(b[i], c[i]);
    }
  }

  lemma StepGrows(cfg: Config, s: State, a: Action)
    ensures Grows(s, Step(cfg, s, a))
  {
  }

  /** Over any run, identities never change, decisions are absorbing, and each vote and
      each mark is written at most once. */
  lemma {:induction false} RunGrows(cfg: Config, s: State, run: seq<Action>)
    ensures Grows(s, Run(cfg, s, run))
    decreases |run|
  {
    if run != [] {
      StepGrows(cfg, s, run[0]);
      RunGrows(cfg, Step(cfg, s, run[0]), run[1..]);
      GrowsTransitive(s, Step(cfg, s, run[0]), Run(cfg, s, run));
    }
  }

  // ----- a measure that bounds the successful votes and marks -----

  function Weight(op: Op): nat {
    |op.votes| + |op.processed|
  }

  function TotalWeight(s: State): nat {
    if s == [] then 0 else TotalWeight(s[..|s| - 1]) + Weight(s[|s| - 1])
  }

  lemma {:induction false} TotalWeightUpdate(s: State, i: nat, op: Op)
    requires i < |s|
    ensures TotalWeight(s[i := op]) == TotalWeight(s) - Weight(s[i]) + Weight(op)
    decreases |s|
  {
    var shorter := s[..|s| - 1];
    if i == |s| - 1 {
      assert s[i := op][..|s| - 1] == shorter;
    } else {
      assert s[i := op][..|s| - 1] == shorter[i := op];
      TotalWeightUpdate(shorter, i, op);
    }
  }

  lemma SubsetSize(a: set<int>, b: set<int>)
    requires a <= b
    ensures |a| <= |b|
  {
    assert b == a + (b - a);
  }

  lemma WeightBound(cfg: Config, op: Op)
    requires OpInv(cfg, op)
    ensures Weight(op) <= 2 * |cfg.Cosigners()|
  {
    SubsetSize(op.votes.Keys, cfg.Cosigners());
    SubsetSize(op.processed, cfg.Cosigners());
    assert |op.votes| == |op.votes.Keys|;
  }

  lemma OneMore(n: int, k: int)
    ensures n * k == n * (k - 1) + n
  {
  }

  lemma {:induction false} TotalWeightBound(cfg: Config, s: State)
    requires forall i | 0 <= i < |s| :: OpInv(cfg, s[i])
    ensures TotalWeight(s) <= 2 * |cfg.Cosigners()| * |s|
    decreases |s|
  {
    if s != [] {
      TotalWeightBound(cfg, s[..|s| - 1]);
      WeightBound(cfg, s[|s| - 1]);
      OneMore(2 * |cfg.Cosigners()|, |s|);
    }
  }

  /** How many actions of a run succeed: posts, and votes plus marks. */
  function Posted(cfg: Config, s: State, run: seq<Action>): nat
    decreases |run|
  {
    if run == [] then 0
    else (if run[0].Post? && Enabled(cfg, s, run[0]) then 1 else 0)
         + Posted(cfg, Step(cfg, s, run[0]), run[1..])
  }

  function VotedOrMarked(cfg: Config, s: State, run: seq<Action>): nat
    decreases |run|
  {
    if run == [] then 0
    else (if !run[0].Post? && Enabled(cfg, s, run[0]) then 1 else 0)
         + VotedOrMarked(cfg, Step(cfg, s, run[0]), run[1..])
  }

  lemma VotedWeight(cfg: Config, op: Op, c: int, ack: bool)
    requires c !in op.votes
    ensures Weight(Voted(cfg, op, c, ack)) == Weight(op) + 1
  {
    var votes := op.votes;
    assert votes[c := ack].Keys == votes.Keys + {c};
    assert |votes[c := ack]| == |votes[c := ack].Keys| && |votes| == |votes.Keys|;
  }

  lemma PostWeight(s: State, op: Op)
    requires op.votes == map[] && op.processed == {}
    ensures TotalWeight(s + [op]) == TotalWeight(s)
  {
    assert (s + [op])[..|s|] == s;
  }

  lemma StepWeight(cfg: Config, s: State, a: Action)
    ensures TotalWeight(Step(cfg, s, a))
         == TotalWeight(s) + (if !a.Post? && Enabled(cfg, s, a) then 1 else 0)
    ensures |Step(cfg, s, a)| == |s| + (if a.Post? && Enabled(cfg, s, a) then 1 else 0)
  {
    hide Voted, LastProcessed, HasPending, HasUnprocessed, TotalWeight, InitialStatus;
    if Enabled(cfg, s, a) {
      match a
      case Post(c, opType, seed) =>
        PostWeight(s, Op(opType, InitialStatus(opType), c, seed, map[], {}));
      case Respond(c, idx, ack) =>
        VotedWeight(cfg, s[idx - 1], c, ack);
        TotalWeightUpdate(s, idx - 1, Voted(cfg, s[idx - 1], c, ack));
      case Mark(c, idx) =>
        TotalWeightUpdate(s, idx - 1, s[idx - 1].(processed := s[idx - 1].processed + {c}));
    }
  }

  lemma {:induction false} RunWeight(cfg: Config, s: State, run: seq<Action>)
    ensures TotalWeight(Run(cfg, s, run)) == TotalWeight(s) + VotedOrMarked(cfg, s, run)
    ensures |Run(cfg, s, run)| == |s| + Posted(cfg, s, run)
    decreases |run|
  {
    if run != [] {
      StepWeight(cfg, s, run[0]);
      RunWeight(cfg, Step(cfg, s, run[0]), run[1..]);
    }
  }

  /** With k successful posts, at most 2nk votes and marks ever succeed, however many
      requests are sent: between posts the hub always runs out of work. */
  lemma SuccessesAreBounded(cfg: Config, run: seq<Action>)
    requires cfg.Sound()
    ensures VotedOrMarked(cfg, [], run) <= 2 * |cfg.Cosigners()| * Posted(cfg, [], run)
  {
    EmptyLogInv(cfg);
    RunKeepsInv(cfg, [], run);
    RunWeight(cfg, [], run);
    var log := Run(cfg, [], run);
    assert |log| == Posted(cfg, [], run) && TotalWeight(log) == VotedOrMarked(cfg, [], run);
    assert forall i | 0 <= i < |log| :: OpInv(cfg, log[i]);
    hide *;
    TotalWeightBound(cfg, log);
  }
}
