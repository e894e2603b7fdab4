/** The order in which cosigners process operations. The hub's documentation asks for
    processing in order; the hub does not enforce it, and here is exactly when it holds. */
module Processing {
  import opened HubTypes
  import opened Approval
  import opened Progress

  /** In every reachable log: an initiator has processed everything before its operation,
      and a voter has processed the operation before the one it voted on. */
  lemma WhoHasProcessedWhat(cfg: Config, s: State, i: nat, j: nat, c: int)
    requires Inv(cfg, s) && j < i < |s|
    ensures s[i].initiator in cfg.Cosigners() && s[i].initiator in s[j].processed
    ensures c in s[i].votes ==> c in s[i - 1].processed
  {
    assert OpInv(cfg, s[i]);
  }

  /** The operations the cosigner has processed come before all the others. */
  ghost predicate InOrder(s: State, c: int) {
    forall j, i | 0 <= j < i < |s| && c in s[i].processed :: c in s[j].processed
  }

  /** In order, the last processed number the hub reports tells all that was processed. */
  lemma InOrderMeansLastTellsAll(s: State, c: int)
    ensures InOrder(s, c) <==> forall i | 0 <= i < |s| :: c in s[i].processed <==> i < LastProcessed(s, c)
  {
  }

  /** A mark the hub accepts keeps the cosigner in order iff it is for the operation after
      the last processed one, a condition the hub does not check. */
  lemma MarkInTurnIff(cfg: Config, s: State, c: int, idx: int)
    requires InOrder(s, c) && Enabled(cfg, s, Mark(c, idx))
    ensures InOrder(Apply(cfg, s, Mark(c, idx)), c) <==> idx == LastProcessed(s, c) + 1
  {
    var t, last := Apply(cfg, s, Mark(c, idx)), LastProcessed(s, c);
    InOrderMeansLastTellsAll(s, c);
    if idx != last + 1 {
      assert last < idx - 1;
      assert c in t[idx - 1].processed && c !in t[last].processed;
    }
  }

  lemma OthersKeepOrder(cfg: Config, s: State, a: Action, c: int)
    requires InOrder(s, c) && !(a.Mark? && a.c == c && Enabled(cfg, s, a))
    ensures InOrder(Step(cfg, s, a), c)
  {
  }

  /** Every accepted mark of the cosigner is for the operation after its last one. */
  predicate MarksInTurn(cfg: Config, s: State, run: seq<Action>, c: int)
    decreases |run|
  {
    run == [] ||
    (&& (run[0].Mark? && run[0].c == c && Enabled(cfg, s, run[0]) ==> run[0].idx == LastProcessed(s, c) + 1)
     && MarksInTurn(cfg, Step(cfg, s, run[0]), run[1..], c))
  }

  /** The cosigner is in order in every state of the run. */
  ghost predicate StaysInOrder(cfg: Config, s: State, run: seq<Action>, c: int)
    decreases |run|
  {
    InOrder(s, c) && (run == [] || StaysInOrder(cfg, Step(cfg, s, run[0]), run[1..], c))
  }

  /** Over any run, whatever the other cosigners do, a cosigner processes in order iff it
      marks in turn. */
  lemma {:induction false} InOrderIffMarksInTurn(cfg: Config, s: State, run: seq<Action>, c: int)
    requires InOrder(s, c)
    ensures StaysInOrder(cfg, s, run, c) <==> MarksInTurn(cfg, s, run, c)
    decreases |run|
  {
    if run != [] {
      var a, next := run[0], Step(cfg, s, run[0]);
      if a.Mark? && a.c == c && Enabled(cfg, s, a) {
        MarkInTurnIff(cfg, s, c, a.idx);
      } else {
        OthersKeepOrder(cfg, s, a, c);
      }
      if InOrder(next, c) {
        InOrderIffMarksInTurn(cfg, next, run[1..], c);
      } else {
        assert !StaysInOrder(cfg, next, run[1..], c);
      }
    }
  }

  /** One cosigner posts three operations and processes the first two in turn; another
      processes the second without the first, and votes on the third. */
  function SkippingRun(a: int, b: int): seq<Action> {
    [Post(a, Issuance, None), Mark(a, 1), Post(a, Issuance, None), Mark(a, 2), Mark(b, 2),
     Post(a, CreateUtxos, None), Respond(b, 3, true)]
  }

  function SkippingLog(cfg: Config, a: int, b: int): State {
    var third := Op(CreateUtxos, Pending, a, None, map[], {});
    [Issued(a, {a}), Issued(a, {a, b}), Voted(cfg, third, b, true)]
  }

  /** The log while the run goes on. */
  function Issued(a: int, processed: set<int>): Op {
    Op(Issuance, Approved, a, None, map[], processed)
  }

  lemma FirstHalf(cfg: Config, a: int)
    requires a in cfg.Cosigners()
    ensures AllSucceed(cfg, [], [Post(a, Issuance, None), Mark(a, 1), Post(a, Issuance, None), Mark(a, 2)])
    ensures Run(cfg, [], [Post(a, Issuance, None), Mark(a, 1), Post(a, Issuance, None), Mark(a, 2)])
         == [Issued(a, {a}), Issued(a, {a})]
  {
    assert {} + {a} == {a};
    var done := [Issued(a, {a})];
    ThenOne(cfg, done + [Issued(a, {})], Mark(a, 2), done + done);
    ThenMore(cfg, done, Post(a, Issuance, None), [Mark(a, 2)], done + [Issued(a, {})], done + done);
    ThenMore(cfg, [Issued(a, {})], Mark(a, 1), [Post(a, Issuance, None), Mark(a, 2)], done, done + done);
    ThenMore(cfg, [], Post(a, Issuance, None), [Mark(a, 1), Post(a, Issuance, None), Mark(a, 2)],
             [Issued(a, {})], done + done);
  }

  lemma SecondHalf(cfg: Config, a: int, b: int)
    requires a in cfg.Cosigners() && b in cfg.Cosigners() && a != b
    ensures AllSucceed(cfg, [Issued(a, {a}), Issued(a, {a})],
                       [Mark(b, 2), Post(a, CreateUtxos, None), Respond(b, 3, true)])
    ensures Run(cfg, [Issued(a, {a}), Issued(a, {a})], [Mark(b, 2), Post(a, CreateUtxos, None), Respond(b, 3, true)])
         == SkippingLog(cfg, a, b)
  {
    assert {a} + {b} == {a, b};
    var done := [Issued(a, {a}), Issued(a, {a, b})];
    var posted := done + [Op(CreateUtxos, Pending, a, None, map[], {})];
    LastProcessedIs(posted, b, 2);
    ThenOne(cfg, posted, Respond(b, 3, true), SkippingLog(cfg, a, b));
    ThenMore(cfg, done, Post(a, CreateUtxos, None), [Respond(b, 3, true)], posted, SkippingLog(cfg, a, b));
    ThenMore(cfg, [Issued(a, {a}), Issued(a, {a})], Mark(b, 2), [Post(a, CreateUtxos, None), Respond(b, 3, true)],
             done, SkippingLog(cfg, a, b));
  }

  lemma ThenOne(cfg: Config, s: State, a: Action, end: State)
    requires Enabled(cfg, s, a) && Apply(cfg, s, a) == end
    ensures AllSucceed(cfg, s, [a]) && Run(cfg, s, [a]) == end
  {
    assert [a][1..] == [];
    assert AllSucceed(cfg, end, []) && Run(cfg, end, []) == end;
  }

  lemma ThenMore(cfg: Config, s: State, a: Action, rest: seq<Action>, next: State, end: State)
    requires Enabled(cfg, s, a) && Apply(cfg, s, a) == next
    requires AllSucceed(cfg, next, rest) && Run(cfg, next, rest) == end
    ensures AllSucceed(cfg, s, [a] + rest) && Run(cfg, s, [a] + rest) == end
  {
    assert ([a] + rest)[1..] == rest;
  }

  /** So processing in order is not guaranteed: with any two cosigners this run succeeds in
      full, from the empty log, and the second one is out of order when it votes. */
  lemma SkippingIsAccepted(cfg: Config, a: int, b: int)
    requires a in cfg.Cosigners() && b in cfg.Cosigners() && a != b
    ensures AllSucceed(cfg, [], SkippingRun(a, b))
    ensures Run(cfg, [], SkippingRun(a, b)) == SkippingLog(cfg, a, b)
    ensures !InOrder(SkippingLog(cfg, a, b), b) && b in SkippingLog(cfg, a, b)[2].votes
  {
    FirstHalf(cfg, a);
    SecondHalf(cfg, a, b);
    var first := [Post(a, Issuance, None), Mark(a, 1), Post(a, Issuance, None), Mark(a, 2)];
    var second := [Mark(b, 2), Post(a, CreateUtxos, None), Respond(b, 3, true)];
    assert first + second == SkippingRun(a, b);
    assert b in SkippingLog(cfg, a, b)[1].processed && b !in SkippingLog(cfg, a, b)[0].processed;
    RunAppend(cfg, [], first, second);
    AllSucceedAppend(cfg, [], first, second);
  }
}
