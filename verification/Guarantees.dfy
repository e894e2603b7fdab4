/** The properties of the approval machine, stated of the handlers themselves: of every
    table state that runs of well-formed requests reach. */
module Guarantees {
  import opened HubTypes
  import opened Forms
  import opened Tables
  import opened Requests
  import opened Scans
  import opened Refinement
  import opened Registers
  import A = Approval
  import C = Locking
  import D = Decisions
  import H = History
  import P = Progress
  import O = Processing
  import E = Effects
  import L = Ledger
  import opened FileStore
  import opened Reading

  // ----- decisions -----

  /** In every valid state, the stored status of a voted operation is exact for the stored
      votes. */
  lemma StoredDecisionIsExact(cfg: Config, db: Db, i: nat)
    requires Valid(cfg, db) && i < |db.operations| && cfg.Threshold(db.operations[i].opType).Some?
    ensures D.ExactStatus(cfg, cfg.Threshold(db.operations[i].opType).value, VotesOn(cfg, db.statuses, i + 1),
                          db.operations[i].status)
  {
    hide A.Inv, StatusesOk, Abs, VotesOn, D.ExactStatus, A.OpInv;
    RowSeen(cfg, db, i);
    A.InvAt(cfg, Abs(cfg, db), i);
    VotesSeen(cfg, db, i + 1);
    D.EarlyDecisionIsExact(cfg, Abs(cfg, db)[i]);
  }

  /** Every response the run contains on operation `idx` is the one its cosigner intends. */
  ghost predicate VotesAsIntended(calls: seq<Call>, idx: int, intent: map<int, bool>) {
    forall k | 0 <= k < |calls| && calls[k].RespondToOperation? && calls[k].response.request.Some? ::
      calls[k].response.request.value.operationIdx == idx && calls[k].c in intent ==>
        calls[k].response.request.value.ack == intent[calls[k].c]
  }

  lemma {:induction false} IntendedActions(calls: seq<Call>, idx: int, intent: map<int, bool>)
    requires VotesAsIntended(calls, idx, intent)
    ensures D.Follows(Actions(calls), idx, intent)
    decreases |calls|
  {
    if calls != [] {
      var rest := Actions(calls[1..]);
      assert VotesAsIntended(calls[1..], idx, intent);
      IntendedActions(calls[1..], idx, intent);
      var all := Actions(calls);
      forall k | 0 <= k < |all| && all[k].Respond? && all[k].idx == idx
        ensures all[k].c in intent ==> all[k].ack == intent[all[k].c]
      {
        if ActionOf(calls[0]).Some? {
          if k > 0 { assert all[k] == rest[k - 1]; }
        } else {
          assert all[k] == rest[k];
        }
      }
    }
  }

  /** Fix what each cosigner intends on a voted operation. Whatever the requests and their
      order, if its stored status is decided at the end, it is Approved if the intended
      ACKs reach the threshold and Discarded otherwise. */
  lemma OutcomeFollowsIntent(cfg: Config, db: Db, calls: seq<Call>, i: nat, intent: map<int, bool>)
    requires Valid(cfg, db) && AllWellFormed(cfg, calls)
    requires i < |db.operations| && cfg.Threshold(db.operations[i].opType).Some?
    requires intent.Keys == cfg.Cosigners() && VotesAsIntended(calls, i + 1, intent)
    requires D.Agrees(VotesOn(cfg, db.statuses, i + 1), intent)
    ensures i < |ExecAll(cfg, db, calls).operations|
    ensures var status := ExecAll(cfg, db, calls).operations[i].status;
            || status == Pending
            || status ==
                 if |A.Acks(intent)| >= cfg.Threshold(db.operations[i].opType).value then Approved else Discarded
  {
    hide Shaped, A.Inv, Abs, VotesOn, D.Agrees, D.Follows, VotesAsIntended, ExecAll, WellFormed;
    RunRefines(cfg, db, calls);
    IntendedActions(calls, i + 1, intent);
    OperationsNumbered(cfg, db);
    RowSeen(cfg, db, i);
    VotesSeen(cfg, db, i + 1);
    D.DecisionFollowsIntent(cfg, Abs(cfg, db), Actions(calls), i + 1, intent);
    LogLength(cfg, ExecAll(cfg, db, calls));
    RowSeen(cfg, ExecAll(cfg, db, calls), i);
  }

  lemma OperationsNumbered(cfg: Config, db: Db)
    requires Shaped(cfg, db)
    ensures OperationsOk(db.operations)
  {
  }

  /** At position `k` the cosigner responds as it intends, and the operation was its next one
      from the start, or it has asked before to mark the previous operation. */
  predicate SpeaksUp(db: Db, calls: seq<Call>, idx: int, c: int, ack: bool, k: int) {
    && 0 <= k < |calls| && calls[k].RespondToOperation? && calls[k].c == c
    && calls[k].response.request == Some(Response(idx, ack)) && (ack ==> calls[k].response.psbt.Some?)
    && (|| idx == GetLastProcessedOpIdx(db, c) + 1
        || exists call | call in calls[..k] :: call.MarkOperationProcessed? && call.c == c && call.idx == idx - 1)
  }

  /** The cosigner has voted already, or the run lets it respond as it intends. */
  ghost predicate Heard(db: Db, calls: seq<Call>, idx: int, c: int, intent: map<int, bool>) {
    HasVote(db.statuses, c, idx) || (c in intent && exists k :: SpeaksUp(db, calls, idx, c, intent[c], k))
  }

  lemma {:induction false} ActionOfCall(calls: seq<Call>, call: Call)
    requires call in calls && ActionOf(call).Some?
    ensures ActionOf(call).value in Actions(calls)
    decreases |calls|
  {
    hide ActionOf;
    if call != calls[0] {
      ActionOfCall(calls[1..], call);
    }
  }

  lemma ActionAt(calls: seq<Call>, k: nat)
    requires k < |calls| && ActionOf(calls[k]).Some?
    ensures |Actions(calls[..k])| < |Actions(calls)|
    ensures Actions(calls)[..|Actions(calls[..k])|] == Actions(calls[..k])
    ensures Actions(calls)[|Actions(calls[..k])|] == ActionOf(calls[k]).value
  {
    hide ActionOf;
    assert calls[..k] + calls[k..] == calls;
    ActionsAppend(calls[..k], calls[k..]);
    assert Actions(calls[k..]) == [ActionOf(calls[k]).value] + Actions(calls[k..][1..]);
  }

  lemma SpeaksSeen(cfg: Config, db: Db, calls: seq<Call>, idx: int, c: int, ack: bool, k: int)
    requires Shaped(cfg, db) && c in cfg.Cosigners() && SpeaksUp(db, calls, idx, c, ack, k)
    ensures D.SpeaksAt(Abs(cfg, db), Actions(calls), idx, c, ack, |Actions(calls[..k])|)
  {
    hide Shaped, Abs, GetLastProcessedOpIdx;
    LastProcessedScan(cfg, db, c);
    ActionAt(calls, k);
    if idx != GetLastProcessedOpIdx(db, c) + 1 {
      var call :| call in calls[..k] && call.MarkOperationProcessed? && call.c == c && call.idx == idx - 1;
      ActionOfCall(calls[..k], call);
    }
  }

  lemma HeardSeen(cfg: Config, db: Db, calls: seq<Call>, i: nat, c: int, intent: map<int, bool>)
    requires Shaped(cfg, db) && c in cfg.Cosigners() && i < |db.operations| && Heard(db, calls, i + 1, c, intent)
    ensures i < |Abs(cfg, db)| && D.HasItsSay(Abs(cfg, db), Actions(calls), i + 1, c, intent)
  {
    hide Shaped, Abs, HasVote, SpeaksUp, VotesOn, D.SpeaksAt;
    RowSeen(cfg, db, i);
    VoteSeen(cfg, db, c, i + 1);
    if !HasVote(db.statuses, c, i + 1) {
      var k :| SpeaksUp(db, calls, i + 1, c, intent[c], k);
      SpeaksSeen(cfg, db, calls, i + 1, c, intent[c], k);
    }
  }

  lemma AllHeardSeen(cfg: Config, db: Db, calls: seq<Call>, i: nat, intent: map<int, bool>)
    requires Shaped(cfg, db) && i < |db.operations|
    requires forall c | c in cfg.Cosigners() :: Heard(db, calls, i + 1, c, intent)
    ensures i < |Abs(cfg, db)|
    ensures forall c | c in cfg.Cosigners() :: D.HasItsSay(Abs(cfg, db), Actions(calls), i + 1, c, intent)
  {
    RowSeen(cfg, db, i);
    hide Shaped, Abs, Heard;
    forall c | c in cfg.Cosigners() ensures D.HasItsSay(Abs(cfg, db), Actions(calls), i + 1, c, intent) {
      HeardSeen(cfg, db, calls, i, c, intent);
    }
  }

  /** What order independence says of the log the tables stand for. */
  lemma SaysDecide(cfg: Config, db: Db, calls: seq<Call>, i: nat, intent: map<int, bool>)
    requires Sane(cfg, db)
    requires i < |db.operations| && cfg.Threshold(db.operations[i].opType).Some?
    requires intent.Keys == cfg.Cosigners() && D.Agrees(VotesOn(cfg, db.statuses, i + 1), intent)
    requires VotesAsIntended(calls, i + 1, intent)
    requires forall c | c in cfg.Cosigners() :: Heard(db, calls, i + 1, c, intent)
    ensures var s := A.Run(cfg, Abs(cfg, db), Actions(calls));
            |s| >= |db.operations| && s[i].status ==
              if |A.Acks(intent)| >= cfg.Threshold(db.operations[i].opType).value then Approved else Discarded
  {
    hide A.Inv, StatusesOk, VotesOn, D.Agrees, Heard, VotesAsIntended, Abs, D.Follows, D.HasItsSay;
    IntendedActions(calls, i + 1, intent);
    AllHeardSeen(cfg, db, calls, i, intent);
    RowSeen(cfg, db, i);
    VotesSeen(cfg, db, i + 1);
    D.OrderDoesNotMatter(cfg, Abs(cfg, db), Actions(calls), i + 1, intent);
  }

  /** Give every cosigner its say on an operation, in any order, with repetitions, with marks
      and any other requests in between, and with late responses being refused: the operation
      ends decided, and by the intended tally alone. */
  lemma OrderOfVotesDoesNotMatter(cfg: Config, db: Db, calls: seq<Call>, i: nat, intent: map<int, bool>)
    requires Valid(cfg, db) && AllWellFormed(cfg, calls)
    requires i < |db.operations| && cfg.Threshold(db.operations[i].opType).Some?
    requires intent.Keys == cfg.Cosigners() && D.Agrees(VotesOn(cfg, db.statuses, i + 1), intent)
    requires VotesAsIntended(calls, i + 1, intent)
    requires forall c | c in cfg.Cosigners() :: Heard(db, calls, i + 1, c, intent)
    ensures i < |ExecAll(cfg, db, calls).operations|
    ensures ExecAll(cfg, db, calls).operations[i].status
         == if |A.Acks(intent)| >= cfg.Threshold(db.operations[i].opType).value then Approved else Discarded
  {
    hide Sane, VotesOn, D.Agrees, Heard, VotesAsIntended, ExecAll, WellFormed, Abs;
    RunRefines(cfg, db, calls);
    SaysDecide(cfg, db, calls, i, intent);
    LogLength(cfg, ExecAll(cfg, db, calls));
    RowSeen(cfg, ExecAll(cfg, db, calls), i);
  }

  // ----- processing -----

  lemma MarkSeen(cfg: Config, db: Db, c: int, idx: int)
    requires Shaped(cfg, db) && c in cfg.Cosigners() && 1 <= idx <= |db.operations|
    ensures c in Abs(cfg, db)[idx - 1].processed <==> IsProcessed(db.statuses, c, idx)
  {
    ProcessedIs(cfg, db, c, idx);
  }

  lemma VoteSeen(cfg: Config, db: Db, c: int, idx: int)
    requires Shaped(cfg, db) && c in cfg.Cosigners() && 1 <= idx <= |db.operations|
    ensures c in Abs(cfg, db)[idx - 1].votes <==> HasVote(db.statuses, c, idx)
  {
    EntryOf(cfg, db, c, idx);
  }

  /** In every valid state: the initiator of an operation has processed all the earlier
      ones, and whoever voted on an operation has processed the one before it. */
  lemma ProcessingDiscipline(cfg: Config, db: Db, i: nat, j: nat, c: int)
    requires Valid(cfg, db) && j < i < |db.operations| && c in cfg.Cosigners()
    ensures IsProcessed(db.statuses, db.operations[i].initiatorIdx, j + 1)
    ensures HasVote(db.statuses, c, i + 1) ==> IsProcessed(db.statuses, c, i)
  {
    hide A.Inv, Shaped, Abs, IsProcessed, HasVote;
    RowSeen(cfg, db, i);
    O.WhoHasProcessedWhat(cfg, Abs(cfg, db), i, j, c);
    MarkSeen(cfg, db, db.operations[i].initiatorIdx, j + 1);
    MarkSeen(cfg, db, c, i);
    VoteSeen(cfg, db, c, i + 1);
  }

  /** The operations the rows say a cosigner has processed come before all the others. */
  ghost predicate RowsInOrder(db: Db, c: int) {
    forall p, q | 1 <= p < q <= |db.operations| && IsProcessed(db.statuses, c, q) :: IsProcessed(db.statuses, c, p)
  }

  lemma InOrderSeen(cfg: Config, db: Db, c: int)
    requires Shaped(cfg, db) && c in cfg.Cosigners()
    ensures RowsInOrder(db, c) <==> O.InOrder(Abs(cfg, db), c)
  {
    hide Shaped, Abs, IsProcessed;
    var s := Abs(cfg, db);
    LogLength(cfg, db);
    if RowsInOrder(db, c) {
      forall j, i | 0 <= j < i < |s| && c in s[i].processed ensures c in s[j].processed {
        MarkSeen(cfg, db, c, i + 1);
        MarkSeen(cfg, db, c, j + 1);
      }
    }
    if O.InOrder(s, c) {
      forall p, q | 1 <= p < q <= |db.operations| && IsProcessed(db.statuses, c, q)
        ensures IsProcessed(db.statuses, c, p)
      {
        MarkSeen(cfg, db, c, p);
        MarkSeen(cfg, db, c, q);
        assert c in s[q - 1].processed && c in s[p - 1].processed;
      }
    }
  }

  /** The request is an accepted mark of this cosigner. */
  predicate Marks(cfg: Config, db: Db, call: Call, c: int) {
    call.MarkOperationProcessed? && call.c == c && !Exec(cfg, db, call).1.Refused?
  }

  /** Every accepted mark of the cosigner is for the operation after its last one. */
  predicate MarksInTurn(cfg: Config, db: Db, calls: seq<Call>, c: int)
    decreases |calls|
  {
    calls == [] ||
    (&& (Marks(cfg, db, calls[0], c) ==> calls[0].idx == GetLastProcessedOpIdx(db, c) + 1)
     && MarksInTurn(cfg, Exec(cfg, db, calls[0]).0, calls[1..], c))
  }

  /** The rows show the cosigner in order in every state of the run. */
  ghost predicate RowsStayInOrder(cfg: Config, db: Db, calls: seq<Call>, c: int)
    decreases |calls|
  {
    RowsInOrder(db, c) && (calls == [] || RowsStayInOrder(cfg, Exec(cfg, db, calls[0]).0, calls[1..], c))
  }

  lemma OneInOrder(cfg: Config, db: Db, call: Call, c: int)
    requires Valid(cfg, db) && WellFormed(cfg, call) && c in cfg.Cosigners() && RowsInOrder(db, c)
    ensures RowsInOrder(Exec(cfg, db, call).0, c) <==>
            (Marks(cfg, db, call, c) ==> call.idx == GetLastProcessedOpIdx(db, c) + 1)
  {
    hide Valid, Shaped, Exec, Abs, RowsInOrder, O.InOrder, A.LastProcessed, A.Enabled, GetLastProcessedOpIdx,
         WellFormed;
    var s, after := Abs(cfg, db), Exec(cfg, db, call).0;
    ValidIsSane(cfg, db);
    ExecRefines(cfg, db, call);
    ValidIsSane(cfg, after);
    InOrderSeen(cfg, db, c);
    InOrderSeen(cfg, after, c);
    LastProcessedScan(cfg, db, c);
    var a := ActionOf(call);
    if Marks(cfg, db, call, c) {
      O.MarkInTurnIff(cfg, s, c, call.idx);
    } else if a.Some? {
      O.OthersKeepOrder(cfg, s, a.value, c);
    }
  }

  /** Over any run of requests, whatever the others do, the rows of a cosigner stay in order
      iff each of its accepted marks is for the operation after its last processed one. */
  lemma {:induction false} RowsInOrderIffMarksInTurn(cfg: Config, db: Db, calls: seq<Call>, c: int)
    requires Valid(cfg, db) && AllWellFormed(cfg, calls) && c in cfg.Cosigners() && RowsInOrder(db, c)
    ensures RowsStayInOrder(cfg, db, calls, c) <==> MarksInTurn(cfg, db, calls, c)
    decreases |calls|
  {
    hide Valid, Exec, RowsInOrder, Marks, WellFormed, GetLastProcessedOpIdx;
    if calls != [] {
      var next := Exec(cfg, db, calls[0]).0;
      OneInOrder(cfg, db, calls[0], c);
      ExecRefines(cfg, db, calls[0]);
      if RowsInOrder(next, c) {
        RowsInOrderIffMarksInTurn(cfg, next, calls[1..], c);
      } else {
        assert !RowsStayInOrder(cfg, next, calls[1..], c);
      }
    }
  }

  /** Order is not guaranteed: with any two cosigners there are seven requests from the first
      start on, none refused, after which the second one has processed operation 2 without
      operation 1, and has voted on operation 3. */
  lemma SkippingIsServed(cfg: Config, a: int, b: int) returns (calls: seq<Call>)
    requires cfg.Sound() && ConfigFits(cfg) && a in cfg.Cosigners() && b in cfg.Cosigners() && a != b
    ensures |calls| == 7 && AllWellFormed(cfg, calls) && NoneRefused(Replies(cfg, INITIAL_DB, calls))
    ensures !RowsInOrder(ExecAll(cfg, INITIAL_DB, calls), b)
    ensures HasVote(ExecAll(cfg, INITIAL_DB, calls).statuses, b, 3)
  {
    hide Shaped, A.Inv, Config.Sound, O.InOrder, RowsInOrder, HasVote, ConfigFits;
    var run := O.SkippingRun(a, b);
    var keys := SomeOrder(cfg.Cosigners());
    O.SkippingIsAccepted(cfg, a, b);
    InitialDbValid(cfg);
    assert Abs(cfg, INITIAL_DB) == [];
    calls := AskingAll(run, keys);
    AllAsked(cfg, INITIAL_DB, run, keys);
    NoneIsRefused(cfg, INITIAL_DB, run, keys);
    RunRefines(cfg, INITIAL_DB, calls);
    var after := ExecAll(cfg, INITIAL_DB, calls);
    LogLength(cfg, after);
    InOrderSeen(cfg, after, b);
    VoteSeen(cfg, after, b, 3);
  }

  // ----- progress -----

  /** A request that asks for a given step of the machine. */
  function Asking(a: A.Action, keys: seq<int>): Call {
    match a
    case Post(c, opType, seed) => PostOperation(c, PartsFor(opType, seed), 0, keys)
    case Respond(c, idx, ack) => RespondToOperation(c, RespondForm(Some(Response(idx, ack)), Some([0])), 0)
    case Mark(c, idx) => MarkOperationProcessed(c, idx, 0)
  }

  function AskingAll(run: seq<A.Action>, keys: seq<int>): seq<Call> {
    seq(|run|, i requires 0 <= i < |run| => Asking(run[i], keys))
  }

  ghost predicate NoneRefused(replies: seq<Reply>) {
    forall r | r in replies :: !r.Refused?
  }

  lemma OneAsked(cfg: Config, db: Db, a: A.Action, keys: seq<int>)
    requires Valid(cfg, db) && Enumerates(keys, cfg.Cosigners()) && A.Enabled(cfg, Abs(cfg, db), a)
    ensures WellFormed(cfg, Asking(a, keys))
    ensures var (after, reply) := Exec(cfg, db, Asking(a, keys));
            !reply.Refused? && Valid(cfg, after) && Abs(cfg, after) == A.Step(cfg, Abs(cfg, db), a)
  {
    hide Sane, Exec, ParsePost, PartsFor;
    if a.Post? {
      PartsForParse(a.opType, a.seed);
    }
    assert ActionOf(Asking(a, keys)) == Some(a);
    ExecRefines(cfg, db, Asking(a, keys));
  }

  lemma AskingSplit(run: seq<A.Action>, keys: seq<int>)
    requires run != []
    ensures AskingAll(run, keys) == [Asking(run[0], keys)] + AskingAll(run[1..], keys)
    ensures AskingAll(run, keys)[1..] == AskingAll(run[1..], keys)
  {
  }

  lemma AskedWellFormed(cfg: Config, run: seq<A.Action>, keys: seq<int>)
    requires Enumerates(keys, cfg.Cosigners()) && forall i | 0 <= i < |run| :: run[i].c in cfg.Cosigners()
    ensures AllWellFormed(cfg, AskingAll(run, keys))
  {
  }

  lemma {:induction false} AllSucceedByCosigners(cfg: Config, s: A.State, run: seq<A.Action>)
    requires P.AllSucceed(cfg, s, run)
    ensures forall i | 0 <= i < |run| :: run[i].c in cfg.Cosigners()
    decreases |run|
  {
    if run != [] {
      AllSucceedByCosigners(cfg, A.Step(cfg, s, run[0]), run[1..]);
    }
  }

  lemma {:induction false} NoneIsRefused(cfg: Config, db: Db, run: seq<A.Action>, keys: seq<int>)
    requires Valid(cfg, db) && Enumerates(keys, cfg.Cosigners()) && P.AllSucceed(cfg, Abs(cfg, db), run)
    ensures NoneRefused(Replies(cfg, db, AskingAll(run, keys)))
    ensures Abs(cfg, ExecAll(cfg, db, AskingAll(run, keys))) == A.Run(cfg, Abs(cfg, db), run)
    decreases |run|
  {
    if run != [] {
      var calls, rest := AskingAll(run, keys), AskingAll(run[1..], keys);
      OneAsked(cfg, db, run[0], keys);
      AskingSplit(run, keys);
      var (next, reply) := Exec(cfg, db, calls[0]);
      NoneIsRefused(cfg, next, run[1..], keys);
      assert Replies(cfg, db, calls) == [reply] + Replies(cfg, next, rest);
      assert ExecAll(cfg, db, calls) == ExecAll(cfg, next, rest);
    }
  }

  lemma AllAsked(cfg: Config, db: Db, run: seq<A.Action>, keys: seq<int>)
    requires Valid(cfg, db) && Enumerates(keys, cfg.Cosigners()) && P.AllSucceed(cfg, Abs(cfg, db), run)
    ensures AllWellFormed(cfg, AskingAll(run, keys)) && NoneRefused(Replies(cfg, db, AskingAll(run, keys)))
    ensures |ExecAll(cfg, db, AskingAll(run, keys)).operations| == |A.Run(cfg, Abs(cfg, db), run)|
  {
    AllSucceedByCosigners(cfg, Abs(cfg, db), run);
    AskedWellFormed(cfg, run, keys);
    NoneIsRefused(cfg, db, run, keys);
    LogLength(cfg, ExecAll(cfg, db, AskingAll(run, keys)));
  }

  lemma LogLength(cfg: Config, db: Db)
    ensures |db.operations| == |Abs(cfg, db)|
  {
  }

  /** The hub never gets stuck: from every valid state with k operations and n cosigners,
      every cosigner has a run of at most 2n + k + 1 requests, none refused, that ends in
      its posting a proposal of its choice. */
  lemma AnyoneCanGetToPost(cfg: Config, db: Db, c: int, opType: OperationType, seed: Option<Bytes>)
    returns (calls: seq<Call>)
    requires Valid(cfg, db) && c in cfg.Cosigners() && SeedFits(opType, seed)
    ensures AllWellFormed(cfg, calls) && NoneRefused(Replies(cfg, db, calls))
    ensures 1 <= |calls| <= 2 * |cfg.Cosigners()| + |db.operations| + 1
    ensures EndsInPost(calls, c, opType, seed)
    ensures |ExecAll(cfg, db, calls).operations| == |db.operations| + 1
  {
    var keys := SomeOrder(cfg.Cosigners());
    var run := P.AnyoneCanPost(cfg, Abs(cfg, db), c, opType, seed);
    AllAsked(cfg, db, run, keys);
    LogLength(cfg, db);
    PostAsked(run, keys, c, opType, seed);
    calls := AskingAll(run, keys);
  }

  predicate EndsInPost(calls: seq<Call>, c: int, opType: OperationType, seed: Option<Bytes>) {
    && calls != []
    && var last := calls[|calls| - 1];
       last.PostOperation? && last.c == c && FormOf(last).opType == Some(opType) && FormOf(last).seed == seed
  }

  lemma PostAsked(run: seq<A.Action>, keys: seq<int>, c: int, opType: OperationType, seed: Option<Bytes>)
    requires run != [] && run[|run| - 1] == A.Post(c, opType, seed)
    ensures EndsInPost(AskingAll(run, keys), c, opType, seed)
  {
    hide ParsePost, PartsFor;
    PartsForParse(opType, seed);
  }

  // ----- the work between posts is bounded -----

  function PostedCount(replies: seq<Reply>): nat {
    if replies == [] then 0 else (if replies[0].Posted? then 1 else 0) + PostedCount(replies[1..])
  }

  function VotedOrMarkedCount(replies: seq<Reply>): nat {
    if replies == [] then 0
    else (if replies[0].Responded? || replies[0].Marked? then 1 else 0) + VotedOrMarkedCount(replies[1..])
  }

  /** The kind of a successful reply tells the kind of the call. */
  lemma ReplyKinds(cfg: Config, db: Db, call: Call)
    requires Valid(cfg, db) && WellFormed(cfg, call)
    ensures var reply := Exec(cfg, db, call).1;
            && (reply.Posted? <==> call.PostOperation? && !reply.Refused?)
            && (reply.Responded? || reply.Marked? <==>
                  (call.RespondToOperation? || call.MarkOperationProcessed?) && !reply.Refused?)
  {
    ExecRefines(cfg, db, call);
    match call
    case PostOperation(_, _, _, _) => if AsksFor(cfg, db, call) { PostResult(cfg, db, call); }
    case RespondToOperation(_, _, _) => if AsksFor(cfg, db, call) { var _, _ := RespondResult(cfg, db, call); }
    case MarkOperationProcessed(_, _, _) => if AsksFor(cfg, db, call) { var _ := MarkResult(cfg, db, call); }
    case BumpAddressIndices(_, _) => BumpEffect(cfg, db, call);
    case PutTransferStatus(_, _, _, _) => TransferEffect(cfg, db, call);
  }

  lemma OneCounted(cfg: Config, db: Db, call: Call)
    requires Valid(cfg, db) && WellFormed(cfg, call)
    ensures var (after, reply), a := Exec(cfg, db, call), ActionOf(call);
            && Valid(cfg, after)
            && Abs(cfg, after) == (if a.Some? then A.Step(cfg, Abs(cfg, db), a.value) else Abs(cfg, db))
            && (reply.Posted? <==> a.Some? && a.value.Post? && A.Enabled(cfg, Abs(cfg, db), a.value))
            && (reply.Responded? || reply.Marked? <==>
                  a.Some? && !a.value.Post? && A.Enabled(cfg, Abs(cfg, db), a.value))
  {
    ExecRefines(cfg, db, call);
    ReplyKinds(cfg, db, call);
    if ActionOf(call).None? && !call.BumpAddressIndices? && !call.PutTransferStatus? {
      L.MalformedRefused(cfg, db, call);
    }
  }

  lemma RepliesSplit(cfg: Config, db: Db, calls: seq<Call>)
    requires calls != []
    ensures var (next, reply) := Exec(cfg, db, calls[0]);
            && PostedCount(Replies(cfg, db, calls)) ==
                 (if reply.Posted? then 1 else 0) + PostedCount(Replies(cfg, next, calls[1..]))
            && VotedOrMarkedCount(Replies(cfg, db, calls)) ==
                 (if reply.Responded? || reply.Marked? then 1 else 0)
                 + VotedOrMarkedCount(Replies(cfg, next, calls[1..]))
  {
    var (next, reply) := Exec(cfg, db, calls[0]);
    assert ([reply] + Replies(cfg, next, calls[1..]))[1..] == Replies(cfg, next, calls[1..]);
  }

  lemma ActionsSplit(cfg: Config, s: A.State, calls: seq<Call>)
    requires calls != []
    ensures var a, rest := ActionOf(calls[0]), Actions(calls[1..]);
            var next := if a.Some? then A.Step(cfg, s, a.value) else s;
            var taken := a.Some? && A.Enabled(cfg, s, a.value);
            && H.Posted(cfg, s, Actions(calls)) ==
                 (if taken && a.value.Post? then 1 else 0) + H.Posted(cfg, next, rest)
            && H.VotedOrMarked(cfg, s, Actions(calls)) ==
                 (if taken && !a.value.Post? then 1 else 0) + H.VotedOrMarked(cfg, next, rest)
  {
    var a, rest := ActionOf(calls[0]), Actions(calls[1..]);
    if a.Some? {
      assert ([a.value] + rest)[1..] == rest;
    } else {
      assert [] + rest == rest;
    }
  }

  lemma {:induction false} CountsAgree(cfg: Config, db: Db, calls: seq<Call>)
    requires Valid(cfg, db) && AllWellFormed(cfg, calls)
    ensures PostedCount(Replies(cfg, db, calls)) == H.Posted(cfg, Abs(cfg, db), Actions(calls))
    ensures VotedOrMarkedCount(Replies(cfg, db, calls)) == H.VotedOrMarked(cfg, Abs(cfg, db), Actions(calls))
    decreases |calls|
  {
    hide Shaped, A.Inv;
    if calls != [] {
      OneCounted(cfg, db, calls[0]);
      CountsAgree(cfg, Exec(cfg, db, calls[0]).0, calls[1..]);
      RepliesSplit(cfg, db, calls);
      ActionsSplit(cfg, Abs(cfg, db), calls);
    }
  }

  /** However many requests are sent from the first start on, with k posts accepted at most
      2nk responses and marks are. */
  lemma WorkIsBounded(cfg: Config, calls: seq<Call>)
    requires cfg.Sound() && ConfigFits(cfg) && AllWellFormed(cfg, calls)
    ensures VotedOrMarkedCount(Replies(cfg, INITIAL_DB, calls))
         <= 2 * |cfg.Cosigners()| * PostedCount(Replies(cfg, INITIAL_DB, calls))
  {
    InitialDbValid(cfg);
    assert Abs(cfg, INITIAL_DB) == [];
    CountsAgree(cfg, INITIAL_DB, calls);
    H.SuccessesAreBounded(cfg, Actions(calls));
  }

  // ----- files -----

  lemma StaysListed(db: Db, later: Db, row: OpFile)
    requires row in db.opFiles && db.opFiles <= later.opFiles
    ensures row in GetOpFilesOf(later, row.operationIdx)
  {
    var i :| 0 <= i < |db.opFiles| && db.opFiles[i] == row;
    assert later.opFiles[i] == row;
  }

  /** Every file part of an accepted post stays listed under its operation with the type its
      name stands for, and what is stored under its digest is its content, after any later
      requests: provided no other content has the same digest. */
  lemma UploadsStayAvailable(
    cfg: Config, db: Db, call: Call, later: seq<Call>, files: map<FileId, Bytes>, suffix: string, content: Bytes)
    returns (row: OpFile)
    requires Valid(cfg, db) && WellFormed(cfg, call) && call.PostOperation? && AsksFor(cfg, db, call)
    requires FilePart(suffix, content) in call.parts
    requires AllWellFormed(cfg, later)
    requires Integrity(cfg, files) && Stored(files, ExecAll(cfg, Exec(cfg, db, call).0, later).opFiles)
    requires forall other | cfg.digest(other) == cfg.digest(content) :: other == content
    ensures row in GetOpFilesOf(ExecAll(cfg, Exec(cfg, db, call).0, later), |db.operations| + 1)
    ensures IsNamed(suffix, row.fileType)
    ensures row.fileType == match suffix
                            case "psbt" => OperationPsbt
                            case "operation_data" => OperationData
                            case "fascia" => Fascia
                            case "media" => Media
                            case _ => Consignment
    ensures row.fileId == cfg.digest(content) && row.fileId in files && files[row.fileId] == content
  {
    hide Valid, AsksFor, Exec, ExecAll, WellFormed, GetOpFilesOf, Integrity, Stored, E.FilesRecorded,
         E.OperationRecorded, E.StatusesRecorded;
    var after := Exec(cfg, db, call).0;
    E.PostWrites(cfg, db, call);
    ExecRefines(cfg, db, call);
    L.RunGrows(cfg, after, later);
    var f := E.PartRecorded(cfg, db.opFiles, after.opFiles, |db.operations| + 1, call.parts, suffix, content);
    row := after.opFiles[f];
    StaysListed(after, ExecAll(cfg, after, later), row);
    RowStored(files, ExecAll(cfg, after, later), row);
    StoredIsPosted(cfg, files, content);
  }

  lemma RowStored(files: map<FileId, Bytes>, db: Db, row: OpFile)
    requires Stored(files, db.opFiles) && row in GetOpFilesOf(db, row.operationIdx)
    ensures row.fileId in files
  {
    var i :| 0 <= i < |db.opFiles| && db.opFiles[i] == row;
  }

  /** Behind every ACK there is a stored response PSBT of the same operation. */
  lemma EveryAckHasItsPsbt(cfg: Config, db: Db, files: map<FileId, Bytes>, row: CosignerOpStatus)
    requires Valid(cfg, db) && Stored(files, db.opFiles) && row in db.statuses && row.ack == Some(true)
    ensures row.psbtOpFileIdx.Some? && GetOpFileByIdx(db, row.psbtOpFileIdx.value).Some?
    ensures var psbt := GetOpFileByIdx(db, row.psbtOpFileIdx.value).value;
            psbt.fileType == FileType.ResponsePsbt && psbt.operationIdx == row.operationIdx && psbt.fileId in files
  {
    hide A.Inv, StatusesOk;
    RowInPlace(cfg, db, row);
    OpFileIs(db, row.psbtOpFileIdx.value);
  }

  // ----- reading while others write -----

  /** A reader that takes no lock, in any interleaving: it reads the operation row after one
      run of the system, the cosigners' rows after another, the file rows after a third and
      the files after a fourth. The view succeeds and is true to the votes. */
  lemma ReaderIsNeverAhead(
    cfg: Config, runs: seq<seq<C.Turn>>, states: seq<C.System>, idx: int, viewer: Option<int>)
    requires cfg.Sound() && ConfigFits(cfg) && |runs| == |states| == 4
    requires C.Possible(cfg, C.Idle(INITIAL_DB, map[]), runs[0])
    requires states[0] == C.After(cfg, C.Idle(INITIAL_DB, map[]), runs[0])
    requires forall k | 0 < k < 4 :: C.Possible(cfg, states[k - 1], runs[k])
    requires forall k | 0 < k < 4 :: states[k] == C.After(cfg, states[k - 1], runs[k])
    requires 1 <= idx <= |states[0].db.operations| && (viewer.Some? ==> viewer.value in cfg.Cosigners())
    ensures var view := View(cfg, states[0].db, states[1].db, states[2].db, states[3].files, idx, viewer);
            view.Ok? && view.value.Some? && TrueToTheVotes(cfg, view.value.value, viewer)
  {
    var idle := C.Idle(INITIAL_DB, map[]);
    C.StartsGood(cfg, INITIAL_DB, map[]);
    C.Linearizable(cfg, runs[0]);
    C.RunsAreGood(cfg, INITIAL_DB, idle, runs[0]);
    Onwards(cfg, states[0], runs[1], states[1]);
    Onwards(cfg, states[1], runs[2], states[2]);
    Onwards(cfg, states[2], runs[3], states[3]);
    hide C.Possible, C.After, Valid, L.Reaches, View, TrueToTheVotes, C.Consistent;
    StillStored(states[2].files, states[3].files, states[2].db.opFiles);
    NeverAheadOfTheVotes(cfg, states[0].db, states[1].db, states[2].db, states[3].files, idx, viewer);
  }

  lemma Onwards(cfg: Config, s: C.System, run: seq<C.Turn>, t: C.System)
    requires C.Good(cfg, INITIAL_DB, s) && C.Possible(cfg, s, run) && t == C.After(cfg, s, run)
    ensures C.Good(cfg, INITIAL_DB, t) && L.Reaches(cfg, s.db, t.db) && FilesGrow(s.files, t.files)
  {
    hide C.Good, C.Possible, C.After;
    C.RunsAreGood(cfg, INITIAL_DB, s, run);
    C.CommittedTablesMoveOn(cfg, INITIAL_DB, s, run);
  }
}
