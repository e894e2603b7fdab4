/** Which configurations the handlers can serve: the necessary direction of the bound on the
    number of cosigners, shown by requests the hub receives. */
module Capacity {
  import opened HubTypes
  import opened ByteArithmetic
  import opened Forms
  import opened Tables
  import opened Requests
  import opened Scans
  import opened Refinement
  import opened Registers
  import A = Approval

  // ----- one post, then NACKs of distinct cosigners -----

  function FirstPost(keys: seq<int>, opType: OperationType): Call
    requires keys != []
  {
    PostOperation(keys[0], PartsFor(opType, None), 0, keys)
  }

  function Nack(c: int): Call {
    RespondToOperation(c, RespondForm(Some(Response(1, false)), None), 0)
  }

  function Denied(voters: seq<int>): map<int, bool> {
    map c | c in voters :: false
  }

  /** The log after the post and the NACKs of the first `k` cosigners, none decisive. */
  function LogAfter(keys: seq<int>, opType: OperationType, k: nat): A.State
    requires k <= |keys| && keys != []
  {
    [A.Op(opType, Pending, keys[0], None, Denied(keys[..k]), {})]
  }

  lemma {:induction false} DeniedTally(voters: seq<int>)
    requires forall i, j | 0 <= i < j < |voters| :: voters[i] != voters[j]
    ensures A.Acks(Denied(voters)) == {} && |A.Nacks(Denied(voters))| == |voters|
    decreases |voters|
  {
    if voters != [] {
      var before, last := voters[..|voters| - 1], voters[|voters| - 1];
      DeniedTally(before);
      assert voters == before + [last];
      assert A.Nacks(Denied(voters)) == A.Nacks(Denied(before)) + {last};
    }
  }

  lemma PostStarts(cfg: Config, keys: seq<int>, opType: OperationType)
    requires cfg.Sound() && Enumerates(keys, cfg.Cosigners()) && keys != [] && opType in {SendBtc, Inflation}
    ensures WellFormed(cfg, FirstPost(keys, opType))
    ensures ActionOf(FirstPost(keys, opType)) == Some(A.Post(keys[0], opType, None))
    ensures var after := Exec(cfg, INITIAL_DB, FirstPost(keys, opType)).0;
            Sane(cfg, after) && Abs(cfg, after) == LogAfter(keys, opType, 0)
  {
    hide ParsePost, PartsFor, Shaped, A.Inv, Config.Sound, Exec;
    var call := FirstPost(keys, opType);
    PartsForParse(opType, None);
    InitialDbSane(cfg);
    assert keys[0] in keys;
    assert Abs(cfg, INITIAL_DB) == [];
    ExecRefinesIf(cfg, INITIAL_DB, call);
    assert Denied(keys[..0]) == map[];
  }

  /** The next NACK is one the handler accepts. */
  lemma NextNack(cfg: Config, db: Db, keys: seq<int>, opType: OperationType, k: nat)
    requires Enumerates(keys, cfg.Cosigners()) && k < |keys| && Abs(cfg, db) == LogAfter(keys, opType, k)
    ensures WellFormed(cfg, Nack(keys[k])) && AsksFor(cfg, db, Nack(keys[k]))
    ensures Abs(cfg, db)[0].opType == opType
    ensures MoreVotes(cfg, db, Nack(keys[k])) == Denied(keys[..k + 1])
    ensures A.Acks(Denied(keys[..k + 1])) == {} && |A.Nacks(Denied(keys[..k + 1]))| == k + 1
  {
    hide Abs, Denied;
    A.LastProcessedIs(LogAfter(keys, opType, k), keys[k], 0);
    DeniedNext(keys, k);
    DeniedTally(keys[..k + 1]);
  }

  lemma DeniedNext(keys: seq<int>, k: nat)
    requires k < |keys| && forall i, j | 0 <= i < j < |keys| :: keys[i] != keys[j]
    ensures keys[k] !in Denied(keys[..k]) && Denied(keys[..k + 1]) == Denied(keys[..k])[keys[k] := false]
  {
    assert keys[..k + 1] == keys[..k] + [keys[k]];
  }

  /** A NACK that is counted right and decides nothing takes the log one step on. */
  lemma NackCounted(cfg: Config, db: Db, keys: seq<int>, opType: OperationType, k: nat)
    requires Sane(cfg, db) && cfg.Threshold(opType).Some?
    requires Enumerates(keys, cfg.Cosigners()) && k < |keys| && Abs(cfg, db) == LogAfter(keys, opType, k)
    requires Decides(cfg, opType, Denied(keys[..k + 1]))
    requires A.Decide(|cfg.Cosigners()|, cfg.Threshold(opType).value, 0, k + 1) == Pending
    ensures var after := Exec(cfg, db, Nack(keys[k])).0;
            && Sane(cfg, after) && Abs(cfg, after) == LogAfter(keys, opType, k + 1)
            && Abs(cfg, after) == A.Step(cfg, Abs(cfg, db), A.Respond(keys[k], 1, false))
  {
    var call := Nack(keys[k]);
    NextNack(cfg, db, keys, opType, k);
    assert Counts(cfg, db, call);
    ExecRefinesIf(cfg, db, call);
    hide Sane, Abs, Exec, Decides, Denied;
    DeniedNext(keys, k);
    VotedLog(cfg, keys, opType, k);
  }

  lemma VotedLog(cfg: Config, keys: seq<int>, opType: OperationType, k: nat)
    requires k < |keys| && cfg.Threshold(opType).Some?
    requires Denied(keys[..k + 1]) == Denied(keys[..k])[keys[k] := false]
    requires A.Acks(Denied(keys[..k + 1])) == {} && |A.Nacks(Denied(keys[..k + 1]))| == k + 1
    requires A.Decide(|cfg.Cosigners()|, cfg.Threshold(opType).value, 0, k + 1) == Pending
    ensures A.Voted(cfg, LogAfter(keys, opType, k)[0], keys[k], false) == LogAfter(keys, opType, k + 1)[0]
  {
    hide Denied, A.Acks, A.Nacks, A.Decide;
  }

  // ----- a vote that is counted wrong -----

  /** A vote on which u8 arithmetic does not take the ideal decision makes the handler panic,
      or store another status. */
  lemma VoteGoesWrong(cfg: Config, db: Db, call: Call)
    requires Sane(cfg, db) && WellFormed(cfg, call) && call.RespondToOperation? && AsksFor(cfg, db, call)
    requires !Decides(cfg, Abs(cfg, db)[Subject(call) - 1].opType, MoreVotes(cfg, db, call))
    ensures var (after, reply) := Exec(cfg, db, call);
            reply == Refused(Panic) || Abs(cfg, after) != A.Step(cfg, Abs(cfg, db), ActionOf(call).value)
  {
    hide Sane, Abs, VotesOn, Votable, Decides, Next, Observe;
    var ack, psbt := call.response.request.value.ack, call.response.psbt;
    var op, entry := VotedOn(cfg, db, call);
    VotableRows(cfg, db, op, entry, ack, psbt);
    PendingHasThreshold(cfg, db, op);
    Miscounted(cfg, db, call, op, entry);
    var (after, reply) := Exec(cfg, db, call);
    if reply != Refused(Panic) {
      hide Exec;
      RowSeen(cfg, after, op.idx - 1);
      assert A.Step(cfg, Abs(cfg, db), ActionOf(call).value)[op.idx - 1].status
          == A.Tallied(cfg, cfg.Threshold(op.opType).value, MoreVotes(cfg, db, call));
    }
  }

  lemma PendingHasThreshold(cfg: Config, db: Db, op: Operation)
    requires Sane(cfg, db) && 1 <= op.idx <= |db.operations| && db.operations[op.idx - 1] == op
    requires op.status == Pending
    ensures cfg.Threshold(op.opType).Some?
  {
    hide Shaped, A.Inv, Abs, Config.Sound;
    RowSeen(cfg, db, op.idx - 1);
    A.PendingIsNewest(cfg, Abs(cfg, db), op.idx - 1);
  }

  lemma Miscounted(cfg: Config, db: Db, call: Call, op: Operation, entry: CosignerOpStatus)
    requires WellFormed(cfg, call) && call.RespondToOperation? && AsksFor(cfg, db, call)
    requires op.idx == Subject(call) && cfg.Threshold(op.opType).Some?
    requires Votable(cfg, db, op, entry, call.response.request.value.ack, call.response.psbt)
    requires MoreVotes(cfg, db, call)
          == VotesOn(cfg, db.statuses, op.idx)[entry.cosignerIdx := call.response.request.value.ack]
    requires Next(cfg, call, Observe(db, call)) ==
              Commit(RespondScript(cfg, op, entry, call.response.request.value.ack, call.response.psbt, call.now),
                     Responded(op.idx))
    requires !Decides(cfg, op.opType, MoreVotes(cfg, db, call))
    ensures var (after, reply) := Exec(cfg, db, call);
            || reply == Refused(Panic)
            || (&& 1 <= op.idx <= |after.operations| == |db.operations|
                && after.operations[op.idx - 1].status !=
                     A.Tallied(cfg, cfg.Threshold(op.opType).value, MoreVotes(cfg, db, call)))
  {
    hide Sane, VotesOn, DecideU8, Next, Observe, MoreVotes, A.Tallied, A.Acks, A.Nacks, Settled,
         RespondScript, Shaped, A.Enabled, Abs;
    var ack, psbt := call.response.request.value.ack, call.response.psbt;
    VotableRows(cfg, db, op, entry, ack, psbt);
    VotableNumbers(cfg, db, op, entry, ack, psbt);
    RespondEffect(cfg, db, call, op, entry, ack);
    StagedTally(cfg, db, op, entry, ack, psbt, call.now);
    var more := MoreVotes(cfg, db, call);
    SettledIs(cfg, VotedDb(cfg, db, entry, ack, psbt, call.now), op, |A.Acks(more)|, |A.Nacks(more)|);
  }

  lemma VotableNumbers(
    cfg: Config, db: Db, op: Operation, entry: CosignerOpStatus, ack: bool, psbt: Option<Bytes>)
    requires Votable(cfg, db, op, entry, ack, psbt)
    ensures OperationsOk(db.operations) && FilesNumbered(db) && StatusesNumbered(db)
  {
    hide A.Inv, A.Enabled, StatusesOk, FilesOk;
    NumbersOk(cfg, db);
  }

  // ----- the search for the first miscounted NACK -----

  /** The run goes wrong: a request panics, or the tables no longer stand for the log. */
  ghost predicate GoesWrong(cfg: Config, calls: seq<Call>) {
    || Refused(Panic) in Replies(cfg, INITIAL_DB, calls)
    || Abs(cfg, ExecAll(cfg, INITIAL_DB, calls)) != A.Run(cfg, [], Actions(calls))
  }

  /** The run so far: well formed, as the machine runs it, and at the log after `k` NACKs. */
  ghost predicate SoFar(cfg: Config, calls: seq<Call>, keys: seq<int>, opType: OperationType, k: nat)
    requires k <= |keys| && keys != []
  {
    && AllWellFormed(cfg, calls) && TypesGiven(calls)
    && Sane(cfg, ExecAll(cfg, INITIAL_DB, calls))
    && Abs(cfg, ExecAll(cfg, INITIAL_DB, calls)) == LogAfter(keys, opType, k)
    && Abs(cfg, ExecAll(cfg, INITIAL_DB, calls)) == A.Run(cfg, [], Actions(calls))
  }

  lemma OneMoreAction(cfg: Config, calls: seq<Call>, call: Call)
    requires ActionOf(call).Some?
    ensures A.Run(cfg, [], Actions(calls + [call])) == A.Step(cfg, A.Run(cfg, [], Actions(calls)), ActionOf(call).value)
  {
    var a := ActionOf(call).value;
    ActionsAppend(calls, [call]);
    assert Actions([call]) == [a] by {
      assert [call][1..] == [];
      assert Actions([]) == [];
    }
    A.RunAppend(cfg, [], Actions(calls), [a]);
    assert [a][1..] == [];
    assert A.Run(cfg, A.Step(cfg, A.Run(cfg, [], Actions(calls)), a), []) ==
           A.Step(cfg, A.Run(cfg, [], Actions(calls)), a);
  }

  lemma Extended(cfg: Config, calls: seq<Call>, call: Call)
    requires AllWellFormed(cfg, calls) && TypesGiven(calls) && WellFormed(cfg, call)
    requires call.PostOperation? ==> ParsePost(call.parts) != Err(Panic)
    ensures AllWellFormed(cfg, calls + [call]) && TypesGiven(calls + [call])
  {
    hide ParsePost, WellFormed;
  }

  lemma Start(cfg: Config, keys: seq<int>, opType: OperationType)
    requires cfg.Sound() && Enumerates(keys, cfg.Cosigners()) && keys != [] && opType in {SendBtc, Inflation}
    ensures SoFar(cfg, [FirstPost(keys, opType)], keys, opType, 0)
  {
    var call := FirstPost(keys, opType);
    PostStarts(cfg, keys, opType);
    PartsForParse(opType, None);
    InitialDbSane(cfg);
    ExecRefinesIf(cfg, INITIAL_DB, call);
    assert Abs(cfg, INITIAL_DB) == [];
    hide Sane, Exec, Abs, FirstPost, ParsePost, WellFormed, LogAfter;
    Extended(cfg, [], call);
    OneMoreExec(cfg, INITIAL_DB, [], call);
    OneMoreAction(cfg, [], call);
    assert [] + [call] == [call];
  }

  lemma OneMoreNack(cfg: Config, calls: seq<Call>, keys: seq<int>, opType: OperationType, k: nat)
    requires Enumerates(keys, cfg.Cosigners()) && k < |keys| && SoFar(cfg, calls, keys, opType, k)
    requires cfg.Threshold(opType).Some? && Decides(cfg, opType, Denied(keys[..k + 1]))
    requires A.Decide(|cfg.Cosigners()|, cfg.Threshold(opType).value, 0, k + 1) == Pending
    ensures SoFar(cfg, calls + [Nack(keys[k])], keys, opType, k + 1)
  {
    hide Sane, Abs, Exec, Decides, Denied, A.Decide, LogAfter, AllWellFormed, TypesGiven;
    var db := ExecAll(cfg, INITIAL_DB, calls);
    NextNack(cfg, db, keys, opType, k);
    NackCounted(cfg, db, keys, opType, k);
    Extended(cfg, calls, Nack(keys[k]));
    OneMoreExec(cfg, INITIAL_DB, calls, Nack(keys[k]));
    OneMoreAction(cfg, calls, Nack(keys[k]));
  }

  lemma WrongNack(cfg: Config, calls: seq<Call>, keys: seq<int>, opType: OperationType, k: nat)
    requires Enumerates(keys, cfg.Cosigners()) && k < |keys| && SoFar(cfg, calls, keys, opType, k)
    requires !Decides(cfg, opType, Denied(keys[..k + 1]))
    ensures var more := calls + [Nack(keys[k])];
            AllWellFormed(cfg, more) && TypesGiven(more) && GoesWrong(cfg, more)
  {
    hide Sane, Abs, Exec, Decides, Denied, LogAfter, AllWellFormed, TypesGiven;
    var db, call := ExecAll(cfg, INITIAL_DB, calls), Nack(keys[k]);
    NextNack(cfg, db, keys, opType, k);
    VoteGoesWrong(cfg, db, call);
    Extended(cfg, calls, call);
    OneMoreExec(cfg, INITIAL_DB, calls, call);
    OneMoreReply(cfg, INITIAL_DB, calls, call);
    OneMoreAction(cfg, calls, call);
    var replies := Replies(cfg, INITIAL_DB, calls + [call]);
    assert replies[|replies| - 1] == Exec(cfg, db, call).1;
  }

  /** Going on with NACKs, the tally at which the decision differs is reached. */
  lemma {:induction false} WrongRun(cfg: Config, done: seq<Call>, keys: seq<int>, opType: OperationType, k: nat)
    returns (calls: seq<Call>)
    requires cfg.Sound() && Enumerates(keys, cfg.Cosigners()) && |keys| == |cfg.Cosigners()|
    requires cfg.Threshold(opType).Some? && 1 <= cfg.Threshold(opType).value <= |keys|
    requires !Fits(cfg.overflowChecks, |keys|, cfg.Threshold(opType).value)
    requires k < Culprit(cfg.overflowChecks, |keys|, cfg.Threshold(opType).value) <= |keys|
    requires SoFar(cfg, done, keys, opType, k)
    ensures AllWellFormed(cfg, calls) && TypesGiven(calls) && GoesWrong(cfg, calls)
    decreases |keys| - k
  {
    hide SoFar, GoesWrong, Config.Sound, Enumerates, AllWellFormed, TypesGiven, Decides, Denied, Fits, Culprit;
    var t := cfg.Threshold(opType).value;
    if Decides(cfg, opType, Denied(keys[..k + 1])) {
      NotYet(cfg, keys, opType, k);
      OneMoreNack(cfg, done, keys, opType, k);
      calls := WrongRun(cfg, done + [Nack(keys[k])], keys, opType, k + 1);
    } else {
      WrongNack(cfg, done, keys, opType, k);
      calls := done + [Nack(keys[k])];
    }
  }

  /** As long as the NACKs are counted right, the tally that goes wrong lies ahead. */
  lemma NotYet(cfg: Config, keys: seq<int>, opType: OperationType, k: nat)
    requires Enumerates(keys, cfg.Cosigners()) && |keys| == |cfg.Cosigners()|
    requires cfg.Threshold(opType).Some? && 1 <= cfg.Threshold(opType).value <= |keys|
    requires !Fits(cfg.overflowChecks, |keys|, cfg.Threshold(opType).value)
    requires k < Culprit(cfg.overflowChecks, |keys|, cfg.Threshold(opType).value) <= |keys|
    requires Decides(cfg, opType, Denied(keys[..k + 1]))
    ensures k + 1 < Culprit(cfg.overflowChecks, |keys|, cfg.Threshold(opType).value)
    ensures A.Decide(|cfg.Cosigners()|, cfg.Threshold(opType).value, 0, k + 1) == Pending
  {
    hide Denied, DecideU8, Culprit, Fits;
    DeniedTally(keys[..k + 1]);
    CulpritGoesWrong(cfg.overflowChecks, |keys|, cfg.Threshold(opType).value);
  }

  lemma InitialDbSane(cfg: Config)
    requires cfg.Sound()
    ensures Sane(cfg, INITIAL_DB)
  {
    assert Abs(cfg, INITIAL_DB) == [];
  }

  /** A configuration that does not fit has a run from the first start on that goes wrong. */
  lemma UnfitGoesWrong(cfg: Config) returns (calls: seq<Call>)
    requires cfg.Sound() && !ConfigFits(cfg)
    ensures AllWellFormed(cfg, calls) && TypesGiven(calls) && GoesWrong(cfg, calls)
  {
    hide SoFar, GoesWrong, AllWellFormed, TypesGiven, Culprit, Fits;
    var keys := SomeOrder(cfg.Cosigners());
    var vanilla := !Fits(cfg.overflowChecks, |cfg.Cosigners()|, cfg.thresholdVanilla);
    var opType := if vanilla then SendBtc else Inflation;
    Start(cfg, keys, opType);
    CulpritGoesWrong(cfg.overflowChecks, |keys|, cfg.Threshold(opType).value);
    calls := WrongRun(cfg, [FirstPost(keys, opType)], keys, opType, 0);
  }

  /** The bound on cosigners, stated of the handlers: the configuration fits iff, from the
      first start on, in every run of requests whose types are given, nothing panics and the
      tables stand for what the approval machine does. */
  lemma ConfigFitsIff(cfg: Config)
    requires cfg.Sound()
    ensures ConfigFits(cfg) <==> forall calls | AllWellFormed(cfg, calls) && TypesGiven(calls) :: !GoesWrong(cfg, calls)
  {
    if ConfigFits(cfg) {
      InitialDbValid(cfg);
      assert Abs(cfg, INITIAL_DB) == [];
      hide Sane, Abs, Exec, TypesGiven, WellFormed;
      forall calls | AllWellFormed(cfg, calls) && TypesGiven(calls) ensures !GoesWrong(cfg, calls) {
        RunRefines(cfg, INITIAL_DB, calls);
        NoPanic(cfg, INITIAL_DB, calls);
      }
    } else {
      var calls := UnfitGoesWrong(cfg);
      assert AllWellFormed(cfg, calls) && TypesGiven(calls) && GoesWrong(cfg, calls);
    }
  }
}
