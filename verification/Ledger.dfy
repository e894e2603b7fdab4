/** History at the level of rows: what a later state of the tables must still say. */
module Ledger {
  import opened HubTypes
  import opened Tables
  import opened Requests
  import opened Scans
  import opened Refinement
  import opened Registers
  import H = History
  import A = Approval

  /** `after` is reached from `before` by whole requests. */
  ghost predicate Reaches(cfg: Config, before: Db, after: Db) {
    exists calls :: AllWellFormed(cfg, calls) && ExecAll(cfg, before, calls) == after
  }

  ghost predicate OperationGrows(before: Operation, after: Operation) {
    && after == before.(status := after.status)
    && (before.status != Pending ==> after.status == before.status)
  }

  /** A vote with its time and PSBT, and a mark with its time, are written once. */
  ghost predicate EntryGrows(before: CosignerOpStatus, after: CosignerOpStatus) {
    && after.idx == before.idx
    && after.cosignerIdx == before.cosignerIdx
    && after.operationIdx == before.operationIdx
    && (before.ack.Some? ==> after.ack == before.ack && after.respondedAt == before.respondedAt
                             && after.psbtOpFileIdx == before.psbtOpFileIdx)
    && (before.processedAt.Some? ==> after.processedAt == before.processedAt)
  }

  ghost predicate DbGrows(before: Db, after: Db) {
    && |before.operations| <= |after.operations|
    && |before.statuses| <= |after.statuses|
    && (forall i | 0 <= i < |before.operations| :: OperationGrows(before.operations[i], after.operations[i]))
    && (forall i | 0 <= i < |before.statuses| :: EntryGrows(before.statuses[i], after.statuses[i]))
    && before.opFiles <= after.opFiles
    && before.transfers <= after.transfers
  }

  lemma DbGrowsTransitive(a: Db, b: Db, c: Db)
    requires DbGrows(a, b) && DbGrows(b, c)
    ensures DbGrows(a, c)
  {
    forall i | 0 <= i < |a.operations| ensures OperationGrows(a.operations[i], c.operations[i]) {
      assert OperationGrows(a.operations[i], b.operations[i]) && OperationGrows(b.operations[i], c.operations[i]);
    }
    forall i | 0 <= i < |a.statuses| ensures EntryGrows(a.statuses[i], c.statuses[i]) {
      assert EntryGrows(a.statuses[i], b.statuses[i]) && EntryGrows(b.statuses[i], c.statuses[i]);
    }
  }

  lemma MarkedGrows(cfg: Config, db: Db, entry: CosignerOpStatus, now: int)
    requires Shaped(cfg, db) && entry in db.statuses && entry.processedAt.None?
    ensures 1 <= entry.idx <= |db.statuses| && DbGrows(db, MarkedDb(db, entry, now))
  {
    RowInPlace(cfg, db, entry);
  }

  lemma RespondedGrows(
    cfg: Config, db: Db, op: Operation, entry: CosignerOpStatus, ack: bool, psbt: Option<Bytes>, now: int)
    requires Shaped(cfg, db) && entry in db.statuses && entry.ack.None?
    requires 1 <= op.idx <= |db.operations| && db.operations[op.idx - 1] == op && op.status == Pending
    ensures 1 <= entry.idx <= |db.statuses| && DbGrows(db, RespondedDb(cfg, db, op, entry, ack, psbt, now))
  {
    RowInPlace(cfg, db, entry);
    var after := RespondedDb(cfg, db, op, entry, ack, psbt, now);
    assert after.statuses == db.statuses[entry.idx - 1 := VotedRow(db, entry, ack, psbt, now)];
  }

  lemma SameRowsGrow(before: Db, after: Db)
    requires after.operations == before.operations && after.statuses == before.statuses
    requires after.opFiles == before.opFiles && before.transfers <= after.transfers
    ensures DbGrows(before, after)
  {
  }

  lemma RefusalChangesNothing(cfg: Config, db: Db, call: Call)
    requires Valid(cfg, db) && WellFormed(cfg, call) && ActionOf(call).Some? && !AsksFor(cfg, db, call)
    ensures Exec(cfg, db, call).0 == db
  {
    hide Valid, Exec;
    ExecRefines(cfg, db, call);
  }

  lemma MalformedRefused(cfg: Config, db: Db, call: Call)
    requires Valid(cfg, db) && WellFormed(cfg, call) && ActionOf(call).None?
    requires !call.BumpAddressIndices? && !call.PutTransferStatus?
    ensures Exec(cfg, db, call).1.Refused? && Exec(cfg, db, call).0 == db
  {
    ValidIsSane(cfg, db);
    hide Valid, Shaped, StageAll;
    if call.PostOperation? {
      PostPlan(cfg, db, call);
    } else {
      RespondPlan(cfg, db, call);
    }
  }

  lemma RegistersGrow(cfg: Config, db: Db, call: Call)
    requires Valid(cfg, db) && WellFormed(cfg, call) && (call.BumpAddressIndices? || call.PutTransferStatus?)
    ensures DbGrows(db, Exec(cfg, db, call).0)
  {
    hide A.Inv, StatusesOk;
    if call.BumpAddressIndices? {
      BumpEffect(cfg, db, call);
    } else {
      TransferEffect(cfg, db, call);
    }
    SameRowsGrow(db, Exec(cfg, db, call).0);
  }

  lemma ExecGrows(cfg: Config, db: Db, call: Call)
    requires Valid(cfg, db) && WellFormed(cfg, call)
    ensures DbGrows(db, Exec(cfg, db, call).0)
  {
    hide *;
    if call.BumpAddressIndices? || call.PutTransferStatus? {
      RegistersGrow(cfg, db, call);
    } else if AsksFor(cfg, db, call) {
      SuccessGrows(cfg, db, call);
    } else {
      if ActionOf(call).Some? {
        RefusalChangesNothing(cfg, db, call);
      } else {
        MalformedRefused(cfg, db, call);
      }
      DbGrowsReflexive(db);
    }
  }

  lemma DbGrowsReflexive(db: Db)
    ensures DbGrows(db, db)
  {
  }

  lemma PostedGrows(cfg: Config, db: Db, call: Call)
    requires call.PostOperation? && FormOf(call).opType.Some?
    ensures DbGrows(db, PostedDb(cfg, db, call.c, FormOf(call).opType.value, FormOf(call), call.now, call.keys))
  {
    hide FormOf;
  }

  lemma PostGrows(cfg: Config, db: Db, call: Call)
    requires Valid(cfg, db) && WellFormed(cfg, call) && AsksFor(cfg, db, call) && call.PostOperation?
    ensures DbGrows(db, Exec(cfg, db, call).0)
  {
    ValidIsSane(cfg, db);
    hide Valid, Exec, Shaped, Sane, DbGrows, PostedDb;
    PostResult(cfg, db, call);
    PostedGrows(cfg, db, call);
  }

  lemma SuccessGrows(cfg: Config, db: Db, call: Call)
    requires Valid(cfg, db) && WellFormed(cfg, call) && AsksFor(cfg, db, call)
    ensures DbGrows(db, Exec(cfg, db, call).0)
  {
    ValidIsSane(cfg, db);
    hide Valid, Exec, Shaped, DbGrows, Votable, MarkedDb, RespondedDb, WellFormed;
    match call
    case PostOperation(_, _, _, _) =>
      PostGrows(cfg, db, call);
    case RespondToOperation(_, form, now) =>
      var op, entry := RespondResult(cfg, db, call);
      VotableRows(cfg, db, op, entry, form.request.value.ack, form.psbt);
      RespondedGrows(cfg, db, op, entry, form.request.value.ack, form.psbt, now);
    case MarkOperationProcessed(_, _, now) =>
      var entry := MarkResult(cfg, db, call);
      MarkedGrows(cfg, db, entry, now);
    case _ =>
  }

  /** Over any run, rows only gain: no identity, vote, mark, time, file or transfer status
      is ever rewritten. */
  lemma {:induction false} RunGrows(cfg: Config, db: Db, calls: seq<Call>)
    requires Valid(cfg, db) && AllWellFormed(cfg, calls)
    ensures DbGrows(db, ExecAll(cfg, db, calls)) && Valid(cfg, ExecAll(cfg, db, calls))
    decreases |calls|
  {
    if calls != [] {
      var next := Exec(cfg, db, calls[0]).0;
      ExecGrows(cfg, db, calls[0]);
      ExecRefines(cfg, db, calls[0]);
      RunGrows(cfg, next, calls[1..]);
      DbGrowsTransitive(db, next, ExecAll(cfg, db, calls));
    }
  }

  lemma ReachesGrows(cfg: Config, before: Db, after: Db)
    requires Valid(cfg, before) && Reaches(cfg, before, after)
    ensures DbGrows(before, after) && Valid(cfg, after)
    ensures H.Grows(Abs(cfg, before), Abs(cfg, after))
  {
    var calls :| AllWellFormed(cfg, calls) && ExecAll(cfg, before, calls) == after;
    RunGrows(cfg, before, calls);
    RunRefines(cfg, before, calls);
    H.RunGrows(cfg, Abs(cfg, before), Actions(calls));
  }

  lemma ReachesReflexive(cfg: Config, db: Db)
    ensures Reaches(cfg, db, db)
  {
    assert AllWellFormed(cfg, []) && ExecAll(cfg, db, []) == db;
  }

  lemma {:induction false} ExecAllAppend(cfg: Config, db: Db, calls: seq<Call>, more: seq<Call>)
    ensures ExecAll(cfg, db, calls + more) == ExecAll(cfg, ExecAll(cfg, db, calls), more)
    decreases |calls|
  {
    if calls == [] {
      assert calls + more == more;
    } else {
      assert (calls + more)[1..] == calls[1..] + more;
      ExecAllAppend(cfg, Exec(cfg, db, calls[0]).0, calls[1..], more);
    }
  }

  lemma ReachesTransitive(cfg: Config, a: Db, b: Db, c: Db)
    requires Reaches(cfg, a, b) && Reaches(cfg, b, c)
    ensures Reaches(cfg, a, c)
  {
    hide ExecAll, WellFormed;
    var first :| AllWellFormed(cfg, first) && ExecAll(cfg, a, first) == b;
    var second :| AllWellFormed(cfg, second) && ExecAll(cfg, b, second) == c;
    ExecAllAppend(cfg, a, first, second);
    assert AllWellFormed(cfg, first + second);
  }

  lemma ReachesByOne(cfg: Config, db: Db, call: Call)
    requires WellFormed(cfg, call)
    ensures Reaches(cfg, db, Exec(cfg, db, call).0)
  {
    var after := Exec(cfg, db, call).0;
    assert [call][1..] == [] && ExecAll(cfg, after, []) == after;
    assert AllWellFormed(cfg, [call]) && ExecAll(cfg, db, [call]) == after;
  }
}
