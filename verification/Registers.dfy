/** The two small registers that share the database and the lock: the address allocator
    and the write-once transfer statuses. */
module Registers {
  import opened HubTypes
  import opened Tables
  import opened Forms
  import opened Requests
  import opened Scans
  import opened Refinement

  ghost predicate AllWellFormed(cfg: Config, calls: seq<Call>) {
    forall i | 0 <= i < |calls| :: WellFormed(cfg, calls[i])
  }

  // ----- what the operation requests leave alone -----

  predicate AboutOperations(w: Write) {
    !w.AdvanceAddress? && !w.InsertTransfer?
  }

  lemma {:induction false} ScriptKeepsRegisters(cfg: Config, txn: Txn, script: seq<Write>)
    requires forall w | w in script :: AboutOperations(w)
    ensures var end := StageAll(cfg, txn, script);
            end.Some? ==> end.value.db.nextAddress == txn.db.nextAddress && end.value.db.transfers == txn.db.transfers
    decreases |script|
  {
    if script != [] && Stage(cfg, txn, script[0]).Some? {
      assert AboutOperations(script[0]);
      ScriptKeepsRegisters(cfg, Stage(cfg, txn, script[0]).value, script[1..]);
    }
  }

  lemma {:induction false} FileWritesAboutOperations(cfg: Config, uploads: seq<Upload>)
    ensures forall w | w in FileWrites(cfg, uploads) :: AboutOperations(w)
    decreases |uploads|
  {
    if uploads != [] {
      FileWritesAboutOperations(cfg, uploads[1..]);
    }
  }

  lemma {:induction false} StatusWritesAboutOperations(keys: seq<int>)
    ensures forall w | w in StatusWrites(keys) :: AboutOperations(w)
    decreases |keys|
  {
    if keys != [] {
      StatusWritesAboutOperations(keys[1..]);
    }
  }

  lemma PlanAboutOperations(cfg: Config, call: Call, seen: Seen)
    requires !call.BumpAddressIndices? && !call.PutTransferStatus? && Next(cfg, call, seen).Commit?
    ensures forall w | w in Next(cfg, call, seen).script :: AboutOperations(w)
  {
    match call
    case PostOperation(_, _, _, keys) =>
      FileWritesAboutOperations(cfg, Uploads(FormOf(call)));
      StatusWritesAboutOperations(keys);
    case RespondToOperation(_, form, _) =>
      FileWritesAboutOperations(cfg, PsbtUploads(form.psbt, FileType.ResponsePsbt));
    case MarkOperationProcessed(_, _, _) =>
  }

  lemma OperationsKeepRegisters(cfg: Config, db: Db, call: Call)
    requires !call.BumpAddressIndices? && !call.PutTransferStatus?
    ensures Exec(cfg, db, call).0.nextAddress == db.nextAddress
    ensures Exec(cfg, db, call).0.transfers == db.transfers
  {
    var plan := Next(cfg, call, Observe(db, call));
    if plan.Commit? {
      PlanAboutOperations(cfg, call, Observe(db, call));
      ScriptKeepsRegisters(cfg, Begin(db, call, plan.reply), plan.script);
    }
  }

  // ----- addresses -----

  datatype Range = Range(first: int, count: int)

  function NextOf(db: Db, internal: bool): int {
    match db.nextAddress
    case None => 0
    case Some(next) => if internal then next.internal else next.external
  }

  /** The range one request hands out on a chain, if any. */
  function Handed(call: Call, reply: Reply, internal: bool): seq<Range> {
    if reply.Bumped? && call.BumpAddressIndices? && call.internal == internal
    then [Range(reply.first, call.count)] else []
  }

  /** The ranges a run hands out on one chain, in order. */
  function Ranges(cfg: Config, db: Db, calls: seq<Call>, internal: bool): seq<Range>
    decreases |calls|
  {
    if calls == [] then []
    else
      var (next, reply) := Exec(cfg, db, calls[0]);
      Handed(calls[0], reply, internal) + Ranges(cfg, next, calls[1..], internal)
  }

  /** The ranges are nonempty and follow each other without gap from `lo` to `hi`. */
  predicate Tiles(ranges: seq<Range>, lo: int, hi: int)
    decreases |ranges|
  {
    if ranges == [] then lo == hi
    else ranges[0].first == lo && ranges[0].count > 0 && Tiles(ranges[1..], lo + ranges[0].count, hi)
  }

  /** One request moves a chain only by handing out the range it moves over. */
  lemma OneBump(cfg: Config, db: Db, call: Call, internal: bool)
    requires Valid(cfg, db) && WellFormed(cfg, call)
    ensures var (after, reply) := Exec(cfg, db, call);
            if reply.Bumped? && call.BumpAddressIndices? && call.internal == internal then
              reply.first == NextOf(db, internal) && call.count > 0
              && NextOf(after, internal) == reply.first + call.count < U32_LIMIT
            else NextOf(after, internal) == NextOf(db, internal)
  {
    match call
    case BumpAddressIndices(_, _) => BumpEffect(cfg, db, call);
    case PutTransferStatus(_, _, _, _) => TransferEffect(cfg, db, call);
    case _ => OperationsKeepRegisters(cfg, db, call);
  }

  lemma TilesExtended(head: seq<Range>, rest: seq<Range>, lo: int, mid: int, hi: int)
    requires Tiles(rest, mid, hi) && |head| <= 1
    requires if head == [] then mid == lo else head[0].first == lo && head[0].count > 0 && mid == lo + head[0].count
    ensures Tiles(head + rest, lo, hi)
  {
    if head == [] {
      assert head + rest == rest;
    } else {
      assert (head + rest)[1..] == rest;
    }
  }

  /** Over any run of requests of every kind, the ranges handed out on a chain tile the
      distance its next index has moved; the other chain plays no part. */
  lemma {:induction false} AddressesTile(cfg: Config, db: Db, calls: seq<Call>, internal: bool)
    requires Valid(cfg, db) && AllWellFormed(cfg, calls)
    ensures Tiles(Ranges(cfg, db, calls, internal), NextOf(db, internal), NextOf(ExecAll(cfg, db, calls), internal))
    decreases |calls|
  {
    if calls != [] {
      var (next, reply) := Exec(cfg, db, calls[0]);
      ExecRefines(cfg, db, calls[0]);
      OneBump(cfg, db, calls[0], internal);
      AddressesTile(cfg, next, calls[1..], internal);
      TilesExtended(Handed(calls[0], reply, internal), Ranges(cfg, next, calls[1..], internal),
                    NextOf(db, internal), NextOf(next, internal), NextOf(ExecAll(cfg, db, calls), internal));
    }
  }

  predicate Issued(ranges: seq<Range>, a: int) {
    exists i | 0 <= i < |ranges| :: ranges[i].first <= a < ranges[i].first + ranges[i].count
  }

  /** Tiling ranges are disjoint and in order, and issue exactly the indices between the
      ends. */
  lemma {:induction false} TilesCover(ranges: seq<Range>, lo: int, hi: int)
    requires Tiles(ranges, lo, hi)
    ensures lo <= hi
    ensures forall i, j | 0 <= i < j < |ranges| :: ranges[i].first + ranges[i].count <= ranges[j].first
    ensures forall a :: Issued(ranges, a) <==> lo <= a < hi
    decreases |ranges|
  {
    if ranges != [] {
      var rest, mid := ranges[1..], lo + ranges[0].count;
      TilesCover(rest, mid, hi);
      forall i, j | 0 <= i < j < |ranges| ensures ranges[i].first + ranges[i].count <= ranges[j].first {
        assert ranges[j] == rest[j - 1];
        if i > 0 {
          assert ranges[i] == rest[i - 1];
        } else {
          assert rest[j - 1].first <= rest[j - 1].first < rest[j - 1].first + rest[j - 1].count by {
            TilesNonempty(rest, mid, hi);
          }
          assert Issued(rest, rest[j - 1].first);
        }
      }
      forall a ensures Issued(ranges, a) <==> lo <= a < hi {
        if Issued(rest, a) {
          var i :| 0 <= i < |rest| && rest[i].first <= a < rest[i].first + rest[i].count;
          assert ranges[i + 1] == rest[i];
        }
        if Issued(ranges, a) && !(ranges[0].first <= a < mid) {
          var i :| 0 <= i < |ranges| && ranges[i].first <= a < ranges[i].first + ranges[i].count;
          assert rest[i - 1] == ranges[i];
        }
        assert lo <= a < mid ==> ranges[0].first <= a < ranges[0].first + ranges[0].count;
      }
    }
  }

  lemma {:induction false} TilesNonempty(ranges: seq<Range>, lo: int, hi: int)
    requires Tiles(ranges, lo, hi)
    ensures forall i | 0 <= i < |ranges| :: ranges[i].count > 0
    ensures ranges != [] ==> ranges[|ranges| - 1].first + ranges[|ranges| - 1].count == hi
    ensures ranges == [] <==> lo == hi
    ensures lo <= hi
    decreases |ranges|
  {
    if ranges != [] {
      TilesNonempty(ranges[1..], lo + ranges[0].count, hi);
    }
  }

  /** The current index as the service reports it. */
  function CurrentIndex(db: Db, internal: bool): Option<int> {
    if NextOf(db, internal) == 0 then None else Some(NextOf(db, internal) - 1)
  }

  /** The last index of the last range. */
  function LastIssued(ranges: seq<Range>): Option<int> {
    if ranges == [] then None else Some(ranges[|ranges| - 1].first + ranges[|ranges| - 1].count - 1)
  }

  lemma TiledCurrent(ranges: seq<Range>, db: Db, internal: bool)
    requires Tiles(ranges, 0, NextOf(db, internal))
    ensures CurrentIndex(db, internal) == LastIssued(ranges)
  {
    TilesNonempty(ranges, 0, NextOf(db, internal));
  }

  /** From the first start on, the reported current index is the last one handed out. */
  lemma CurrentIsLastIssued(cfg: Config, calls: seq<Call>, internal: bool)
    requires cfg.Sound() && ConfigFits(cfg) && AllWellFormed(cfg, calls)
    ensures CurrentIndex(ExecAll(cfg, INITIAL_DB, calls), internal)
         == LastIssued(Ranges(cfg, INITIAL_DB, calls, internal))
  {
    InitialDbValid(cfg);
    AddressesTile(cfg, INITIAL_DB, calls, internal);
    TiledCurrent(Ranges(cfg, INITIAL_DB, calls, internal), ExecAll(cfg, INITIAL_DB, calls), internal);
  }

  /** From the first start on, over any run of all requests: the ranges handed out on a
      chain are disjoint and in order, and exactly the indices below the next one have been
      issued. */
  lemma EveryAddressOnce(cfg: Config, calls: seq<Call>, internal: bool)
    requires cfg.Sound() && ConfigFits(cfg) && AllWellFormed(cfg, calls)
    ensures var ranges := Ranges(cfg, INITIAL_DB, calls, internal);
            && (forall i, j | 0 <= i < j < |ranges| :: ranges[i].first + ranges[i].count <= ranges[j].first)
            && (forall a :: Issued(ranges, a) <==> 0 <= a < NextOf(ExecAll(cfg, INITIAL_DB, calls), internal))
  {
    InitialDbValid(cfg);
    AddressesTile(cfg, INITIAL_DB, calls, internal);
    TilesCover(Ranges(cfg, INITIAL_DB, calls, internal), 0, NextOf(ExecAll(cfg, INITIAL_DB, calls), internal));
  }

  // ----- transfer statuses -----

  lemma TransferIs(cfg: Config, db: Db, row: TransferStatus)
    requires TransfersOk(cfg, db.transfers) && row in db.transfers
    ensures GetTransferStatus(db, row.batchTransferIdx) == Some(row)
  {
    var found := GetTransferStatus(db, row.batchTransferIdx).value;
    var i :| 0 <= i < |db.transfers| && db.transfers[i] == row;
    var j :| 0 <= j < |db.transfers| && db.transfers[j] == found;
    if i < j { assert TransfersOk(cfg, db.transfers); } else if j < i { assert TransfersOk(cfg, db.transfers); }
  }

  /** A registered status is never replaced, whatever is requested. */
  lemma StatusStays(cfg: Config, db: Db, call: Call, batch: int)
    requires Valid(cfg, db) && WellFormed(cfg, call) && GetTransferStatus(db, batch).Some?
    ensures GetTransferStatus(Exec(cfg, db, call).0, batch) == GetTransferStatus(db, batch)
  {
    ExecRefines(cfg, db, call);
    var row, after := GetTransferStatus(db, batch).value, Exec(cfg, db, call).0;
    match call
    case BumpAddressIndices(_, _) => BumpEffect(cfg, db, call);
    case PutTransferStatus(_, _, _, _) => TransferEffect(cfg, db, call);
    case _ => OperationsKeepRegisters(cfg, db, call);
    assert row in after.transfers;
    TransferIs(cfg, after, row);
  }

  lemma {:induction false} StatusStaysForGood(cfg: Config, db: Db, calls: seq<Call>, batch: int)
    requires Valid(cfg, db) && AllWellFormed(cfg, calls) && GetTransferStatus(db, batch).Some?
    ensures GetTransferStatus(ExecAll(cfg, db, calls), batch) == GetTransferStatus(db, batch)
    decreases |calls|
  {
    if calls != [] {
      StatusStays(cfg, db, calls[0], batch);
      ExecRefines(cfg, db, calls[0]);
      StatusStaysForGood(cfg, Exec(cfg, db, calls[0]).0, calls[1..], batch);
    }
  }

  /** A set succeeds iff the batch is free or already registered with the same answer; it
      then reports the registered status, which is the caller's own iff the batch was
      free. A conflicting set changes nothing, and no set touches another batch. */
  lemma SetIsWriteOnce(cfg: Config, db: Db, call: Call)
    requires Valid(cfg, db) && WellFormed(cfg, call) && call.PutTransferStatus?
    ensures var (after, reply), before := Exec(cfg, db, call), GetTransferStatus(db, call.batch);
            && (reply.TransferSet? <==> before.None? || before.value.accepted == call.accepted)
            && (reply.TransferSet? ==> GetTransferStatus(after, call.batch) == Some(reply.row))
            && (reply.TransferSet? && before.Some? ==> reply.row == before.value && after == db)
            && (before.None? ==> reply.row.cosignerIdx == call.c && reply.row.registeredAt == call.now
                                 && reply.row.accepted == call.accepted)
            && (!reply.TransferSet? ==> reply == Refused(TransferStatusMismatch) && after == db)
            && (forall batch | batch != call.batch :: GetTransferStatus(after, batch) == GetTransferStatus(db, batch))
  {
    TransferEffect(cfg, db, call);
    ExecRefines(cfg, db, call);
    var (after, reply) := Exec(cfg, db, call);
    if reply.TransferSet? && GetTransferStatus(db, call.batch).None? {
      assert after.transfers[|db.transfers|] == reply.row;
      TransferIs(cfg, after, reply.row);
    }
    forall batch | batch != call.batch ensures GetTransferStatus(after, batch) == GetTransferStatus(db, batch) {
      if GetTransferStatus(db, batch).Some? {
        StatusStays(cfg, db, call, batch);
      }
    }
  }

  /** Over any run, a successful set and everything later agree: all later successful
      sets of the batch and all later reads give the same status. */
  lemma RegisterAgreement(cfg: Config, db: Db, call: Call, between: seq<Call>, later: Call)
    requires Valid(cfg, db) && WellFormed(cfg, call) && call.PutTransferStatus?
    requires AllWellFormed(cfg, between) && WellFormed(cfg, later)
    requires Exec(cfg, db, call).1.TransferSet?
    ensures var row, now := Exec(cfg, db, call).1.row, ExecAll(cfg, Exec(cfg, db, call).0, between);
            && GetTransferStatus(now, call.batch) == Some(row)
            && (later.PutTransferStatus? && later.batch == call.batch ==>
                  Exec(cfg, now, later).1 == if later.accepted == row.accepted then TransferSet(row)
                                             else Refused(TransferStatusMismatch))
  {
    SetIsWriteOnce(cfg, db, call);
    ExecRefines(cfg, db, call);
    var after := Exec(cfg, db, call).0;
    StatusStaysForGood(cfg, after, between, call.batch);
    RunRefines(cfg, after, between);
    if later.PutTransferStatus? {
      SetIsWriteOnce(cfg, ExecAll(cfg, after, between), later);
    }
  }
}
