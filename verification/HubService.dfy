/** The running service. Each writing handler is shown as it runs under the write lock,
    where nothing else writes; the reader runs without it, between other requests. */
module HubService {
  import opened HubTypes
  import ByteArithmetic
  import opened Forms
  import opened Tables
  import opened Requests
  import S = Scans
  import opened Refinement
  import opened FileStore
  import E = Effects
  import opened Ledger
  import opened Reading
  import opened Registers
  import A = Approval

  // ----- growing what the loops build -----

  lemma FileRowsStep(cfg: Config, start: nat, o: int, uploads: seq<Upload>, i: nat)
    requires i < |uploads|
    ensures FileRows(cfg, start, o, uploads[..i + 1])
         == FileRows(cfg, start, o, uploads[..i])
            + [OpFile(start + i + 1, cfg.digest(uploads[i].content), uploads[i].fileType, o)]
  {
  }

  lemma NextFileStaged(cfg: Config, start: Db, o: int, uploads: seq<Upload>, i: nat)
    requires FilesNumbered(start) && i < |uploads|
    ensures SetOpFile(WithRowsOf(cfg, start, o, uploads[..i]), uploads[i].fileType, cfg.digest(uploads[i].content), o)
         == WithRowsOf(cfg, start, o, uploads[..i + 1])
  {
    NextFileIs(WithRowsOf(cfg, start, o, uploads[..i]));
    FileRowsStep(cfg, |start.opFiles|, o, uploads, i);
  }

  /** The tables with a file row for each upload. */
  function WithRowsOf(cfg: Config, start: Db, o: int, uploads: seq<Upload>): Db {
    start.(opFiles := start.opFiles + FileRows(cfg, |start.opFiles|, o, uploads))
  }

  lemma FreshRowsStep(start: nat, o: int, keys: seq<int>, i: nat)
    requires i < |keys|
    ensures FreshRows(start, o, keys[..i + 1])
         == FreshRows(start, o, keys[..i]) + [CosignerOpStatus(start + i + 1, keys[i], o, None, None, None, None)]
  {
  }

  /** The log took exactly this step of the approval machine. */
  ghost predicate Took(cfg: Config, before: Db, after: Db, a: A.Action) {
    A.Enabled(cfg, S.Abs(cfg, before), a) && S.Abs(cfg, after) == A.Apply(cfg, S.Abs(cfg, before), a)
  }

  /** The outcome of a request that ran to its end. */
  ghost predicate Ran(cfg: Config, before: Db, call: Call, after: Db, reply: Reply) {
    && (after, reply) == Exec(cfg, before, call)
    && S.Valid(cfg, after)
    && (reply == Refused(Panic) <==> PanicsOn(before, call))
    && (reply.Refused? ==> after == before)
    && (!reply.Refused? && ActionOf(call).Some? ==> Took(cfg, before, after, ActionOf(call).value))
  }

  lemma ExecRuns(cfg: Config, db: Db, call: Call)
    requires S.Valid(cfg, db) && WellFormed(cfg, call)
    ensures Ran(cfg, db, call, Exec(cfg, db, call).0, Exec(cfg, db, call).1)
    ensures S.Valid(cfg, Exec(cfg, db, call).0)
  {
    hide S.Valid, S.Sane, WellFormed, S.Abs;
    ExecRefines(cfg, db, call);
  }

  /** The result of a post, as a function of what it checks. */
  lemma PostOutcome(cfg: Config, db: Db, call: Call)
    requires S.Valid(cfg, db) && WellFormed(cfg, call) && call.PostOperation?
    ensures S.OperationsOk(db.operations) && FilesNumbered(db) && StatusesNumbered(db)
    ensures Exec(cfg, db, call) ==
              if HasPendingOperation(db) then (db, Refused(AnotherOperationPending))
              else if HasUnprocessedOperation(db, call.c) then (db, Refused(InitiatorHasUnprocessed))
              else
                match ParsePost(call.parts)
                case Err(error) => (db, Refused(error))
                case Ok(form) =>
                  if (form.files == [] && form.psbt.None?) || form.opType.None? then (db, Refused(InvalidRequest))
                  else if !SeedFits(form.opType.value, form.seed) then (db, Refused(InvalidRequest))
                  else (PostedDb(cfg, db, call.c, form.opType.value, form, call.now, call.keys),
                        Posted(|db.operations| + 1))
  {
    ValidIsSane(cfg, db);
    NumbersOk(cfg, db);
    hide S.Valid, S.Sane, S.Shaped, PostedDb, StageAll, PostScript;
    if Next(cfg, call, Observe(db, call)).Commit? {
      PostEffect(cfg, db, call, FormOf(call).opType.value);
    }
  }

  lemma PostedLength(
    cfg: Config, db: Db, c: int, opType: OperationType, form: PostForm, now: int, keys: seq<int>)
    ensures |PostedDb(cfg, db, c, opType, form, now, keys).operations| == |db.operations| + 1
  {
  }

  /** The result of a bump, as a function of the row it reads. */
  lemma BumpOutcome(cfg: Config, db: Db, call: Call)
    requires S.Valid(cfg, db) && call.BumpAddressIndices?
    ensures db.nextAddress.Some?
    ensures var next := db.nextAddress.value;
            var first := if call.internal then next.internal else next.external;
            Exec(cfg, db, call) ==
              if call.count == 0 then (db, Refused(InvalidCount))
              else if first + call.count >= U32_LIMIT then (db, Refused(AddressOverflow))
              else (db.(nextAddress := Some(
                      if call.internal then NextAddressIndex(next.internal + call.count, next.external)
                      else NextAddressIndex(next.internal, next.external + call.count))),
                    Bumped(first))
  {
    ValidIsSane(cfg, db);
    S.AddressKnown(cfg, db);
    hide S.Valid, S.Sane, S.Shaped, Exec;
    BumpEffect(cfg, db, call);
  }

  /** The result of a mark, as a function of the two rows it reads. */
  lemma MarkOutcome(cfg: Config, db: Db, call: Call)
    requires S.Shaped(cfg, db) && WellFormed(cfg, call) && call.MarkOperationProcessed?
    ensures var op, entry := GetOperationByIdx(db, call.idx), GetEntry(db.statuses, call.c, call.idx);
            Exec(cfg, db, call) ==
              if op.None? then (db, Refused(OperationNotFound))
              else if op.value.status == Pending then (db, Refused(PendingCannotBeProcessed))
              else if entry.None? then (db, Refused(OperationNotFound))
              else if entry.value.processedAt.Some? then (db, Refused(AlreadyProcessed))
              else (UpdateCosignerOpStatus(db, entry.value.(processedAt := Some(call.now))), Marked)
  {
    hide S.Shaped, UpdateCosignerOpStatus, GetOperationByIdx, GetEntry;
    var op, entry := GetOperationByIdx(db, call.idx), GetEntry(db.statuses, call.c, call.idx);
    if op.Some? && op.value.status != Pending && entry.Some? && entry.value.processedAt.None? {
      var write, txn := RecordProcessed(entry.value, call.now), Begin(db, call, Marked);
      OneWrite(cfg, txn, write, Stage(cfg, txn, write).value);
    }
  }

  /** The result of a set, as a function of the row it reads. */
  lemma TransferOutcome(cfg: Config, db: Db, call: Call)
    requires call.PutTransferStatus?
    ensures var after := SetTransferStatus(db, call.batch, call.c, call.now, call.accepted);
            Exec(cfg, db, call) ==
              match GetTransferStatus(db, call.batch)
              case Some(row) =>
                (db, if row.accepted == call.accepted then TransferSet(row) else Refused(TransferStatusMismatch))
              case None => (after, TransferSet(after.transfers[|db.transfers|]))
  {
    TransferEffect(cfg, db, call);
    if GetTransferStatus(db, call.batch).None? {
      var insert := InsertTransfer(call.batch, call.c, call.now, call.accepted);
      var txn := Begin(db, call, Marked);
      OneWrite(cfg, txn, insert, Stage(cfg, txn, insert).value);
    }
  }

  lemma RegisteredByCosigner(cfg: Config, db: Db, batch: int)
    requires S.Valid(cfg, db) && GetTransferStatus(db, batch).Some?
    ensures GetTransferStatus(db, batch).value.cosignerIdx in cfg.xpubs
  {
    hide S.StatusesOk, A.Inv;
    var row := GetTransferStatus(db, batch).value;
    var i :| 0 <= i < |db.transfers| && db.transfers[i] == row;
  }

  /** The row of a batch is found once it is inserted. */
  lemma InsertedFound(cfg: Config, before: Db, after: Db, batch: int)
    requires S.Valid(cfg, after) && |after.transfers| == |before.transfers| + 1
    requires after.transfers[|before.transfers|].batchTransferIdx == batch
    ensures GetTransferStatus(after, batch) == Some(after.transfers[|before.transfers|])
  {
    hide S.StatusesOk, A.Inv;
    TransferIs(cfg, after, after.transfers[|before.transfers|]);
  }

  /** A later state of the tables and of the files directory. */
  ghost predicate Later(cfg: Config, db0: Db, files0: map<FileId, Bytes>, db1: Db, files1: map<FileId, Bytes>) {
    Reaches(cfg, db0, db1) && FilesGrow(files0, files1)
  }

  lemma LaterReflexive(cfg: Config, db: Db, files: map<FileId, Bytes>)
    ensures Later(cfg, db, files, db, files)
  {
    ReachesReflexive(cfg, db);
  }

  lemma LaterTransitive(
    cfg: Config, db0: Db, files0: map<FileId, Bytes>, db1: Db, files1: map<FileId, Bytes>,
    db2: Db, files2: map<FileId, Bytes>)
    requires Later(cfg, db0, files0, db1, files1) && Later(cfg, db1, files1, db2, files2)
    ensures Later(cfg, db0, files0, db2, files2)
  {
    ReachesTransitive(cfg, db0, db1, db2);
  }

  lemma StillSince(
    cfg: Config, voteDb: Db, db0: Db, files0: map<FileId, Bytes>, db1: Db, files1: map<FileId, Bytes>)
    requires Reaches(cfg, voteDb, db0) && Stored(files0, voteDb.opFiles) && Later(cfg, db0, files0, db1, files1)
    ensures Reaches(cfg, voteDb, db1) && Stored(files1, voteDb.opFiles)
  {
    ReachesTransitive(cfg, voteDb, db0, db1);
  }

  /** What makes settling the staged rows a decision on one vote more. */
  ghost predicate ReadyToSettle(cfg: Config, staged: Db, op: Operation) {
    && S.OperationsOk(staged.operations) && S.Unique(staged.statuses)
    && (forall row | row in staged.statuses :: row.cosignerIdx in cfg.Cosigners())
    && 1 <= op.idx <= |staged.operations| && staged.operations[op.idx - 1] == op && op.status == Pending
    && Decides(cfg, op.opType, S.VotesOn(cfg, staged.statuses, op.idx))
  }

  lemma StagedIsReady(
    cfg: Config, db: Db, op: Operation, entry: CosignerOpStatus, ack: bool, psbt: Option<Bytes>, now: int)
    requires Votable(cfg, db, op, entry, ack, psbt)
    requires Decides(cfg, op.opType, S.VotesOn(cfg, db.statuses, op.idx)[entry.cosignerIdx := ack])
    ensures 1 <= entry.idx <= |db.statuses| && 1 <= op.idx <= |db.operations|
    ensures ReadyToSettle(cfg, VotedDb(cfg, db, entry, ack, psbt, now), op)
    ensures var voted := VotedDb(cfg, db, entry, ack, psbt, now);
            WithStatus(voted, op, IdealStatus(cfg, voted, op)) == RespondedDb(cfg, db, op, entry, ack, psbt, now)
  {
    hide S.StatusesOk, S.VotesOn, A.Inv, Decides, A.Enabled;
    VotableRows(cfg, db, op, entry, ack, psbt);
    StagedRows(cfg, db, entry, ack, psbt, now);
    VotedRowSeen(cfg, db, entry, ack, psbt, now, op.idx);
  }

  /** The status the votes in the rows deserve. */
  function IdealStatus(cfg: Config, db: Db, op: Operation): OperationStatus {
    var t := cfg.Threshold(op.opType);
    if t.None? then op.status else A.Tallied(cfg, t.value, S.VotesOn(cfg, db.statuses, op.idx))
  }

  function WithStatus(db: Db, op: Operation, status: OperationStatus): Db
    requires 1 <= op.idx <= |db.operations|
  {
    db.(operations := db.operations[op.idx - 1 := op.(status := status)])
  }

  /** Counting and deciding in u8 gives the ideal status. */
  lemma SettlesTo(cfg: Config, staged: Db, op: Operation)
    requires ReadyToSettle(cfg, staged, op)
    ensures cfg.Threshold(op.opType).Some?
    ensures var (acks, nacks) := Tally(EntriesOf(staged.statuses, op.idx));
            var t := cfg.Threshold(op.opType).value;
            ByteArithmetic.DecideU8(cfg.overflowChecks, |cfg.Cosigners()|, t, acks, nacks)
              == Some(IdealStatus(cfg, staged, op))
  {
    hide S.OperationsOk, Tally, EntriesOf, S.VotesOn, A.Tallied, A.Acks, A.Nacks, ByteArithmetic.DecideU8;
    S.TallyScan(cfg, staged.statuses, op.idx);
  }

  /** A status that stays Pending needs no update. */
  lemma StatusStaged(staged: Db, op: Operation, status: OperationStatus)
    requires S.OperationsOk(staged.operations) && 1 <= op.idx <= |staged.operations|
    requires staged.operations[op.idx - 1] == op && op.status == Pending
    ensures WithStatus(staged, op, status)
         == if status == Pending then staged else UpdateOperation(staged, op.(status := status))
  {
    hide UpdateOperation;
    OperationReplaced(staged, op.(status := status));
    assert staged.operations[op.idx - 1 := op] == staged.operations;
  }

  lemma ValidParts(cfg: Config, db: Db)
    requires S.Valid(cfg, db)
    ensures cfg.Sound() && S.ConfigFits(cfg)
  {
  }

  lemma OperationFound(cfg: Config, db: Db, idx: int)
    requires S.Valid(cfg, db) && GetOperationByIdx(db, idx).Some?
    ensures 1 <= idx <= |db.operations| && GetOperationByIdx(db, idx).value.initiatorIdx in cfg.xpubs
  {
    hide S.StatusesOk, A.Inv;
    S.OperationIs(db, idx);
    InitiatorKnown(cfg, db, idx);
  }

  /** An operation once found is found in every later state. */
  lemma OperationStays(cfg: Config, db: Db, later: Db, idx: int)
    requires S.Valid(cfg, db) && Reaches(cfg, db, later) && 1 <= idx <= |db.operations|
    ensures idx <= |later.operations| && GetOperationByIdx(later, idx).Some?
  {
    hide S.StatusesOk, A.Inv;
    ReachesGrows(cfg, db, later);
    S.OperationIs(later, idx);
  }

  lemma RowsAreFine(cfg: Config, db: Db, idx: int)
    requires S.Valid(cfg, db)
    ensures Known(cfg, EntriesOf(db.statuses, idx)) && S.DistinctCosigners(EntriesOf(db.statuses, idx))
  {
    EntriesKnown(cfg, db, idx);
    S.EntriesDistinct(db.statuses, idx);
  }

  lemma EntriesAreRows(rows: seq<CosignerOpStatus>, idx: int)
    ensures forall e | e in EntriesOf(rows, idx) :: e in rows
  {
  }

  lemma PsbtStillFound(cfg: Config, db: Db, later: Db, e: CosignerOpStatus)
    requires S.Valid(cfg, db) && Reaches(cfg, db, later) && e in db.statuses && e.psbtOpFileIdx.Some?
    ensures GetOpFileByIdx(later, e.psbtOpFileIdx.value).Some?
    ensures GetOpFileByIdx(later, e.psbtOpFileIdx.value) == GetOpFileByIdx(db, e.psbtOpFileIdx.value)
    ensures GetOpFileByIdx(later, e.psbtOpFileIdx.value).value in db.opFiles
  {
    hide S.StatusesOk, A.Inv;
    ReachesGrows(cfg, db, later);
    PsbtFound(cfg, db, later, e);
  }

  class Hub {
    const cfg: Config
    const faulty: bool               // whether calls to the database and the file system can fail
    var db: Db                       // the committed tables
    var files: map<FileId, Bytes>    // the files directory

    ghost predicate Valid()
      reads this
    {
      S.Valid(cfg, db) && Integrity(cfg, files) && Stored(files, db.opFiles)
    }

    constructor (cfg: Config, faulty: bool)
      requires cfg.Sound() && S.ConfigFits(cfg)
      ensures Valid() && this.cfg == cfg && this.faulty == faulty && db == INITIAL_DB && files == map[]
    {
      this.cfg, this.faulty, this.db, this.files := cfg, faulty, INITIAL_DB, map[];
      InitialDbValid(cfg);
    }

    /** Whether the next call to the database or the file system fails. */
    method CallFails() returns (fails: bool)
      ensures fails ==> faulty
    {
      fails := *;
      fails := fails && faulty;
    }

    /** Moves an uploaded file under its digest, unless a file of that name exists. */
    method PersistTempFile(content: Bytes) returns (fileId: FileId)
      requires Integrity(cfg, files)
      modifies this`files
      ensures fileId == cfg.digest(content) && fileId in files
      ensures Integrity(cfg, files) && FilesGrow(old(files), files)
      ensures files.Keys == old(files).Keys + {fileId}
    {
      fileId := cfg.digest(content);
      if fileId !in files {
        files := files[fileId := content];
      }
    }

    /** Stores the uploads and stages a file row for each; false when a call fails. */
    method StageFiles(start: Db, uploads: seq<Upload>, operationIdx: int) returns (ok: bool, txn: Db)
      requires Integrity(cfg, files) && FilesNumbered(start) && Stored(files, start.opFiles)
      modifies this`files
      ensures Integrity(cfg, files) && FilesGrow(old(files), files)
      ensures !ok ==> faulty
      ensures ok ==> Stored(files, txn.opFiles) && txn == WithRowsOf(cfg, start, operationIdx, uploads)
    {
      txn := start;
      for i := 0 to |uploads|
        invariant Integrity(cfg, files) && FilesGrow(old(files), files)
        invariant txn == WithRowsOf(cfg, start, operationIdx, uploads[..i])
        invariant Stored(files, txn.opFiles)
      {
        ghost var before := files;
        var fileId := PersistTempFile(uploads[i].content);
        StillStored(before, files, txn.opFiles);
        var fails := CallFails();
        if fails {
          return false, start;
        }
        NextFileStaged(cfg, start, operationIdx, uploads, i);
        txn := SetOpFile(txn, uploads[i].fileType, fileId, operationIdx);
      }
      assert uploads[..|uploads|] == uploads;
      ok := true;
    }

    /** Stages one fresh row per cosigner, in the order of the cosigner map. */
    method StageStatuses(start: Db, keys: seq<int>, operationIdx: int) returns (ok: bool, txn: Db)
      requires StatusesNumbered(start)
      ensures !ok ==> faulty
      ensures ok ==> txn == start.(
                statuses := start.statuses + FreshRows(|start.statuses|, operationIdx, keys))
    {
      txn := start;
      for i := 0 to |keys|
        invariant txn == start.(
          statuses := start.statuses + FreshRows(|start.statuses|, operationIdx, keys[..i]))
      {
        var fails := CallFails();
        if fails {
          return false, start;
        }
        StatusInserted(txn, keys[i], operationIdx);
        FreshRowsStep(|start.statuses|, operationIdx, keys, i);
        txn := SetCosignerOpStatus(txn, keys[i], operationIdx);
      }
      assert keys[..|keys|] == keys;
      ok := true;
    }

    /** Reads the form of a post part by part, up to the first part that is refused. */
    method ReadPostForm(parts: seq<Part>) returns (r: Result<PostForm, ApiError>)
      ensures r == ParsePost(parts)
    {
      var operationType: Option<OperationType> := None;
      var seed: Option<Bytes> := None;
      var uploads: seq<Upload> := [];
      var psbt: Option<Bytes> := None;
      for i := 0 to |parts|
        invariant ParsePost(parts[..i]) == Ok(PostForm(operationType, seed, uploads, psbt))
      {
        assert parts[..i + 1][..i] == parts[..i];
        ghost var parsed := ParsePost(parts[..i + 1]);
        if parsed.Err? {
          RefusalStays(parts, i + 1);
        }
        match parts[i]
        case TypePart(content) =>
          if content == [] {
            return Err(Panic);  // the first byte is looked at before the length
          }
          var opType := TypeOf(content[0]);
          if opType.None? {
            return Err(InvalidOperationType);
          }
          operationType := opType;
        case SeedPart(decoded) =>
          if decoded.None? {
            return Err(InvalidRequest);
          }
          seed := decoded;
        case FilePart(suffix, content) =>
          var fileType := FileTypeOf(suffix);
          if fileType.None? || content == [] {
            return Err(InvalidRequest);
          }
          if fileType.value == OperationPsbt {
            if psbt.Some? {
              return Err(InvalidRequest);
            }
            psbt := Some(content);
          } else {
            uploads := uploads + [Upload(fileType.value, content)];
          }
        case _ =>
          return Err(InvalidRequest);
      }
      assert parts[..|parts|] == parts;
      r := Ok(PostForm(operationType, seed, uploads, psbt));
    }

    /** Besides taking the step of the machine, an accepted post leaves the rows and files that
        the parts of its form say. */
    method PostOperation(c: int, parts: seq<Part>, now: int, keys: seq<int>) returns (reply: Reply)
      requires Valid() && c in cfg.Cosigners() && Enumerates(keys, cfg.Cosigners())
      modifies this
      ensures Valid() && FilesGrow(old(files), files)
      ensures reply == Refused(Internal) ==> faulty && db == old(db)
      ensures reply != Refused(Internal) ==>
                Ran(cfg, old(db), Call.PostOperation(c, parts, now, keys), db, reply)
      ensures !reply.Refused? ==>
                && reply == Posted(|db.operations|) && E.PostRecorded(cfg, old(db), db, c, parts, now)
                && (forall i | 0 <= i < |parts| && parts[i].FilePart? :: Keeps(cfg, files, parts[i].content))
    {
      hide Ran, S.Valid, Exec, ParsePost, HasPendingOperation, HasUnprocessedOperation, PostedDb;
      ghost var call := Call.PostOperation(c, parts, now, keys);
      ExecRuns(cfg, db, call);
      PostOutcome(cfg, db, call);
      // checks
      if HasPendingOperation(db) {
        return Refused(AnotherOperationPending);
      }
      if HasUnprocessedOperation(db, c) {
        return Refused(InitiatorHasUnprocessed);
      }
      var read := ReadPostForm(parts);
      if read.Err? {
        return Refused(read.error);
      }
      var form := read.value;
      if (form.files == [] && form.psbt.None?) || form.opType.None? {
        return Refused(InvalidRequest);
      }
      var opType := form.opType.value;
      if !SeedFits(opType, form.seed) {
        return Refused(InvalidRequest);
      }
      // transaction
      PostedLength(cfg, db, c, opType, form, now, keys);
      E.PostedRecorded(cfg, db, call);
      ghost var before := db;
      reply := CommitPost(c, opType, form, now, keys);
      if !reply.Refused? {
        E.PartsKept(cfg, before.opFiles, db.opFiles, |before.operations| + 1, parts, files);
      }
    }

    /** The transaction of an accepted post. */
    method CommitPost(c: int, opType: OperationType, form: PostForm, now: int, keys: seq<int>) returns (reply: Reply)
      requires Integrity(cfg, files) && Stored(files, db.opFiles)
      requires S.OperationsOk(db.operations) && FilesNumbered(db) && StatusesNumbered(db)
      modifies this
      ensures Integrity(cfg, files) && Stored(files, db.opFiles) && FilesGrow(old(files), files)
      ensures reply == Refused(Internal) ==> faulty && db == old(db)
      ensures reply != Refused(Internal) ==>
                && reply == Posted(|old(db.operations)| + 1)
                && db == PostedDb(cfg, old(db), c, opType, form, now, keys)
    {
      hide FileRows, FreshRows;
      NextOperationIs(db);
      var operationIdx := NextOperationIdx(db);
      var txn := SetOperation(db, opType, A.InitialStatus(opType), c, form.seed, now);
      ghost var files0 := files;
      var ok;
      ok, txn := StageFiles(txn, Uploads(form), operationIdx);
      StillStored(files0, files, db.opFiles);
      if !ok {
        return Refused(Internal);
      }
      ok, txn := StageStatuses(txn, keys, operationIdx);
      if !ok {
        return Refused(Internal);
      }
      // commit
      db := txn;
      reply := Posted(operationIdx);
    }

    /** Counts the staged votes of an operation and gives it the status they deserve. */
    method SettleStaged(staged: Db, op: Operation) returns (txn: Db)
      requires ReadyToSettle(cfg, staged, op)
      ensures txn == WithStatus(staged, op, IdealStatus(cfg, staged, op))
    {
      hide S.VotesOn, ByteArithmetic.DecideU8, Tally, EntriesOf, IdealStatus, S.OperationsOk, S.Unique, Decides,
           WithStatus, UpdateOperation;
      SettlesTo(cfg, staged, op);
      StatusStaged(staged, op, IdealStatus(cfg, staged, op));
      txn := staged;
      var (acks, nacks) := Tally(EntriesOf(txn.statuses, op.idx));
      var threshold := cfg.Threshold(op.opType);
      assert threshold.Some?;  // "threshold should be set for non-auto-approved operations"
      var decided := ByteArithmetic.DecideU8(cfg.overflowChecks, |cfg.Cosigners()|, threshold.value, acks, nacks);
      assert decided.Some?;    // no u8 overflow or underflow
      if decided.value != Pending {
        txn := UpdateOperation(txn, op.(status := decided.value));
      }
    }

    /** The checks on a response: the operation and the row it votes on, or the refusal. */
    method CheckResponse(c: int, form: RespondForm, ghost call: Call)
      returns (r: Result<(Operation, CosignerOpStatus), ApiError>)
      requires S.Shaped(cfg, db) && c in cfg.Cosigners()
      requires call.RespondToOperation? && call.c == c && call.response == form
      ensures r.Err? ==> r.error != Internal && !AsksFor(cfg, db, call) && Exec(cfg, db, call) == (db, Refused(r.error))
      ensures r.Ok? ==>
                && AsksFor(cfg, db, call) && form.request.Some?
                && GetOperationByIdx(db, Subject(call)) == Some(r.value.0)
                && GetEntry(db.statuses, c, Subject(call)) == Some(r.value.1)
    {
      if form.request.None? || (form.request.value.ack && form.psbt.None?) {
        return Err(InvalidRequest);
      }
      RespondPlan(cfg, db, call);
      var req := form.request.value;
      var found := GetOperationByIdx(db, req.operationIdx);
      if found.None? {
        return Err(OperationNotFound);
      }
      if found.value.status != Pending {
        return Err(OperationNotPending);
      }
      var row := GetEntry(db.statuses, c, req.operationIdx);
      assert row.Some?;  // "CosignerOpStatus entry should exist"
      if row.value.ack.Some? {
        return Err(AlreadyResponded);
      }
      if req.operationIdx != GetLastProcessedOpIdx(db, c) + 1 {
        return Err(NotNextToProcess);
      }
      r := Ok((found.value, row.value));
    }

    /** Once the vote and its PSBT are committed, the view is read under the same lock; a read
        that fails turns the answer into an error, but not the vote. */
    method RespondToOperation(c: int, form: RespondForm, now: int)
      returns (reply: Reply, view: Result<Option<OperationResponse>, ApiError>)
      requires Valid() && c in cfg.Cosigners()
      modifies this
      ensures Valid() && FilesGrow(old(files), files)
      ensures reply == Refused(Internal) ==> faulty && db == old(db)
      ensures reply != Refused(Internal) ==>
                Ran(cfg, old(db), Call.RespondToOperation(c, form, now), db, reply)
      ensures !reply.Refused? ==>
                && reply.Responded? && form.request.Some? && WroteResponse(old(db), c, form, now)
                && ((faulty && view == Err(Internal))
                    || (view.Ok? && view == View(cfg, db, db, db, files, reply.idx, Some(c))))
    {
      view := Err(Internal);
      reply := CommitResponse(c, form, now);
      if reply.Refused? {
        return;
      }
      ghost var opDb, voteDb, fileDb;
      view, opDb, voteDb, fileDb := GetOperationByIdxWithFiles(reply.idx, Some(c), true);
    }

    /** The vote, its time and its PSBT are in the tables, and the PSBT is in the files. */
    ghost predicate WroteResponse(before: Db, c: int, form: RespondForm, now: int)
      reads this
      requires form.request.Some?
    {
      && E.ResponseRecorded(cfg, before, db, c, form.request.value.operationIdx, form.request.value.ack, form.psbt, now)
      && (form.psbt.Some? ==> Keeps(cfg, files, form.psbt.value))
    }

    method CommitResponse(c: int, form: RespondForm, now: int) returns (reply: Reply)
      requires Valid() && c in cfg.Cosigners()
      modifies this
      ensures Valid() && FilesGrow(old(files), files)
      ensures reply == Refused(Internal) ==> faulty && db == old(db)
      ensures reply != Refused(Internal) ==>
                Ran(cfg, old(db), Call.RespondToOperation(c, form, now), db, reply)
      ensures !reply.Refused? ==> reply.Responded? && form.request.Some? && WroteResponse(old(db), c, form, now)
    {
      hide Ran, S.Valid, S.Shaped, Exec, Votable, Decides, VotedDb, RespondedDb, ReadyToSettle, IdealStatus, AsksFor;
      ghost var call := Call.RespondToOperation(c, form, now);
      ExecRuns(cfg, db, call);
      ValidIsSane(cfg, db);
      // checks
      var checked := CheckResponse(c, form, call);
      if checked.Err? {
        return Refused(checked.error);
      }
      var (op, entry) := checked.value;
      var req := form.request.value;
      // transaction
      ghost var _, _ := RespondResult(cfg, db, call);
      StagedIsReady(cfg, db, op, entry, req.ack, form.psbt, now);
      var txn := StageVote(op, entry, req.ack, form.psbt, now);
      if txn.None? {
        return Refused(Internal);
      }
      var settled := SettleStaged(txn.value, op);
      // commit
      ghost var before := db;
      ghost var r := E.RespondWrites(cfg, db, call);
      db := settled;
      reply := Responded(req.operationIdx);
      if form.psbt.Some? {
        E.PsbtKept(cfg, before, db, c, req.operationIdx, req.ack, form.psbt.value, now, files);
      }
    }

    /** Stages the response PSBT and the vote. */
    method StageVote(op: Operation, entry: CosignerOpStatus, ack: bool, psbt: Option<Bytes>, now: int)
      returns (txn: Option<Db>)
      requires Valid() && entry in db.statuses && entry.operationIdx == op.idx
      modifies this`files
      ensures Integrity(cfg, files) && FilesGrow(old(files), files)
      ensures 1 <= entry.idx <= |db.statuses|
      ensures txn.None? ==> faulty
      ensures txn.Some? ==> Stored(files, txn.value.opFiles) && txn.value == VotedDb(cfg, db, entry, ack, psbt, now)
    {
      RowInPlace(cfg, db, entry);
      NextFileIs(db);
      var psbtOpFileIdx := if psbt.Some? then Some(NextOpFileIdx(db)) else entry.psbtOpFileIdx;
      var ok, staged := StageFiles(db, PsbtUploads(psbt, FileType.ResponsePsbt), op.idx);
      if !ok {
        return None;
      }
      var voted := entry.(ack := Some(ack), respondedAt := Some(now), psbtOpFileIdx := psbtOpFileIdx);
      RowReplaced(staged, voted);
      staged := UpdateCosignerOpStatus(staged, voted);
      var fails := CallFails();
      if fails {
        return None;
      }
      txn := Some(staged);
    }

    method MarkOperationProcessed(c: int, idx: int, now: int) returns (reply: Reply)
      requires Valid() && c in cfg.Cosigners()
      modifies this`db
      ensures Valid()
      ensures reply == Refused(Internal) ==> faulty && db == old(db)
      ensures reply != Refused(Internal) ==>
                Ran(cfg, old(db), Call.MarkOperationProcessed(c, idx, now), db, reply)
      ensures !reply.Refused? ==> E.MarkRecorded(old(db), db, c, idx, now)
    {
      hide Ran, S.Valid, S.Shaped, Exec, GetEntry, GetOperationByIdx;
      ghost var call := Call.MarkOperationProcessed(c, idx, now);
      ExecRuns(cfg, db, call);
      ValidIsSane(cfg, db);
      MarkOutcome(cfg, db, call);
      var op := GetOperationByIdx(db, idx);
      if op.None? {
        return Refused(OperationNotFound);
      }
      if op.value.status == Pending {
        return Refused(PendingCannotBeProcessed);
      }
      var entry := GetEntry(db.statuses, c, idx);
      if entry.None? {
        return Refused(OperationNotFound);
      }
      if entry.value.processedAt.Some? {
        return Refused(AlreadyProcessed);
      }
      var fails := CallFails();
      if fails {
        return Refused(Internal);
      }
      E.AcceptedAsks(cfg, db, call);
      ghost var r := E.MarkWrites(cfg, db, call);
      db := UpdateCosignerOpStatus(db, entry.value.(processedAt := Some(now)));
      reply := Marked;
    }

    method BumpAddressIndices(count: byte, internal: bool) returns (reply: Reply)
      requires Valid()
      modifies this`db
      ensures Valid()
      ensures reply == Refused(Internal) ==> faulty && db == old(db)
      ensures reply != Refused(Internal) ==>
                Ran(cfg, old(db), Call.BumpAddressIndices(count, internal), db, reply)
    {
      hide Ran, S.Valid, Exec;
      ghost var call := Call.BumpAddressIndices(count, internal);
      ExecRuns(cfg, db, call);
      BumpOutcome(cfg, db, call);
      if count == 0 {
        return Refused(InvalidCount);
      }
      var index := db.nextAddress.value;
      var first := if internal then index.internal else index.external;
      if first + count >= U32_LIMIT {
        return Refused(AddressOverflow);
      }
      if internal {
        index := index.(internal := first + count);
      } else {
        index := index.(external := first + count);
      }
      var fails := CallFails();
      if fails {
        return Refused(Internal);
      }
      db := db.(nextAddress := Some(index));
      reply := Bumped(first);
    }

    method PutTransferStatus(c: int, batch: int, accepted: bool, now: int)
      returns (reply: Reply, info: Option<TransferStatusInfo>)
      requires Valid() && c in cfg.Cosigners()
      modifies this`db
      ensures Valid()
      ensures reply == Refused(Internal) ==> faulty && db == old(db)
      ensures reply != Refused(Internal) ==>
                Ran(cfg, old(db), Call.PutTransferStatus(c, batch, accepted, now), db, reply)
      ensures info.Some? <==> reply.TransferSet?
      ensures info.Some? ==>
                && GetTransferStatus(db, batch) == Some(reply.row) && reply.row.cosignerIdx in cfg.xpubs
                && info.value.cosignerXpub == cfg.xpubs[reply.row.cosignerIdx]
                && info.value.registeredAt == reply.row.registeredAt
                && info.value.accepted == reply.row.accepted == accepted
      ensures info.Some? && GetTransferStatus(old(db), batch).None? ==>
                info.value == TransferStatusInfo(cfg.xpubs[c], accepted, now)
    {
      hide Ran, S.Valid, Exec, GetTransferStatus;
      ghost var call := Call.PutTransferStatus(c, batch, accepted, now);
      ExecRuns(cfg, db, call);
      TransferOutcome(cfg, db, call);
      info := None;
      var existing := GetTransferStatus(db, batch);
      if existing.Some? {
        if existing.value.accepted != accepted {
          return Refused(TransferStatusMismatch), None;
        }
        RegisteredByCosigner(cfg, db, batch);
        reply := TransferSet(existing.value);
      } else {
        var fails := CallFails();
        if fails {
          return Refused(Internal), None;
        }
        var inserted := SetTransferStatus(db, batch, c, now, accepted);
        reply := TransferSet(inserted.transfers[|db.transfers|]);
        ghost var before := db;
        db := inserted;
        InsertedFound(cfg, before, db, batch);
      }
      info := Some(TransferStatusInfo(Xpub(cfg, reply.row.cosignerIdx), reply.row.accepted, reply.row.registeredAt));
    }

    method GetTransferStatusInfo(batch: int) returns (info: Option<TransferStatusInfo>)
      ensures info.Some? <==> GetTransferStatus(db, batch).Some?
      ensures info.Some? ==>
                var row := GetTransferStatus(db, batch).value;
                && info.value.cosignerXpub == Xpub(cfg, row.cosignerIdx)
                && info.value.accepted == row.accepted && info.value.registeredAt == row.registeredAt
    {
      var row := GetTransferStatus(db, batch);
      info := None;
      if row.Some? {
        info := Some(TransferStatusInfo(Xpub(cfg, row.value.cosignerIdx), row.value.accepted, row.value.registeredAt));
      }
    }

    // ----- reading -----

    /** Any number of other requests run between two reads, unless the reader holds the
        lock. Only the contract matters: the tables move on by whole requests, and files
        only appear. */
    method OtherRequests(ghost locked: bool)
      requires Valid()
      modifies this
      ensures Valid() && Later(cfg, old(db), old(files), db, files)
      ensures locked ==> db == old(db) && files == old(files)
    {
      ReachesReflexive(cfg, db);
    }

    /** The size of a stored file, read after other requests ran. */
    method ReadMetadata(fileId: FileId, ghost locked: bool) returns (size: nat)
      requires Valid() && fileId in files
      modifies this
      ensures Valid() && Later(cfg, old(db), old(files), db, files)
      ensures locked ==> db == old(db) && files == old(files)
      ensures fileId in files && size == |files[fileId]|
    {
      hide S.Valid, Reaches;
      OtherRequests(locked);
      assert fileId in files;  // the file's metadata can be read
      size := |files[fileId]|;
    }

    /** The row of a response PSBT, read after other requests ran. */
    method ReadPsbtRow(entry: CosignerOpStatus, ghost voteDb: Db, ghost locked: bool) returns (row: OpFile)
      requires Valid() && Since(voteDb)
      requires entry in voteDb.statuses && entry.psbtOpFileIdx.Some?
      modifies this
      ensures Valid() && Later(cfg, old(db), old(files), db, files) && Since(voteDb)
      ensures locked ==> db == old(db) && files == old(files)
      ensures GetOpFileByIdx(voteDb, entry.psbtOpFileIdx.value) == Some(row) && row.fileId in files
    {
      hide A.Inv, S.StatusesOk, Reaches, DbGrows;
      OtherRequests(locked);
      StillSince(cfg, voteDb, old(db), old(files), db, files);
      PsbtStillFound(cfg, voteDb, db, entry);
      var psbt := GetOpFileByIdx(db, entry.psbtOpFileIdx.value);
      assert psbt.Some?;  // "PSBT op file should exist"
      row := psbt.value;
    }

    /** The rows of an operation, each with its cosigner; None when a cosigner is missing. */
    method EntriesWithCosigners(idx: int) returns (entries: Option<seq<(CosignerOpStatus, string)>>)
      ensures entries.Some? <==> Known(cfg, EntriesOf(db.statuses, idx))
      ensures entries.Some? ==> entries.value == WithXpubs(cfg, EntriesOf(db.statuses, idx))
    {
      var rows := EntriesOf(db.statuses, idx);
      var found := [];
      for i := 0 to |rows|
        invariant forall j | 0 <= j < i :: rows[j].cosignerIdx in cfg.xpubs
        invariant found == WithXpubs(cfg, rows[..i])
      {
        if rows[i].cosignerIdx !in cfg.xpubs {
          return None;
        }
        found := found + [(rows[i], cfg.xpubs[rows[i].cosignerIdx])];
      }
      assert rows[..|rows|] == rows;
      entries := Some(found);
    }

    method FindMine(entries: seq<(CosignerOpStatus, string)>, ghost rows: seq<CosignerOpStatus>, viewer: Option<int>)
      returns (mine: Option<CosignerOpStatus>)
      requires entries == WithXpubs(cfg, rows) && S.DistinctCosigners(rows)
      ensures mine == Mine(rows, viewer)
    {
      mine := None;
      if viewer.Some? {
        for i := 0 to |entries|
          invariant forall j | 0 <= j < i :: rows[j].cosignerIdx != viewer.value
        {
          if entries[i].0.cosignerIdx == viewer.value {
            MineFound(rows, i, viewer.value);
            return Some(entries[i].0);
          }
        }
        MineMissing(rows, viewer.value);
      }
    }

    method CollectSides(entries: seq<(CosignerOpStatus, string)>, ghost rows: seq<CosignerOpStatus>)
      returns (ackedBy: set<string>, nackedBy: set<string>)
      requires entries == WithXpubs(cfg, rows)
      ensures ackedBy == Xpubs(cfg, S.Ackers(rows, true)) && nackedBy == Xpubs(cfg, S.Ackers(rows, false))
    {
      ackedBy, nackedBy := {}, {};
      for i := 0 to |entries|
        invariant ackedBy == Xpubs(cfg, S.Ackers(rows[..i], true))
        invariant nackedBy == Xpubs(cfg, S.Ackers(rows[..i], false))
      {
        SidesStep(cfg, rows, i, true);
        SidesStep(cfg, rows, i, false);
        match entries[i].0.ack
        case Some(true) => ackedBy := ackedBy + {entries[i].1};
        case Some(false) => nackedBy := nackedBy + {entries[i].1};
        case None =>
      }
      assert rows[..|rows|] == rows;
    }

    /** Reads the sizes of an operation's own files. */
    method ReadOwnFiles(rows: seq<OpFile>, xpub: string, ghost locked: bool) returns (metas: seq<FileMetadata>)
      requires Valid() && Present(rows, files)
      modifies this
      ensures Valid() && Later(cfg, old(db), old(files), db, files)
      ensures locked ==> db == old(db) && files == old(files)
      ensures OwnFiles(xpub, rows, files) == Ok(metas)
    {
      hide S.Valid, Reaches, Integrity;
      metas := [];
      LaterReflexive(cfg, db, files);
      assert OwnFiles(xpub, rows[..0], files).value == [];
      for i := 0 to |rows|
        invariant Valid() && Later(cfg, old(db), old(files), db, files) && Present(rows, files)
        invariant locked ==> db == old(db) && files == old(files)
        invariant OwnFiles(xpub, rows[..i], files) == Ok(metas)
      {
        ghost var dbBefore, filesBefore := db, files;
        var size := ReadMetadata(rows[i].fileId, locked);
        LaterTransitive(cfg, old(db), old(files), dbBefore, filesBefore, db, files);
        OwnFilesStable(xpub, rows[..i], filesBefore, files);
        OwnFilesStep(xpub, rows, files, i);
        metas := metas + [FileMetadata(rows[i].fileId, rows[i].fileType, xpub, size)];
      }
      assert rows[..|rows|] == rows;
    }

    /** The state `voteDb`, from which the entries were read, lies behind. */
    ghost predicate Since(voteDb: Db)
      reads this
    {
      S.Valid(cfg, voteDb) && Reaches(cfg, voteDb, db) && Stored(files, voteDb.opFiles)
    }

    /** One response PSBT: its row and its size. */
    method ReadResponseFile(entry: CosignerOpStatus, xpub: string, ghost voteDb: Db, ghost locked: bool)
      returns (meta: FileMetadata)
      requires Valid() && Since(voteDb) && entry in voteDb.statuses && entry.psbtOpFileIdx.Some?
      modifies this
      ensures Valid() && Later(cfg, old(db), old(files), db, files) && Since(voteDb)
      ensures locked ==> db == old(db) && files == old(files)
      ensures var row := GetOpFileByIdx(voteDb, entry.psbtOpFileIdx.value);
              && row.Some? && row.value.fileId in files
              && meta == FileMetadata(row.value.fileId, FileType.ResponsePsbt, xpub, |files[row.value.fileId]|)
    {
      hide S.Valid, Reaches, Integrity, GetOpFileByIdx;
      var row := ReadPsbtRow(entry, voteDb, locked);
      ghost var dbMid, filesMid := db, files;
      var size := ReadMetadata(row.fileId, locked);
      LaterTransitive(cfg, old(db), old(files), dbMid, filesMid, db, files);
      StillSince(cfg, voteDb, old(db), old(files), db, files);
      meta := FileMetadata(row.fileId, FileType.ResponsePsbt, xpub, size);
    }

    /** Reads the response PSBTs of the cosigners other than the initiator. */
    method ReadResponseFiles(
      entries: seq<(CosignerOpStatus, string)>, ghost rows: seq<CosignerOpStatus>, initiator: string,
      ghost voteDb: Db, ghost locked: bool)
      returns (metas: seq<FileMetadata>)
      requires Valid() && Since(voteDb)
      requires entries == WithXpubs(cfg, rows) && forall e | e in rows :: e in voteDb.statuses
      modifies this
      ensures Valid() && Later(cfg, old(db), old(files), db, files)
      ensures locked ==> db == old(db) && files == old(files)
      ensures ResponseFiles(cfg, initiator, rows, voteDb, files) == Ok(metas)
    {
      hide S.Valid, Reaches, Integrity, GetOpFileByIdx;
      metas := [];
      LaterReflexive(cfg, db, files);
      for i := 0 to |entries|
        invariant Valid() && Later(cfg, old(db), old(files), db, files) && Since(voteDb)
        invariant locked ==> db == old(db) && files == old(files)
        invariant ResponseFiles(cfg, initiator, rows[..i], voteDb, files) == Ok(metas)
      {
        var (entry, xpub) := entries[i];
        assert entry in rows;
        if xpub != initiator && entry.psbtOpFileIdx.Some? {
          ghost var dbBefore, filesBefore := db, files;
          var meta := ReadResponseFile(entry, xpub, voteDb, locked);
          LaterTransitive(cfg, old(db), old(files), dbBefore, filesBefore, db, files);
          ResponseFilesStable(cfg, initiator, rows[..i], voteDb, filesBefore, files);
          ResponseFilesStep(cfg, initiator, rows, voteDb, files, i);
          metas := metas + [meta];
        } else {
          ResponseFilesStep(cfg, initiator, rows, voteDb, files, i);
        }
      }
      assert rows[..|rows|] == rows;
    }

    /** All the files of a view; `fileDb` is the state its file rows were read from. */
    method ReadFiles(
      idx: int, entries: seq<(CosignerOpStatus, string)>, ghost rows: seq<CosignerOpStatus>, initiator: string,
      ghost voteDb: Db, ghost locked: bool)
      returns (own: seq<FileMetadata>, responses: seq<FileMetadata>, ghost fileDb: Db)
      requires Valid() && db == voteDb && 1 <= idx <= |voteDb.operations|
      requires entries == WithXpubs(cfg, rows) && rows == EntriesOf(voteDb.statuses, idx)
      modifies this
      ensures Valid() && FilesGrow(old(files), files)
      ensures locked ==> db == old(db) && files == old(files) && fileDb == db
      ensures Reaches(cfg, voteDb, fileDb) && Reaches(cfg, fileDb, db) && GetOperationByIdx(fileDb, idx).Some?
      ensures OwnFiles(initiator, GetOpFilesOf(fileDb, idx), files) == Ok(own)
      ensures ResponseFiles(cfg, initiator, rows, voteDb, files) == Ok(responses)
    {
      OtherRequests(locked);
      fileDb := db;
      OperationStays(cfg, voteDb, fileDb, idx);
      hide S.Valid, Reaches, Integrity, GetOpFilesOf, EntriesOf;
      assert GetOperationByIdx(db, idx).Some?;  // "operation not found" does not happen
      var opFiles := GetOpFilesOf(db, idx);
      ghost var files1 := files;
      FilesPresent(db, idx, files);
      own := ReadOwnFiles(opFiles, initiator, locked);
      ghost var db2, files2 := db, files;
      LaterTransitive(cfg, voteDb, old(files), fileDb, files1, db2, files2);
      StillStored(old(files), files2, voteDb.opFiles);
      EntriesAreRows(voteDb.statuses, idx);
      responses := ReadResponseFiles(entries, rows, initiator, voteDb, locked);
      LaterTransitive(cfg, fileDb, files1, db2, files2, db, files);
      LaterTransitive(cfg, voteDb, old(files), fileDb, files1, db, files);
      OwnFilesStable(initiator, opFiles, files2, files);
    }

    /** The view of an operation, read piece by piece while other requests commit, or under
        the lock. It is the view of three snapshots in the order they were read, unless the
        database or the file system fails; no lookup that should succeed ever misses. */
    method GetOperationByIdxWithFiles(idx: int, viewer: Option<int>, ghost locked: bool)
      returns (view: Result<Option<OperationResponse>, ApiError>, ghost opDb: Db, ghost voteDb: Db, ghost fileDb: Db)
      requires Valid()
      modifies this
      ensures Valid() && FilesGrow(old(files), files)
      ensures locked ==> db == old(db) && files == old(files) && opDb == voteDb == fileDb == db
      ensures opDb == old(db) && Reaches(cfg, opDb, voteDb)
      ensures Reaches(cfg, voteDb, fileDb) && Reaches(cfg, fileDb, db)
      ensures (faulty && view == Err(Internal)) ||
              (view.Ok? && view == View(cfg, opDb, voteDb, fileDb, files, idx, viewer))
    {
      hide S.Sane, S.ConfigFits, Reaches, Integrity, Stored, EntriesOf, GetOpFilesOf;
      opDb, voteDb, fileDb := db, db, db;
      ReachesReflexive(cfg, db);
      var fails := CallFails();
      if fails {
        return Err(Internal), opDb, voteDb, fileDb;
      }
      var found := GetOperationByIdx(db, idx);
      if found.None? {
        return Ok(None), opDb, voteDb, fileDb;
      }
      var op := found.value;
      OperationFound(cfg, db, idx);
      assert op.initiatorIdx in cfg.xpubs;  // "initiator should be set"
      var initiator := cfg.xpubs[op.initiatorIdx];
      ghost var files0 := files;
      OtherRequests(locked);
      voteDb := db;
      OperationStays(cfg, opDb, voteDb, idx);
      ghost var rows := EntriesOf(db.statuses, idx);
      RowsAreFine(cfg, db, idx);
      var entries := EntriesWithCosigners(idx);
      assert entries.Some?;  // "CosignerOpStatus entry missing cosigner" does not happen
      var mine := FindMine(entries.value, rows, viewer);
      var own, responses;
      own, responses, fileDb := ReadFiles(idx, entries.value, rows, initiator, voteDb, locked);
      var ackedBy, nackedBy := CollectSides(entries.value, rows);
      view := Ok(Some(OperationResponse(
        op.idx, initiator, op.seed, op.createdAt, op.opType, op.status, ackedBy, nackedBy,
        cfg.Threshold(op.opType),
        if mine.Some? then mine.value.ack else None,
        if mine.Some? then mine.value.processedAt else None,
        own + responses)));
    }

    /** The last index handed out on each chain, for every history of requests that can have
        led here from the first start. */
    method GetCurrentAddressIndices() returns (internal: Option<int>, external: Option<int>)
      requires Valid()
      ensures forall calls | AllWellFormed(cfg, calls) && ExecAll(cfg, INITIAL_DB, calls) == db ::
                internal == LastIssued(Ranges(cfg, INITIAL_DB, calls, true))
      ensures forall calls | AllWellFormed(cfg, calls) && ExecAll(cfg, INITIAL_DB, calls) == db ::
                external == LastIssued(Ranges(cfg, INITIAL_DB, calls, false))
    {
      assert db.nextAddress.Some?;  // "has been created at startup time"
      var index := db.nextAddress.value;
      internal := if index.internal == 0 then None else Some(index.internal - 1);
      external := if index.external == 0 then None else Some(index.external - 1);
      assert internal == CurrentIndex(db, true) && external == CurrentIndex(db, false);
      hide S.Sane, Ranges, ExecAll, WellFormed;
      forall calls | AllWellFormed(cfg, calls) && ExecAll(cfg, INITIAL_DB, calls) == db
        ensures internal == LastIssued(Ranges(cfg, INITIAL_DB, calls, true))
        ensures external == LastIssued(Ranges(cfg, INITIAL_DB, calls, false))
      {
        ValidParts(cfg, db);
        CurrentIsLastIssued(cfg, calls, true);
        CurrentIsLastIssued(cfg, calls, false);
      }
    }
  }
}
