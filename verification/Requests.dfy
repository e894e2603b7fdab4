/** The five writing handlers, each as the reads it makes under the write lock and the
    transaction it then stages; `Exec` is one request executed without interference. */
module Requests {
  import opened HubTypes
  import opened Tables
  import opened Forms

  datatype Response = Response(operationIdx: int, ack: bool)

  /** The parsed multipart form of a response. */
  datatype RespondForm = RespondForm(request: Option<Response>, psbt: Option<Bytes>)

  /** `now` is the clock reading and `keys` the iteration order of the cosigner map. */
  datatype Call =
    | PostOperation(c: int, parts: seq<Part>, now: int, keys: seq<int>)
    | RespondToOperation(c: int, response: RespondForm, now: int)
    | MarkOperationProcessed(c: int, idx: int, now: int)
    | BumpAddressIndices(count: byte, internal: bool)
    | PutTransferStatus(c: int, batch: int, accepted: bool, now: int)

  ghost predicate Enumerates(keys: seq<int>, cosigners: set<int>) {
    && (forall c :: c in keys <==> c in cosigners)
    && (forall i, j | 0 <= i < j < |keys| :: keys[i] != keys[j])
  }

  /** A call that authentication lets through: its cosigner is a configured one. */
  ghost predicate WellFormed(cfg: Config, call: Call) {
    && (!call.BumpAddressIndices? ==> call.c in cfg.Cosigners())
    && (call.PostOperation? ==> Enumerates(call.keys, cfg.Cosigners()))
  }

  // ----- the reads -----

  datatype Query = QPending | QUnprocessed | QOperation | QEntry | QLastProcessed | QNextAddress | QTransfer

  /** The answers a handler has received so far. */
  datatype Seen = Seen(
    pending: Option<bool>,
    unprocessed: Option<bool>,
    operation: Option<Option<Operation>>,
    entry: Option<Option<CosignerOpStatus>>,
    lastProcessed: Option<int>,
    nextAddress: Option<Option<NextAddressIndex>>,
    transfer: Option<Option<TransferStatus>>)

  const NOTHING_SEEN := Seen(None, None, None, None, None, None, None)

  /** The operation a call is about, 0 when it is about none. */
  function Subject(call: Call): int {
    match call
    case RespondToOperation(_, form, _) => if form.request.Some? then form.request.value.operationIdx else 0
    case MarkOperationProcessed(_, idx, _) => idx
    case _ => 0
  }

  function Caller(call: Call): int {
    if call.BumpAddressIndices? then 0 else call.c
  }

  function Batch(call: Call): int {
    if call.PutTransferStatus? then call.batch else 0
  }

  /** One read of the committed tables. */
  function Answer(db: Db, call: Call, q: Query, seen: Seen): Seen {
    var c := Caller(call);
    match q
    case QPending => seen.(pending := Some(HasPendingOperation(db)))
    case QUnprocessed => seen.(unprocessed := Some(HasUnprocessedOperation(db, c)))
    case QOperation => seen.(operation := Some(GetOperationByIdx(db, Subject(call))))
    case QEntry => seen.(entry := Some(GetEntry(db.statuses, c, Subject(call))))
    case QLastProcessed => seen.(lastProcessed := Some(GetLastProcessedOpIdx(db, c)))
    case QNextAddress => seen.(nextAddress := Some(db.nextAddress))
    case QTransfer => seen.(transfer := Some(GetTransferStatus(db, Batch(call))))
  }

  // ----- the decisions -----

  datatype Plan =
    | Read(query: Query)
    | Refuse(error: ApiError)
    | Commit(script: seq<Write>, reply: Reply)

  function FileWrites(cfg: Config, uploads: seq<Upload>): seq<Write> {
    if uploads == [] then []
    else [PersistFile(uploads[0].content), InsertOpFile(uploads[0].fileType, cfg.digest(uploads[0].content))]
         + FileWrites(cfg, uploads[1..])
  }

  function StatusWrites(keys: seq<int>): seq<Write> {
    if keys == [] then [] else [InsertStatus(keys[0])] + StatusWrites(keys[1..])
  }

  function PostScript(
    cfg: Config, c: int, opType: OperationType, form: PostForm, now: int, keys: seq<int>): seq<Write>
  {
    [InsertOperation(opType, c, form.seed, now)] + FileWrites(cfg, Uploads(form)) + StatusWrites(keys)
  }

  function PlanPost(cfg: Config, c: int, parts: seq<Part>, now: int, keys: seq<int>, seen: Seen): Plan {
    if seen.pending.None? then Read(QPending)
    else if seen.pending.value then Refuse(AnotherOperationPending)
    else if seen.unprocessed.None? then Read(QUnprocessed)
    else if seen.unprocessed.value then Refuse(InitiatorHasUnprocessed)
    else
      match ParsePost(parts)
      case Err(error) => Refuse(error)
      case Ok(form) =>
        if form.files == [] && form.psbt.None? then Refuse(InvalidRequest)
        else if form.opType.None? then Refuse(InvalidRequest)
        else if !SeedFits(form.opType.value, form.seed) then Refuse(InvalidRequest)
        else Commit(PostScript(cfg, c, form.opType.value, form, now, keys), Posted(0))
  }

  /** The form of a post, when it can be read. */
  function FormOf(call: Call): PostForm
    requires call.PostOperation?
  {
    match ParsePost(call.parts)
    case Ok(form) => form
    case Err(_) => EMPTY_FORM
  }

  function RespondScript(
    cfg: Config, op: Operation, entry: CosignerOpStatus, ack: bool, psbt: Option<Bytes>, now: int): seq<Write> {
    FileWrites(cfg, PsbtUploads(psbt, FileType.ResponsePsbt)) + [RecordVote(entry, ack, now), SettleOperation(op)]
  }

  function PlanRespond(cfg: Config, form: RespondForm, now: int, seen: Seen): Plan {
    if form.request.None? then Refuse(InvalidRequest)
    else
      var req := form.request.value;
      if req.ack && form.psbt.None? then Refuse(InvalidRequest)
      else if seen.operation.None? then Read(QOperation)
      else if seen.operation.value.None? then Refuse(OperationNotFound)
      else
        var op := seen.operation.value.value;
        if op.status != Pending then Refuse(OperationNotPending)
        else if seen.entry.None? then Read(QEntry)
        else if seen.entry.value.None? then Refuse(Panic)
        else
          var entry := seen.entry.value.value;
          if entry.ack.Some? then Refuse(AlreadyResponded)
          else if seen.lastProcessed.None? then Read(QLastProcessed)
          else if req.operationIdx != seen.lastProcessed.value + 1 then Refuse(NotNextToProcess)
          else Commit(RespondScript(cfg, op, entry, req.ack, form.psbt, now), Responded(req.operationIdx))
  }

  function PlanMark(now: int, seen: Seen): Plan {
    if seen.operation.None? then Read(QOperation)
    else if seen.operation.value.None? then Refuse(OperationNotFound)
    else if seen.operation.value.value.status == Pending then Refuse(PendingCannotBeProcessed)
    else if seen.entry.None? then Read(QEntry)
    else if seen.entry.value.None? then Refuse(OperationNotFound)
    else if seen.entry.value.value.processedAt.Some? then Refuse(AlreadyProcessed)
    else Commit([RecordProcessed(seen.entry.value.value, now)], Marked)
  }

  function PlanBump(count: byte, internal: bool, seen: Seen): Plan {
    if count == 0 then Refuse(InvalidCount)
    else if seen.nextAddress.None? then Read(QNextAddress)
    else if seen.nextAddress.value.None? then Refuse(Panic)
    else
      var index := seen.nextAddress.value.value;
      var first := if internal then index.internal else index.external;
      if first + count >= U32_LIMIT then Refuse(AddressOverflow)
      else
        var next := if internal then index.(internal := first + count) else index.(external := first + count);
        Commit([AdvanceAddress(next)], Bumped(first))
  }

  function PlanTransfer(c: int, batch: int, accepted: bool, now: int, seen: Seen): Plan {
    if seen.transfer.None? then Read(QTransfer)
    else
      match seen.transfer.value
      case None => Commit([InsertTransfer(batch, c, now, accepted)], Marked)
      case Some(existing) =>
        if existing.accepted == accepted then Commit([], TransferSet(existing))
        else Refuse(TransferStatusMismatch)
  }

  /** What a handler does next, given the answers it has. */
  function Next(cfg: Config, call: Call, seen: Seen): Plan {
    match call
    case PostOperation(c, parts, now, keys) => PlanPost(cfg, c, parts, now, keys, seen)
    case RespondToOperation(_, form, now) => PlanRespond(cfg, form, now, seen)
    case MarkOperationProcessed(_, _, now) => PlanMark(now, seen)
    case BumpAddressIndices(count, internal) => PlanBump(count, internal, seen)
    case PutTransferStatus(c, batch, accepted, now) => PlanTransfer(c, batch, accepted, now, seen)
  }

  // ----- one request, uninterrupted -----

  /** All the answers at once. */
  function Observe(db: Db, call: Call): Seen {
    var c := Caller(call);
    Seen(
      Some(HasPendingOperation(db)),
      Some(HasUnprocessedOperation(db, c)),
      Some(GetOperationByIdx(db, Subject(call))),
      Some(GetEntry(db.statuses, c, Subject(call))),
      Some(GetLastProcessedOpIdx(db, c)),
      Some(db.nextAddress),
      Some(GetTransferStatus(db, Batch(call))))
  }

  function Finish(cfg: Config, db: Db, txn: Txn, script: seq<Write>): (Db, Reply) {
    match StageAll(cfg, txn, script)
    case None => (db, Refused(Panic))
    case Some(done) => (done.db, done.reply)
  }

  function Begin(db: Db, call: Call, reply: Reply): Txn {
    Txn(db, Subject(call), None, reply)
  }

  function Exec(cfg: Config, db: Db, call: Call): (Db, Reply) {
    match Next(cfg, call, Observe(db, call))
    case Read(_) => (db, Refused(Internal))
    case Refuse(error) => (db, Refused(error))
    case Commit(script, reply) => Finish(cfg, db, Begin(db, call, reply), script)
  }

  /** The post that gets to read its form, and meets an empty type part there. */
  predicate PanicsOn(db: Db, call: Call) {
    && call.PostOperation?
    && !HasPendingOperation(db) && !HasUnprocessedOperation(db, call.c)
    && ParsePost(call.parts) == Err(Panic)
  }

  function ExecAll(cfg: Config, db: Db, calls: seq<Call>): Db
    decreases |calls|
  {
    if calls == [] then db else ExecAll(cfg, Exec(cfg, db, calls[0]).0, calls[1..])
  }

  function Replies(cfg: Config, db: Db, calls: seq<Call>): seq<Reply>
    decreases |calls|
  {
    if calls == [] then []
    else [Exec(cfg, db, calls[0]).1] + Replies(cfg, Exec(cfg, db, calls[0]).0, calls[1..])
  }

  lemma {:induction false} OneMoreExec(cfg: Config, db: Db, calls: seq<Call>, call: Call)
    ensures ExecAll(cfg, db, calls + [call]) == Exec(cfg, ExecAll(cfg, db, calls), call).0
    decreases |calls|
  {
    var all := calls + [call];
    if calls == [] {
      assert all[1..] == [];
      assert ExecAll(cfg, Exec(cfg, db, all[0]).0, all[1..]) == Exec(cfg, db, all[0]).0;
    } else {
      assert all[1..] == calls[1..] + [call];
      OneMoreExec(cfg, Exec(cfg, db, calls[0]).0, calls[1..], call);
    }
  }

  lemma {:induction false} OneMoreReply(cfg: Config, db: Db, calls: seq<Call>, call: Call)
    ensures Replies(cfg, db, calls + [call])
         == Replies(cfg, db, calls) + [Exec(cfg, ExecAll(cfg, db, calls), call).1]
    decreases |calls|
  {
    var all := calls + [call];
    if calls == [] {
      assert all[1..] == [];
      assert Replies(cfg, Exec(cfg, db, all[0]).0, all[1..]) == [];
    } else {
      assert all[1..] == calls[1..] + [call];
      OneMoreReply(cfg, Exec(cfg, db, calls[0]).0, calls[1..], call);
    }
  }

  lemma {:induction false} EnumerationSize(keys: seq<int>, cosigners: set<int>)
    requires Enumerates(keys, cosigners)
    ensures |keys| == |cosigners|
    decreases |keys|
  {
    if keys != [] {
      var before, last := keys[..|keys| - 1], keys[|keys| - 1];
      forall c ensures c in before <==> c in cosigners - {last} {
        if c in before {
          var i :| 0 <= i < |before| && before[i] == c;
          assert keys[i] != keys[|keys| - 1];
        }
        if c in cosigners - {last} {
          var i :| 0 <= i < |keys| && keys[i] == c;
          assert before[i] == c;
        }
      }
      EnumerationSize(before, cosigners - {last});
    } else {
      assert cosigners == {} by {
        forall c ensures c !in cosigners { assert c in keys <==> c in cosigners; }
      }
    }
  }

  /** Some iteration order of the cosigner map. */
  lemma {:induction false} SomeOrder(cosigners: set<int>) returns (keys: seq<int>)
    ensures Enumerates(keys, cosigners) && |keys| == |cosigners|
    decreases |cosigners|
  {
    if cosigners == {} {
      keys := [];
    } else {
      if forall d :: d !in cosigners {
        assert false;
      }
      var c :| c in cosigners;
      var rest := SomeOrder(cosigners - {c});
      keys := [c] + rest;
      assert forall d :: d in keys <==> d == c || d in rest;
    }
  }
}
