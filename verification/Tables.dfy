/** The hub's database: row tables, the queries over them, and the staged writes of a
    transaction. Rows are never deleted, and the rows of an aborted transaction vanish. */
module Tables {
  import opened HubTypes
  import ByteArithmetic
  import A = Approval

  datatype Operation = Operation(
    idx: int, opType: OperationType, status: OperationStatus, createdAt: int,
    initiatorIdx: int, seed: Option<Bytes>)

  datatype CosignerOpStatus = CosignerOpStatus(
    idx: int, cosignerIdx: int, operationIdx: int, ack: Option<bool>,
    respondedAt: Option<int>, processedAt: Option<int>, psbtOpFileIdx: Option<int>)

  datatype OpFile = OpFile(idx: int, fileId: FileId, fileType: FileType, operationIdx: int)

  datatype NextAddressIndex = NextAddressIndex(internal: int, external: int)

  datatype TransferStatus = TransferStatus(
    idx: int, batchTransferIdx: int, cosignerIdx: int, registeredAt: int, accepted: bool)

  datatype Db = Db(
    operations: seq<Operation>,
    statuses: seq<CosignerOpStatus>,
    opFiles: seq<OpFile>,
    nextAddress: Option<NextAddressIndex>,
    transfers: seq<TransferStatus>)

  // ----- scans -----

  function First<T(!new)>(rows: seq<T>, p: T -> bool): (r: Option<T>)
    ensures r.Some? ==> r.value in rows && p(r.value)
    ensures r.None? ==> forall x | x in rows :: !p(x)
  {
    if rows == [] then None
    else if p(rows[0]) then Some(rows[0])
    else First(rows[1..], p)
  }

  function Filter<T(!new)>(rows: seq<T>, p: T -> bool): (r: seq<T>)
    ensures forall x :: x in r <==> x in rows && p(x)
  {
    if rows == [] then []
    else
      var last := rows[|rows| - 1];
      Filter(rows[..|rows| - 1], p) + if p(last) then [last] else []
  }

  /** The positions of the rows that match. */
  function Matches<T(!new)>(rows: seq<T>, p: T -> bool): set<nat> {
    set i: nat | i < |rows| && p(rows[i])
  }

  lemma MatchesOneMore<T(!new)>(before: seq<T>, last: T, p: T -> bool)
    ensures Matches(before + [last], p) == Matches(before, p) + (if p(last) then {|before|} else {})
    ensures forall i | i in Matches(before, p) :: i < |before|
  {
    var rows := before + [last];
    assert rows[|before|] == last && forall i: nat | i < |before| :: rows[i] == before[i];
  }

  /** The rows at these positions. */
  ghost predicate Picked<T(!new)>(picked: seq<T>, rows: seq<T>, at: seq<nat>) {
    |picked| == |at| && forall k | 0 <= k < |at| :: at[k] < |rows| && picked[k] == rows[at[k]]
  }

  lemma PickedOneMore<T(!new)>(picked: seq<T>, before: seq<T>, last: T, at: seq<nat>)
    requires Picked(picked, before, at)
    ensures Picked(picked, before + [last], at)
    ensures Picked(picked + [last], before + [last], at + [|before|])
  {
  }

  /** A filter gives exactly the rows that match, each once and in order. */
  lemma {:induction false} FilterLists<T(!new)>(rows: seq<T>, p: T -> bool) returns (at: seq<nat>)
    ensures Lists(at, Matches(rows, p)) && Picked(Filter(rows, p), rows, at)
    decreases |rows|
  {
    hide Lists, Matches, Picked;
    if rows == [] {
      at := [];
      NothingListed(rows, p);
    } else {
      var before, last := rows[..|rows| - 1], rows[|rows| - 1];
      assert rows == before + [last];
      at := FilterLists(before, p);
      MatchesOneMore(before, last, p);
      PickedOneMore(Filter(before, p), before, last, at);
      if p(last) {
        ListsOneMore(at, Matches(before, p), |before|);
        at := at + [|before|];
      } else {
        assert Matches(before, p) + {} == Matches(before, p);
        assert Filter(before, p) + [] == Filter(before, p);
      }
    }
  }

  lemma NothingListed<T(!new)>(rows: seq<T>, p: T -> bool)
    requires rows == []
    ensures Lists([], Matches(rows, p)) && Picked(Filter(rows, p), rows, [])
  {
  }

  /** The largest key among the rows, as a descending order followed by `one`. */
  function Largest<T(!new)>(rows: seq<T>, key: T -> int): (r: Option<int>)
    ensures r.None? <==> rows == []
    ensures r.Some? ==> exists x :: x in rows && key(x) == r.value
    ensures r.Some? ==> forall x | x in rows :: key(x) <= r.value
  {
    if rows == [] then None
    else
      var last := key(rows[|rows| - 1]);
      var before := Largest(rows[..|rows| - 1], key);
      if before.Some? && before.value > last then before else Some(last)
  }

  /** The key an insert is given: one more than the largest so far, starting at 1. */
  function NextIdx<T(!new)>(rows: seq<T>, key: T -> int): int {
    match Largest(rows, key)
    case None => 1
    case Some(largest) => largest + 1
  }

  // ----- queries -----

  function GetOperationByIdx(db: Db, idx: int): Option<Operation> {
    First(db.operations, (o: Operation) => o.idx == idx)
  }

  function HasPendingOperation(db: Db): bool {
    First(db.operations, (o: Operation) => o.status == Pending).Some?
  }

  function GetLastOperationIdx(db: Db): Option<int> {
    Largest(db.operations, (o: Operation) => o.idx)
  }

  function GetEntry(statuses: seq<CosignerOpStatus>, c: int, idx: int): Option<CosignerOpStatus> {
    First(statuses, (e: CosignerOpStatus) => e.cosignerIdx == c && e.operationIdx == idx)
  }

  function HasUnprocessedOperation(db: Db, c: int): bool {
    First(db.statuses, (e: CosignerOpStatus) => e.cosignerIdx == c && e.processedAt.None?).Some?
  }

  function GetLastProcessedOpIdx(db: Db, c: int): int {
    var rows := Filter(db.statuses, (e: CosignerOpStatus) => e.cosignerIdx == c && e.processedAt.Some?);
    match Largest(rows, (e: CosignerOpStatus) => e.operationIdx)
    case None => 0
    case Some(last) => last
  }

  function EntriesOf(statuses: seq<CosignerOpStatus>, idx: int): seq<CosignerOpStatus> {
    Filter(statuses, (e: CosignerOpStatus) => e.operationIdx == idx)
  }

  function GetOpFileByIdx(db: Db, idx: int): Option<OpFile> {
    First(db.opFiles, (f: OpFile) => f.idx == idx)
  }

  function GetOpFilesOf(db: Db, idx: int): seq<OpFile> {
    Filter(db.opFiles, (f: OpFile) => f.operationIdx == idx)
  }

  function GetTransferStatus(db: Db, batch: int): Option<TransferStatus> {
    First(db.transfers, (t: TransferStatus) => t.batchTransferIdx == batch)
  }

  // ----- single row writes -----

  function NextOperationIdx(db: Db): int {
    NextIdx(db.operations, (o: Operation) => o.idx)
  }

  function SetOperation(
    db: Db, opType: OperationType, status: OperationStatus, c: int, seed: Option<Bytes>, now: int): Db {
    db.(operations := db.operations + [Operation(NextOperationIdx(db), opType, status, now, c, seed)])
  }

  function NextOpFileIdx(db: Db): int {
    NextIdx(db.opFiles, (f: OpFile) => f.idx)
  }

  function SetOpFile(db: Db, fileType: FileType, fileId: FileId, operationIdx: int): Db {
    db.(opFiles := db.opFiles + [OpFile(NextOpFileIdx(db), fileId, fileType, operationIdx)])
  }

  function SetCosignerOpStatus(db: Db, c: int, operationIdx: int): Db {
    var idx := NextIdx(db.statuses, (e: CosignerOpStatus) => e.idx);
    db.(statuses := db.statuses + [CosignerOpStatus(idx, c, operationIdx, None, None, None, None)])
  }

  function UpdateCosignerOpStatus(db: Db, row: CosignerOpStatus): Db {
    db.(statuses := seq(|db.statuses|, i requires 0 <= i < |db.statuses| =>
      if db.statuses[i].idx == row.idx then row else db.statuses[i]))
  }

  function UpdateOperation(db: Db, row: Operation): Db {
    db.(operations := seq(|db.operations|, i requires 0 <= i < |db.operations| =>
      if db.operations[i].idx == row.idx then row else db.operations[i]))
  }

  function SetTransferStatus(db: Db, batch: int, c: int, now: int, accepted: bool): Db {
    var idx := NextIdx(db.transfers, (t: TransferStatus) => t.idx);
    db.(transfers := db.transfers + [TransferStatus(idx, batch, c, now, accepted)])
  }

  // ----- the vote count -----

  /** The ACK/NACK fold, before any u8 effect. */
  function Tally(entries: seq<CosignerOpStatus>): (nat, nat) {
    if entries == [] then (0, 0)
    else
      var (acks, nacks) := Tally(entries[..|entries| - 1]);
      match entries[|entries| - 1].ack
      case Some(true) => (acks + 1, nacks)
      case Some(false) => (acks, nacks + 1)
      case None => (acks, nacks)
  }

  // ----- transactions -----

  /** A transaction in flight: the staged tables, and the keys its inserts returned. */
  datatype Txn = Txn(db: Db, operationIdx: int, fileIdx: Option<int>, reply: Reply)

  datatype Write =
    | PersistFile(content: Bytes)
    | InsertOperation(opType: OperationType, initiator: int, seed: Option<Bytes>, now: int)
    | InsertOpFile(fileType: FileType, fileId: FileId)
    | InsertStatus(cosigner: int)
    | RecordVote(entry: CosignerOpStatus, ack: bool, now: int)
    | SettleOperation(op: Operation)
    | RecordProcessed(entry: CosignerOpStatus, now: int)
    | AdvanceAddress(next: NextAddressIndex)
    | InsertTransfer(batch: int, cosigner: int, now: int, accepted: bool)

  datatype Reply =
    | Posted(idx: int)
    | Responded(idx: int)
    | Marked
    | Bumped(first: int)
    | TransferSet(row: TransferStatus)
    | Refused(error: ApiError)

  /** Counts the staged votes and moves the operation to its new status, if any; None is
      a panic. */
  function Settled(cfg: Config, db: Db, op: Operation): Option<Db> {
    var (acks, nacks) := Tally(EntriesOf(db.statuses, op.idx));
    var threshold := cfg.Threshold(op.opType);
    if threshold.None? then None
    else
      match ByteArithmetic.DecideU8(cfg.overflowChecks, |cfg.Cosigners()|, threshold.value, acks, nacks)
      case None => None
      case Some(Pending) => Some(db)
      case Some(status) => Some(UpdateOperation(db, op.(status := status)))
  }

  /** One staged write; None is a panic, which drops the transaction. */
  function Stage(cfg: Config, txn: Txn, w: Write): Option<Txn> {
    match w
    case PersistFile(_) => Some(txn)
    case InsertOperation(opType, c, seed, now) =>
      var idx := NextOperationIdx(txn.db);
      Some(txn.(db := SetOperation(txn.db, opType, A.InitialStatus(opType), c, seed, now),
                operationIdx := idx, reply := Posted(idx)))
    case InsertOpFile(fileType, fileId) =>
      Some(txn.(db := SetOpFile(txn.db, fileType, fileId, txn.operationIdx),
                fileIdx := Some(NextOpFileIdx(txn.db))))
    case InsertStatus(c) =>
      Some(txn.(db := SetCosignerOpStatus(txn.db, c, txn.operationIdx)))
    case RecordVote(entry, ack, now) =>
      var psbt := if txn.fileIdx.Some? then txn.fileIdx else entry.psbtOpFileIdx;
      Some(txn.(db := UpdateCosignerOpStatus(txn.db,
        entry.(ack := Some(ack), respondedAt := Some(now), psbtOpFileIdx := psbt))))
    case SettleOperation(op) =>
      var db := Settled(cfg, txn.db, op);
      if db.None? then None else Some(txn.(db := db.value))
    case RecordProcessed(entry, now) =>
      Some(txn.(db := UpdateCosignerOpStatus(txn.db, entry.(processedAt := Some(now)))))
    case AdvanceAddress(next) =>
      Some(txn.(db := txn.db.(nextAddress := Some(next))))
    case InsertTransfer(batch, c, now, accepted) =>
      var idx := NextIdx(txn.db.transfers, (t: TransferStatus) => t.idx);
      Some(txn.(db := SetTransferStatus(txn.db, batch, c, now, accepted),
                reply := TransferSet(TransferStatus(idx, batch, c, now, accepted))))
  }

  function StageAll(cfg: Config, txn: Txn, script: seq<Write>): Option<Txn>
    decreases |script|
  {
    if script == [] then Some(txn)
    else
      match Stage(cfg, txn, script[0])
      case None => None
      case Some(next) => StageAll(cfg, next, script[1..])
  }

  lemma {:induction false} StageAllAppend(cfg: Config, txn: Txn, a: seq<Write>, b: seq<Write>)
    requires StageAll(cfg, txn, a).Some?
    ensures StageAll(cfg, txn, a + b) == StageAll(cfg, StageAll(cfg, txn, a).value, b)
    decreases |a|
  {
    if a == [] {
      assert a + b == b;
    } else {
      assert (a + b)[1..] == a[1..] + b;
      StageAllAppend(cfg, Stage(cfg, txn, a[0]).value, a[1..], b);
    }
  }
}
