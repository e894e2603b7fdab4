/** Reading the row tables as the abstract log: which tables are well formed, the log
    they stand for, and that every query of the service reads that log correctly. */
module Scans {
  import opened HubTypes
  import ByteArithmetic
  import opened Tables
  import A = Approval

  // ----- entries -----

  /** No two rows for the same cosigner and operation. */
  ghost predicate Unique(rows: seq<CosignerOpStatus>) {
    forall i, j | 0 <= i < j < |rows| ::
      !(rows[i].cosignerIdx == rows[j].cosignerIdx && rows[i].operationIdx == rows[j].operationIdx)
  }

  lemma EntryIs(rows: seq<CosignerOpStatus>, row: CosignerOpStatus)
    requires Unique(rows) && row in rows
    ensures GetEntry(rows, row.cosignerIdx, row.operationIdx) == Some(row)
  {
    var found := GetEntry(rows, row.cosignerIdx, row.operationIdx);
    assert found.Some?;
    var i :| 0 <= i < |rows| && rows[i] == row;
    var j :| 0 <= j < |rows| && rows[j] == found.value;
    if i < j { assert Unique(rows); } else if j < i { assert Unique(rows); }
  }

  lemma EntryFound(rows: seq<CosignerOpStatus>, c: int, o: int)
    requires GetEntry(rows, c, o).Some?
    ensures GetEntry(rows, c, o).value in rows
    ensures GetEntry(rows, c, o).value.cosignerIdx == c && GetEntry(rows, c, o).value.operationIdx == o
  {
  }

  lemma EntryMissing(rows: seq<CosignerOpStatus>, c: int, o: int)
    requires forall row | row in rows :: !(row.cosignerIdx == c && row.operationIdx == o)
    ensures GetEntry(rows, c, o).None?
  {
  }

  predicate HasVote(rows: seq<CosignerOpStatus>, c: int, o: int) {
    GetEntry(rows, c, o).Some? && GetEntry(rows, c, o).value.ack.Some?
  }

  predicate IsProcessed(rows: seq<CosignerOpStatus>, c: int, o: int) {
    GetEntry(rows, c, o).Some? && GetEntry(rows, c, o).value.processedAt.Some?
  }

  function VotesOn(cfg: Config, rows: seq<CosignerOpStatus>, o: int): map<int, bool> {
    map c | c in cfg.Cosigners() && HasVote(rows, c, o) :: GetEntry(rows, c, o).value.ack.value
  }

  function ProcessedBy(cfg: Config, rows: seq<CosignerOpStatus>, o: int): set<int> {
    set c | c in cfg.Cosigners() && IsProcessed(rows, c, o)
  }

  function AbsOp(cfg: Config, rows: seq<CosignerOpStatus>, op: Operation): A.Op {
    A.Op(op.opType, op.status, op.initiatorIdx, op.seed, VotesOn(cfg, rows, op.idx), ProcessedBy(cfg, rows, op.idx))
  }

  /** The log the tables stand for. */
  function Abs(cfg: Config, db: Db): A.State {
    seq(|db.operations|, i requires 0 <= i < |db.operations| => AbsOp(cfg, db.statuses, db.operations[i]))
  }

  /** The log shows the columns of the operation rows. */
  lemma RowSeen(cfg: Config, db: Db, i: nat)
    requires i < |db.operations|
    ensures |Abs(cfg, db)| == |db.operations|
    ensures var op, row := Abs(cfg, db)[i], db.operations[i];
            && op.status == row.status && op.opType == row.opType
            && op.initiator == row.initiatorIdx && op.seed == row.seed
  {
  }

  // ----- well-formed tables -----

  ghost predicate OperationsOk(ops: seq<Operation>) {
    forall i | 0 <= i < |ops| :: ops[i].idx == i + 1
  }

  ghost predicate FilesOk(files: seq<OpFile>, k: int) {
    forall i | 0 <= i < |files| :: files[i].idx == i + 1 && 1 <= files[i].operationIdx <= k
  }

  /** The PSBT a row refers to is a response PSBT of the same operation. */
  ghost predicate PsbtOk(row: CosignerOpStatus, files: seq<OpFile>) {
    row.psbtOpFileIdx.Some? ==>
      var f := row.psbtOpFileIdx.value;
      && 1 <= f <= |files|
      && files[f - 1].fileType == FileType.ResponsePsbt
      && files[f - 1].operationIdx == row.operationIdx
  }

  ghost predicate RowOk(cfg: Config, row: CosignerOpStatus, k: int, files: seq<OpFile>) {
    && row.cosignerIdx in cfg.Cosigners()
    && 1 <= row.operationIdx <= k
    && (row.ack.Some? <==> row.respondedAt.Some?)
    && (row.ack == Some(true) ==> row.psbtOpFileIdx.Some?)
    && (row.psbtOpFileIdx.Some? ==> row.ack.Some?)
    && PsbtOk(row, files)
  }

  /** Each (operation, cosigner) pair has exactly one row. */
  ghost predicate StatusesOk(cfg: Config, rows: seq<CosignerOpStatus>, k: int, files: seq<OpFile>) {
    && (forall i | 0 <= i < |rows| :: rows[i].idx == i + 1 && RowOk(cfg, rows[i], k, files))
    && Unique(rows)
    && (forall c, o | c in cfg.Cosigners() && 1 <= o <= k :: GetEntry(rows, c, o).Some?)
  }

  ghost predicate AddressOk(next: Option<NextAddressIndex>) {
    next.Some? && 0 <= next.value.internal < U32_LIMIT && 0 <= next.value.external < U32_LIMIT
  }

  ghost predicate TransfersOk(cfg: Config, rows: seq<TransferStatus>) {
    && (forall i | 0 <= i < |rows| :: rows[i].idx == i + 1 && rows[i].cosignerIdx in cfg.Cosigners())
    && (forall i, j | 0 <= i < j < |rows| :: rows[i].batchTransferIdx != rows[j].batchTransferIdx)
  }

  /** The thresholds are ones whose tallies the u8 counters can hold. */
  predicate ConfigFits(cfg: Config) {
    && ByteArithmetic.Fits(cfg.overflowChecks, |cfg.Cosigners()|, cfg.thresholdVanilla)
    && ByteArithmetic.Fits(cfg.overflowChecks, |cfg.Cosigners()|, cfg.thresholdColored)
  }

  ghost predicate Shaped(cfg: Config, db: Db) {
    && OperationsOk(db.operations)
    && FilesOk(db.opFiles, |db.operations|)
    && StatusesOk(cfg, db.statuses, |db.operations|, db.opFiles)
    && AddressOk(db.nextAddress)
    && TransfersOk(cfg, db.transfers)
  }

  /** Well-formed tables that stand for a reachable log. */
  ghost predicate Sane(cfg: Config, db: Db) {
    && cfg.Sound()
    && Shaped(cfg, db)
    && A.Inv(cfg, Abs(cfg, db))
  }

  /** The committed tables in every reachable state. */
  ghost predicate Valid(cfg: Config, db: Db) {
    Sane(cfg, db) && ConfigFits(cfg)
  }

  /** The log shows the votes of the status rows. */
  lemma VotesSeen(cfg: Config, db: Db, idx: int)
    requires OperationsOk(db.operations) && 1 <= idx <= |db.operations|
    ensures Abs(cfg, db)[idx - 1].votes == VotesOn(cfg, db.statuses, idx)
  {
  }

  lemma AddressKnown(cfg: Config, db: Db)
    requires Shaped(cfg, db)
    ensures db.nextAddress.Some?
  {
  }

  // ----- the queries read the log -----

  lemma OperationIs(db: Db, o: int)
    requires OperationsOk(db.operations)
    ensures 1 <= o <= |db.operations| ==> GetOperationByIdx(db, o) == Some(db.operations[o - 1])
    ensures !(1 <= o <= |db.operations|) ==> GetOperationByIdx(db, o).None?
  {
    var found := GetOperationByIdx(db, o);
    if 1 <= o <= |db.operations| {
      assert db.operations[o - 1] in db.operations;
      var i :| 0 <= i < |db.operations| && db.operations[i] == found.value;
    }
  }

  /** The last operation number is the number of operations, none if there are none. */
  lemma LastOperationScan(db: Db)
    requires OperationsOk(db.operations)
    ensures GetLastOperationIdx(db) == if db.operations == [] then None else Some(|db.operations|)
  {
    if db.operations != [] {
      assert db.operations[|db.operations| - 1] in db.operations;
    }
  }

  lemma PendingScan(cfg: Config, db: Db)
    ensures HasPendingOperation(db) <==> A.HasPending(Abs(cfg, db))
  {
    var s := Abs(cfg, db);
    if HasPendingOperation(db) {
      var op :| op in db.operations && op.status == Pending;
      var i :| 0 <= i < |db.operations| && db.operations[i] == op;
      assert s[i].status == Pending;
    }
    if A.HasPending(s) {
      var i :| 0 <= i < |s| && s[i].status == Pending;
      assert db.operations[i] in db.operations;
    }
  }

  lemma ProcessedIs(cfg: Config, db: Db, c: int, o: int)
    requires OperationsOk(db.operations) && c in cfg.Cosigners() && 1 <= o <= |db.operations|
    ensures c in Abs(cfg, db)[o - 1].processed <==> IsProcessed(db.statuses, c, o)
  {
  }

  lemma UnprocessedScan(cfg: Config, db: Db, c: int)
    requires Shaped(cfg, db) && c in cfg.Cosigners()
    ensures HasUnprocessedOperation(db, c) <==> A.HasUnprocessed(Abs(cfg, db), c)
  {
    var s := Abs(cfg, db);
    if HasUnprocessedOperation(db, c) {
      var row :| row in db.statuses && row.cosignerIdx == c && row.processedAt.None?;
      EntryIs(db.statuses, row);
      ProcessedIs(cfg, db, c, row.operationIdx);
      assert c !in s[row.operationIdx - 1].processed;
    }
    if A.HasUnprocessed(s, c) {
      var i :| 0 <= i < |s| && c !in s[i].processed;
      ProcessedIs(cfg, db, c, i + 1);
      assert GetEntry(db.statuses, c, i + 1).Some?;
      EntryFound(db.statuses, c, i + 1);
    }
  }

  /** What the query gives: the largest operation with a processed row of the cosigner. */
  lemma LastRow(cfg: Config, db: Db, c: int)
    requires StatusesOk(cfg, db.statuses, |db.operations|, db.opFiles)
    ensures var last := GetLastProcessedOpIdx(db, c);
            && 0 <= last <= |db.operations|
            && (last > 0 ==> IsProcessed(db.statuses, c, last))
            && forall o | o > last :: !IsProcessed(db.statuses, c, o)
  {
    var last := GetLastProcessedOpIdx(db, c);
    var rows := Filter(db.statuses, (e: CosignerOpStatus) => e.cosignerIdx == c && e.processedAt.Some?);
    if rows != [] {
      var top :| top in rows && top.operationIdx == last;
      EntryIs(db.statuses, top);
    }
    forall o | o > last ensures !IsProcessed(db.statuses, c, o) {
      if IsProcessed(db.statuses, c, o) {
        EntryFound(db.statuses, c, o);
      }
    }
  }

  lemma LastProcessedScan(cfg: Config, db: Db, c: int)
    requires Shaped(cfg, db) && c in cfg.Cosigners()
    ensures GetLastProcessedOpIdx(db, c) == A.LastProcessed(Abs(cfg, db), c)
  {
    hide StatusesOk, FilesOk, TransfersOk, IsProcessed, GetLastProcessedOpIdx;
    var s, last := Abs(cfg, db), GetLastProcessedOpIdx(db, c);
    LastRow(cfg, db, c);
    if last > 0 {
      ProcessedIs(cfg, db, c, last);
    }
    forall i | last <= i < |s| ensures c !in s[i].processed {
      ProcessedIs(cfg, db, c, i + 1);
    }
    A.LastProcessedIs(s, c, last);
  }

  // ----- the fold counts the votes -----

  function Ackers(entries: seq<CosignerOpStatus>, ack: bool): set<int> {
    set e | e in entries && e.ack == Some(ack) :: e.cosignerIdx
  }

  ghost predicate DistinctCosigners(entries: seq<CosignerOpStatus>) {
    forall i, j | 0 <= i < j < |entries| :: entries[i].cosignerIdx != entries[j].cosignerIdx
  }

  lemma AckersStep(before: seq<CosignerOpStatus>, last: CosignerOpStatus, ack: bool)
    requires forall e | e in before :: e.cosignerIdx != last.cosignerIdx
    ensures |Ackers(before + [last], ack)| == |Ackers(before, ack)| + if last.ack == Some(ack) then 1 else 0
  {
    var more := before + [last];
    assert forall e :: e in more <==> e in before || e == last;
    assert last.cosignerIdx !in Ackers(before, ack);
    if last.ack == Some(ack) {
      assert last in more;
      assert Ackers(more, ack) == Ackers(before, ack) + {last.cosignerIdx};
    } else {
      assert Ackers(more, ack) == Ackers(before, ack);
    }
  }

  lemma {:induction false} TallyCounts(entries: seq<CosignerOpStatus>)
    requires DistinctCosigners(entries)
    ensures Tally(entries).0 == |Ackers(entries, true)| && Tally(entries).1 == |Ackers(entries, false)|
    decreases |entries|
  {
    if entries != [] {
      var before, last := entries[..|entries| - 1], entries[|entries| - 1];
      TallyCounts(before);
      assert entries == before + [last];
      AckersStep(before, last, true);
      AckersStep(before, last, false);
    }
  }

  lemma {:induction false} EntriesDistinct(rows: seq<CosignerOpStatus>, o: int)
    requires Unique(rows)
    ensures DistinctCosigners(EntriesOf(rows, o))
    decreases |rows|
  {
    if rows != [] {
      var before, last := rows[..|rows| - 1], rows[|rows| - 1];
      EntriesDistinct(before, o);
      forall e | e in EntriesOf(before, o) && last.operationIdx == o ensures e.cosignerIdx != last.cosignerIdx {
        var i :| 0 <= i < |before| && before[i] == e;
        assert rows[i] == e;
      }
    }
  }

  lemma VoterRows(cfg: Config, rows: seq<CosignerOpStatus>, o: int, ack: bool, c: int)
    requires Unique(rows) && forall row | row in rows :: row.cosignerIdx in cfg.Cosigners()
    ensures c in Ackers(EntriesOf(rows, o), ack) <==>
            c in VotesOn(cfg, rows, o) && VotesOn(cfg, rows, o)[c] == ack
  {
    var entries, votes := EntriesOf(rows, o), VotesOn(cfg, rows, o);
    if c in Ackers(entries, ack) {
      var e :| e in entries && e.ack == Some(ack) && e.cosignerIdx == c;
      EntryIs(rows, e);
    }
    if c in votes && votes[c] == ack {
      EntryFound(rows, c, o);
    }
  }

  /** The rows of an operation show the same two sides as its votes. */
  lemma AckersAreVotes(cfg: Config, rows: seq<CosignerOpStatus>, o: int)
    requires Unique(rows) && forall row | row in rows :: row.cosignerIdx in cfg.Cosigners()
    ensures Ackers(EntriesOf(rows, o), true) == A.Acks(VotesOn(cfg, rows, o))
    ensures Ackers(EntriesOf(rows, o), false) == A.Nacks(VotesOn(cfg, rows, o))
  {
    forall c ensures c in Ackers(EntriesOf(rows, o), true) <==> c in A.Acks(VotesOn(cfg, rows, o)) {
      VoterRows(cfg, rows, o, true, c);
    }
    forall c ensures c in Ackers(EntriesOf(rows, o), false) <==> c in A.Nacks(VotesOn(cfg, rows, o)) {
      VoterRows(cfg, rows, o, false, c);
    }
  }

  /** The ACK/NACK fold over the rows of an operation is the size of the two vote sets. */
  lemma TallyScan(cfg: Config, rows: seq<CosignerOpStatus>, o: int)
    requires Unique(rows) && forall row | row in rows :: row.cosignerIdx in cfg.Cosigners()
    ensures Tally(EntriesOf(rows, o)).0 == |A.Acks(VotesOn(cfg, rows, o))|
    ensures Tally(EntriesOf(rows, o)).1 == |A.Nacks(VotesOn(cfg, rows, o))|
  {
    EntriesDistinct(rows, o);
    TallyCounts(EntriesOf(rows, o));
    AckersAreVotes(cfg, rows, o);
  }
}
