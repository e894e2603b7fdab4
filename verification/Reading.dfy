/** The operation view a reader assembles without the lock, from tables that may change
    between its reads; and why it is never ahead of the votes. */
module Reading {
  import opened HubTypes
  import opened Tables
  import opened Scans
  import opened Refinement
  import opened Ledger
  import opened FileStore
  import H = History
  import A = Approval

  datatype FileMetadata = FileMetadata(fileId: FileId, fileType: FileType, postedByXpub: string, sizeBytes: nat)

  datatype OperationResponse = OperationResponse(
    operationIdx: int,
    initiatorXpub: string,
    seed: Option<Bytes>,
    createdAt: int,
    operationType: OperationType,
    status: OperationStatus,
    ackedBy: set<string>,
    nackedBy: set<string>,
    threshold: Option<byte>,
    myResponse: Option<bool>,
    processedAt: Option<int>,
    files: seq<FileMetadata>)

  /** A transfer status as it is answered. */
  datatype TransferStatusInfo = TransferStatusInfo(cosignerXpub: string, accepted: bool, registeredAt: int)

  /** The xpub of a cosigner, empty when there is none by that index. */
  function Xpub(cfg: Config, c: int): (x: string)
    ensures c in cfg.xpubs ==> x == cfg.xpubs[c]
    ensures c !in cfg.xpubs ==> x == ""
  {
    if c in cfg.xpubs then cfg.xpubs[c] else ""
  }

  function InfoOf(cfg: Config, row: TransferStatus): TransferStatusInfo {
    TransferStatusInfo(Xpub(cfg, row.cosignerIdx), row.accepted, row.registeredAt)
  }

  function Xpubs(cfg: Config, cosigners: set<int>): set<string> {
    set c | c in cosigners :: Xpub(cfg, c)
  }

  predicate Present(rows: seq<OpFile>, files: map<FileId, Bytes>) {
    forall i | 0 <= i < |rows| :: rows[i].fileId in files
  }

  /** The operation's own files, all attributed to the initiator; reading the size of a
      missing file is an error. */
  function OwnFiles(
    xpub: string, rows: seq<OpFile>, files: map<FileId, Bytes>): Result<seq<FileMetadata>, ApiError>
  {
    if !Present(rows, files) then Err(Internal)
    else Ok(seq(|rows|, i requires 0 <= i < |rows| =>
      FileMetadata(rows[i].fileId, rows[i].fileType, xpub, |files[rows[i].fileId]|)))
  }

  /** One more entry: the response PSBT of a cosigner other than the initiator. A missing
      PSBT row is a panic, a missing file an error. */
  function AddResponse(
    cfg: Config, initiator: string, metas: seq<FileMetadata>, e: CosignerOpStatus, db: Db, files: map<FileId, Bytes>)
    : Result<seq<FileMetadata>, ApiError>
  {
    var xpub := Xpub(cfg, e.cosignerIdx);
    if xpub == initiator || e.psbtOpFileIdx.None? then Ok(metas)
    else
      match GetOpFileByIdx(db, e.psbtOpFileIdx.value)
      case None => Err(Panic)
      case Some(f) =>
        if f.fileId !in files then Err(Internal)
        else Ok(metas + [FileMetadata(f.fileId, FileType.ResponsePsbt, xpub, |files[f.fileId]|)])
  }

  function ResponseFiles(
    cfg: Config, initiator: string, entries: seq<CosignerOpStatus>, db: Db, files: map<FileId, Bytes>)
    : Result<seq<FileMetadata>, ApiError>
  {
    if entries == [] then Ok([])
    else
      match ResponseFiles(cfg, initiator, entries[..|entries| - 1], db, files)
      case Err(error) => Err(error)
      case Ok(metas) => AddResponse(cfg, initiator, metas, entries[|entries| - 1], db, files)
  }

  /** The viewer's own row among the entries. */
  function Mine(entries: seq<CosignerOpStatus>, viewer: Option<int>): Option<CosignerOpStatus> {
    if viewer.None? then None
    else First(entries, (e: CosignerOpStatus) => e.cosignerIdx == viewer.value)
  }

  predicate Known(cfg: Config, entries: seq<CosignerOpStatus>) {
    forall i | 0 <= i < |entries| :: entries[i].cosignerIdx in cfg.xpubs
  }

  /** The view read from three snapshots of the tables, oldest first: the operation row,
      the cosigners' rows, and the file rows; file sizes are read last. An initiator that is
      not a cosigner is a panic; a missing cosigner, operation or file is an error. */
  function View(
    cfg: Config, opDb: Db, voteDb: Db, fileDb: Db, files: map<FileId, Bytes>, idx: int, viewer: Option<int>)
    : Result<Option<OperationResponse>, ApiError>
  {
    match GetOperationByIdx(opDb, idx)
    case None => Ok(None)
    case Some(op) =>
      if op.initiatorIdx !in cfg.xpubs then Err(Panic)
      else
        var entries, initiator := EntriesOf(voteDb.statuses, idx), Xpub(cfg, op.initiatorIdx);
        if !Known(cfg, entries) || GetOperationByIdx(fileDb, idx).None? then Err(Internal)
        else
          match OwnFiles(initiator, GetOpFilesOf(fileDb, idx), files)
          case Err(error) => Err(error)
          case Ok(own) =>
            match ResponseFiles(cfg, initiator, entries, voteDb, files)
            case Err(error) => Err(error)
            case Ok(responses) => Ok(Some(Shown(cfg, op, entries, viewer, own + responses)))
  }

  function Shown(
    cfg: Config, op: Operation, entries: seq<CosignerOpStatus>, viewer: Option<int>, metas: seq<FileMetadata>)
    : OperationResponse
  {
    var mine := Mine(entries, viewer);
    OperationResponse(
      op.idx, Xpub(cfg, op.initiatorIdx), op.seed, op.createdAt, op.opType, op.status,
      Xpubs(cfg, Ackers(entries, true)),
      Xpubs(cfg, Ackers(entries, false)),
      cfg.Threshold(op.opType),
      if mine.Some? then mine.value.ack else None,
      if mine.Some? then mine.value.processedAt else None,
      metas)
  }

  // ----- counting by xpub is counting by cosigner -----

  lemma Pick(cosigners: set<int>) returns (c: int)
    requires cosigners != {}
    ensures c in cosigners
  {
    if forall d :: d !in cosigners {
      assert false;
    }
    c :| c in cosigners;
  }

  lemma XpubsSplit(cfg: Config, rest: set<int>, c: int)
    requires cfg.Sound() && rest <= cfg.Cosigners() && c in cfg.Cosigners() && c !in rest
    ensures |Xpubs(cfg, rest + {c})| == |Xpubs(cfg, rest)| + 1
  {
    assert Xpubs(cfg, rest + {c}) == Xpubs(cfg, rest) + {Xpub(cfg, c)};
    assert Xpub(cfg, c) !in Xpubs(cfg, rest);
  }

  lemma {:induction false} XpubsCount(cfg: Config, cosigners: set<int>)
    requires cfg.Sound() && cosigners <= cfg.Cosigners()
    ensures |Xpubs(cfg, cosigners)| == |cosigners|
    decreases |cosigners|
  {
    if cosigners == {} {
      assert Xpubs(cfg, cosigners) == {};
    } else {
      var c := Pick(cosigners);
      XpubsCount(cfg, cosigners - {c});
      XpubsSplit(cfg, cosigners - {c}, c);
      assert cosigners - {c} + {c} == cosigners;
    }
  }

  lemma XpubsMember(cfg: Config, cosigners: set<int>, c: int)
    requires cfg.Sound() && cosigners <= cfg.Cosigners() && c in cfg.Cosigners()
    ensures Xpub(cfg, c) in Xpubs(cfg, cosigners) <==> c in cosigners
  {
  }

  lemma XpubsDisjoint(cfg: Config, a: set<int>, b: set<int>)
    requires cfg.Sound() && a <= cfg.Cosigners() && b <= cfg.Cosigners() && a !! b
    ensures Xpubs(cfg, a) !! Xpubs(cfg, b)
  {
  }

  // ----- the votes a view shows -----

  lemma ShownVotes(cfg: Config, db: Db, idx: int)
    requires Shaped(cfg, db) && 1 <= idx <= |db.operations|
    ensures var entries, votes := EntriesOf(db.statuses, idx), Abs(cfg, db)[idx - 1].votes;
            && Ackers(entries, true) == A.Acks(votes)
            && Ackers(entries, false) == A.Nacks(votes)
  {
    RowsOfCosigners(cfg, db);
    AckersAreVotes(cfg, db.statuses, idx);
    VotesSeen(cfg, db, idx);
  }

  lemma RowsOfCosigners(cfg: Config, db: Db)
    requires Shaped(cfg, db)
    ensures Unique(db.statuses) && forall row | row in db.statuses :: row.cosignerIdx in cfg.Cosigners()
  {
    forall row | row in db.statuses ensures row.cosignerIdx in cfg.Cosigners() {
      RowInPlace(cfg, db, row);
    }
  }

  lemma MineIs(cfg: Config, db: Db, idx: int, c: int)
    requires Shaped(cfg, db) && 1 <= idx <= |db.operations| && c in cfg.Cosigners()
    ensures Mine(EntriesOf(db.statuses, idx), Some(c)) == GetEntry(db.statuses, c, idx)
  {
    var mine := Mine(EntriesOf(db.statuses, idx), Some(c));
    EntryFound(db.statuses, c, idx);
    assert GetEntry(db.statuses, c, idx).value in EntriesOf(db.statuses, idx);
    EntryIs(db.statuses, mine.value);
  }

  /** The votes of a decided operation are the ones that decided it, at any later time. */
  lemma DecidedVotes(cfg: Config, early: A.Op, late: A.Op)
    requires cfg.Sound() && A.OpInv(cfg, early) && A.OpInv(cfg, late) && H.OpGrows(early, late)
    ensures var t := cfg.Threshold(early.opType);
            && (t.Some? && early.status == Approved ==> |A.Acks(late.votes)| == t.value)
            && (t.Some? && early.status == Discarded ==>
                  |A.Nacks(late.votes)| == |cfg.Cosigners()| - t.value + 1)
            && (t.None? ==> early.status == Approved && A.Acks(late.votes) == {} && A.Nacks(late.votes) == {})
  {
  }

  lemma ShownSides(cfg: Config, votes: map<int, bool>)
    requires cfg.Sound() && votes.Keys <= cfg.Cosigners()
    ensures |Xpubs(cfg, A.Acks(votes))| == |A.Acks(votes)|
    ensures |Xpubs(cfg, A.Nacks(votes))| == |A.Nacks(votes)|
    ensures Xpubs(cfg, A.Acks(votes)) !! Xpubs(cfg, A.Nacks(votes))
    ensures forall c | c in cfg.Cosigners() ::
              && (Xpub(cfg, c) in Xpubs(cfg, A.Acks(votes)) <==> c in votes && votes[c])
              && (Xpub(cfg, c) in Xpubs(cfg, A.Nacks(votes)) <==> c in votes && !votes[c])
  {
    var acks, nacks := A.Acks(votes), A.Nacks(votes);
    XpubsCount(cfg, acks);
    XpubsCount(cfg, nacks);
    XpubsDisjoint(cfg, acks, nacks);
    forall c | c in cfg.Cosigners()
      ensures (Xpub(cfg, c) in Xpubs(cfg, acks) <==> c in acks) && (Xpub(cfg, c) in Xpubs(cfg, nacks) <==> c in nacks)
    {
      XpubsMember(cfg, acks, c);
      XpubsMember(cfg, nacks, c);
    }
  }

  lemma ShownResponse(cfg: Config, db: Db, idx: int, c: int)
    requires Shaped(cfg, db) && 1 <= idx <= |db.operations| && c in cfg.Cosigners()
    ensures var mine, op := Mine(EntriesOf(db.statuses, idx), Some(c)), Abs(cfg, db)[idx - 1];
            && mine.Some?
            && mine.value.ack == (if c in op.votes then Some(op.votes[c]) else None)
            && (mine.value.processedAt.Some? <==> c in op.processed)
  {
    MineIs(cfg, db, idx, c);
    EntryOf(cfg, db, c, idx);
    VotesSeen(cfg, db, idx);
  }

  // ----- no read fails -----

  lemma EntriesKnown(cfg: Config, db: Db, idx: int)
    requires Shaped(cfg, db)
    ensures Known(cfg, EntriesOf(db.statuses, idx))
  {
    RowsOfCosigners(cfg, db);
    var entries := EntriesOf(db.statuses, idx);
    forall i | 0 <= i < |entries| ensures entries[i].cosignerIdx in cfg.xpubs {
      assert entries[i] in entries;
    }
  }

  lemma FilesPresent(db: Db, idx: int, files: map<FileId, Bytes>)
    requires Stored(files, db.opFiles)
    ensures Present(GetOpFilesOf(db, idx), files)
  {
    var rows := GetOpFilesOf(db, idx);
    forall i | 0 <= i < |rows| ensures rows[i].fileId in files {
      assert rows[i] in rows;
    }
  }

  lemma {:induction false} ResponsesRead(
    cfg: Config, initiator: string, entries: seq<CosignerOpStatus>, db: Db, files: map<FileId, Bytes>)
    requires Shaped(cfg, db) && Stored(files, db.opFiles) && forall e | e in entries :: e in db.statuses
    ensures ResponseFiles(cfg, initiator, entries, db, files).Ok?
    decreases |entries|
  {
    assert FilesOk(db.opFiles, |db.operations|);
    hide Shaped, FilesOk;
    if entries != [] {
      var before, e := entries[..|entries| - 1], entries[|entries| - 1];
      ResponsesRead(cfg, initiator, before, db, files);
      if e.psbtOpFileIdx.Some? {
        PsbtFound(cfg, db, db, e);
      }
    }
  }

  /** However its reads interleave with committed writes, no lookup of a view fails: every
      initiator and every voter is a cosigner, and every file row and file is there. */
  lemma ViewSucceeds(
    cfg: Config, opDb: Db, voteDb: Db, fileDb: Db, files: map<FileId, Bytes>, idx: int, viewer: Option<int>)
    requires Valid(cfg, opDb) && Reaches(cfg, opDb, voteDb) && Reaches(cfg, voteDb, fileDb)
    requires Stored(files, fileDb.opFiles)
    ensures View(cfg, opDb, voteDb, fileDb, files, idx, viewer).Ok?
    ensures View(cfg, opDb, voteDb, fileDb, files, idx, viewer).value.Some? <==> 1 <= idx <= |opDb.operations|
  {
    hide A.Inv, StatusesOk;
    ReachesGrows(cfg, opDb, voteDb);
    ReachesGrows(cfg, voteDb, fileDb);
    OperationIs(opDb, idx);
    if 1 <= idx <= |opDb.operations| {
      OperationIs(fileDb, idx);
      InitiatorKnown(cfg, opDb, idx);
      EntriesKnown(cfg, voteDb, idx);
      FilesPresent(fileDb, idx, files);
      StoredBefore(voteDb, fileDb, files);
      var initiator := Xpub(cfg, opDb.operations[idx - 1].initiatorIdx);
      ResponsesRead(cfg, initiator, EntriesOf(voteDb.statuses, idx), voteDb, files);
    }
  }

  lemma StoredBefore(before: Db, after: Db, files: map<FileId, Bytes>)
    requires before.opFiles <= after.opFiles && Stored(files, after.opFiles)
    ensures Stored(files, before.opFiles)
  {
    forall i | 0 <= i < |before.opFiles| ensures before.opFiles[i].fileId in files {
      assert after.opFiles[i] == before.opFiles[i];
    }
  }

  lemma InitiatorKnown(cfg: Config, db: Db, idx: int)
    requires Sane(cfg, db) && 1 <= idx <= |db.operations|
    ensures db.operations[idx - 1].initiatorIdx in cfg.xpubs
  {
    hide Shaped, A.Inv, Abs;
    RowSeen(cfg, db, idx - 1);
    A.InvAt(cfg, Abs(cfg, db), idx - 1);
  }

  // ----- what a view shows -----

  /** The fields of a view, in terms of the rows it read and the logs they stand for. */
  lemma ViewShows(
    cfg: Config, opDb: Db, voteDb: Db, fileDb: Db, files: map<FileId, Bytes>, idx: int, viewer: Option<int>)
    requires Shaped(cfg, opDb) && Shaped(cfg, voteDb)
    requires 1 <= idx <= |opDb.operations| && idx <= |voteDb.operations|
    requires viewer.Some? ==> viewer.value in cfg.Cosigners()
    requires View(cfg, opDb, voteDb, fileDb, files, idx, viewer).Ok?
    ensures View(cfg, opDb, voteDb, fileDb, files, idx, viewer).value.Some?
    ensures var v := View(cfg, opDb, voteDb, fileDb, files, idx, viewer).value.value;
            var op, late := Abs(cfg, opDb)[idx - 1], Abs(cfg, voteDb)[idx - 1];
            && v.operationIdx == idx && v.operationType == op.opType && v.seed == op.seed
            && v.createdAt == opDb.operations[idx - 1].createdAt
            && op.initiator in cfg.xpubs && v.initiatorXpub == cfg.xpubs[op.initiator]
            && v.status == op.status && v.threshold == cfg.Threshold(op.opType)
            && v.ackedBy == Xpubs(cfg, A.Acks(late.votes)) && v.nackedBy == Xpubs(cfg, A.Nacks(late.votes))
            && (viewer.Some? ==>
                  && v.myResponse == (if viewer.value in late.votes then Some(late.votes[viewer.value]) else None)
                  && (v.processedAt.Some? <==> viewer.value in late.processed))
  {
    hide StatusesOk;
    OperationIs(opDb, idx);
    ShownVotes(cfg, voteDb, idx);
    if viewer.Some? {
      ShownResponse(cfg, voteDb, idx, viewer.value);
    }
  }

  /** The viewer is shown the response and the time of processing of its own row. */
  lemma ViewShowsOwnRow(
    cfg: Config, opDb: Db, voteDb: Db, fileDb: Db, files: map<FileId, Bytes>, idx: int, c: int, row: CosignerOpStatus)
    requires Shaped(cfg, voteDb) && row in voteDb.statuses && row.cosignerIdx == c && row.operationIdx == idx
    requires View(cfg, opDb, voteDb, fileDb, files, idx, Some(c)).Ok?
    requires View(cfg, opDb, voteDb, fileDb, files, idx, Some(c)).value.Some?
    ensures var v := View(cfg, opDb, voteDb, fileDb, files, idx, Some(c)).value.value;
            v.myResponse == row.ack && v.processedAt == row.processedAt
  {
    RowInPlace(cfg, voteDb, row);
    EntryIs(voteDb.statuses, row);
    MineIs(cfg, voteDb, idx, c);
    hide Shaped, OwnFiles, ResponseFiles, Known, EntriesOf, GetEntry;
  }

  // ----- the file list -----

  /** The positions of the operation's own file rows. */
  function OwnPositions(rows: seq<OpFile>, idx: int): set<nat> {
    set i: nat | i < |rows| && rows[i].operationIdx == idx
  }

  /** The positions of the rows of the operation that belong to other cosigners than the
      initiator and refer to a PSBT. */
  function OtherPositions(rows: seq<CosignerOpStatus>, idx: int, initiator: int): set<nat> {
    set i: nat | i < |rows| && rows[i].operationIdx == idx && rows[i].cosignerIdx != initiator
                 && rows[i].psbtOpFileIdx.Some?
  }

  /** The entry of a file row, as its initiator's. */
  predicate IsOwnEntry(meta: FileMetadata, row: OpFile, xpub: string, files: map<FileId, Bytes>) {
    row.fileId in files && meta == FileMetadata(row.fileId, row.fileType, xpub, |files[row.fileId]|)
  }

  /** The entry of the PSBT that a cosigner's row refers to. */
  predicate IsResponseEntry(
    cfg: Config, meta: FileMetadata, row: CosignerOpStatus, opFiles: seq<OpFile>, files: map<FileId, Bytes>)
  {
    && row.cosignerIdx in cfg.xpubs && row.psbtOpFileIdx.Some? && 1 <= row.psbtOpFileIdx.value <= |opFiles|
    && var psbt := opFiles[row.psbtOpFileIdx.value - 1];
       && psbt.fileId in files
       && meta == FileMetadata(psbt.fileId, FileType.ResponsePsbt, cfg.xpubs[row.cosignerIdx], |files[psbt.fileId]|)
  }

  lemma OtherPositionsOneMore(before: seq<CosignerOpStatus>, last: CosignerOpStatus, idx: int, initiator: int)
    ensures OtherPositions(before + [last], idx, initiator) == OtherPositions(before, idx, initiator) +
              (if last.operationIdx == idx && last.cosignerIdx != initiator && last.psbtOpFileIdx.Some?
               then {|before|} else {})
    ensures forall i | i in OtherPositions(before, idx, initiator) :: i < |before|
  {
    var rows := before + [last];
    assert rows[|before|] == last && forall i: nat | i < |before| :: rows[i] == before[i];
  }

  /** One more row adds the entry of its PSBT, if it is another cosigner's, and nothing else. */
  lemma ResponseAdded(
    cfg: Config, initiator: int, metas: seq<FileMetadata>, row: CosignerOpStatus, db: Db, files: map<FileId, Bytes>)
    requires cfg.Sound() && Shaped(cfg, db) && row in db.statuses && initiator in cfg.xpubs
    requires AddResponse(cfg, Xpub(cfg, initiator), metas, row, db, files).Ok?
    ensures var r := AddResponse(cfg, Xpub(cfg, initiator), metas, row, db, files).value;
            if row.cosignerIdx != initiator && row.psbtOpFileIdx.Some?
            then |r| == |metas| + 1 && r[..|metas|] == metas && IsResponseEntry(cfg, r[|metas|], row, db.opFiles, files)
            else r == metas
  {
    RowInPlace(cfg, db, row);
    if row.psbtOpFileIdx.Some? {
      assert PsbtOk(row, db.opFiles);
      OpFileIs(db, row.psbtOpFileIdx.value);
    }
  }

  /** The entries are those of the PSBTs of the other cosigners' rows, one for one and in
      order. */
  ghost predicate AreResponses(
    cfg: Config, metas: seq<FileMetadata>, rows: seq<CosignerOpStatus>, idx: int, initiator: int,
    opFiles: seq<OpFile>, files: map<FileId, Bytes>, at: seq<nat>)
  {
    && Lists(at, OtherPositions(rows, idx, initiator)) && |at| == |metas|
    && forall k | 0 <= k < |at| :: at[k] < |rows| && IsResponseEntry(cfg, metas[k], rows[at[k]], opFiles, files)
  }

  lemma AreResponsesOneMore(
    cfg: Config, metas: seq<FileMetadata>, after: seq<FileMetadata>, before: seq<CosignerOpStatus>,
    last: CosignerOpStatus, idx: int, initiator: int, opFiles: seq<OpFile>, files: map<FileId, Bytes>, at: seq<nat>)
    requires AreResponses(cfg, metas, before, idx, initiator, opFiles, files, at)
    requires if last.operationIdx == idx && last.cosignerIdx != initiator && last.psbtOpFileIdx.Some?
             then |after| == |metas| + 1 && after[..|metas|] == metas
                  && IsResponseEntry(cfg, after[|metas|], last, opFiles, files)
             else after == metas
    ensures AreResponses(cfg, after, before + [last], idx, initiator, opFiles, files,
              if last.operationIdx == idx && last.cosignerIdx != initiator && last.psbtOpFileIdx.Some?
              then at + [|before|] else at)
  {
    hide IsResponseEntry, Lists, OtherPositions;
    OtherPositionsOneMore(before, last, idx, initiator);
    assert OtherPositions(before, idx, initiator) + {} == OtherPositions(before, idx, initiator);
    ListsOneMore(at, OtherPositions(before, idx, initiator), |before|);
    assert forall k | 0 <= k < |at| :: (before + [last])[at[k]] == before[at[k]];
    assert forall k | 0 <= k < |metas| :: after[k] == metas[k];
  }

  lemma {:induction false} ResponsesListed(
    cfg: Config, initiator: int, rows: seq<CosignerOpStatus>, idx: int, db: Db, files: map<FileId, Bytes>)
    returns (at: seq<nat>)
    requires cfg.Sound() && Shaped(cfg, db) && initiator in cfg.xpubs && forall row | row in rows :: row in db.statuses
    requires ResponseFiles(cfg, Xpub(cfg, initiator), EntriesOf(rows, idx), db, files).Ok?
    ensures AreResponses(cfg, ResponseFiles(cfg, Xpub(cfg, initiator), EntriesOf(rows, idx), db, files).value,
                         rows, idx, initiator, db.opFiles, files, at)
    decreases |rows|
  {
    hide Shaped, Config.Sound, AreResponses, AddResponse, IsResponseEntry, ResponseFiles, EntriesOf, Xpub;
    var xpub := Xpub(cfg, initiator);
    if rows == [] {
      at := [];
      NoneListed(cfg, xpub, idx, initiator, db, files);
    } else {
      var before, last := rows[..|rows| - 1], rows[|rows| - 1];
      assert rows == before + [last];
      if last.operationIdx == idx {
        LastEntry(cfg, xpub, rows, idx, db, files);
      } else {
        EntriesSame(rows, idx);
      }
      at := ResponsesListed(cfg, initiator, before, idx, db, files);
      var metas := ResponseFiles(cfg, xpub, EntriesOf(before, idx), db, files).value;
      if last.operationIdx == idx {
        ResponseAdded(cfg, initiator, metas, last, db, files);
      }
      AreResponsesOneMore(cfg, metas, ResponseFiles(cfg, xpub, EntriesOf(rows, idx), db, files).value,
                          before, last, idx, initiator, db.opFiles, files, at);
      at := if last.operationIdx == idx && last.cosignerIdx != initiator && last.psbtOpFileIdx.Some?
            then at + [|before|] else at;
    }
  }

  lemma NoneListed(cfg: Config, xpub: string, idx: int, initiator: int, db: Db, files: map<FileId, Bytes>)
    ensures ResponseFiles(cfg, xpub, EntriesOf([], idx), db, files) == Ok([])
    ensures AreResponses(cfg, [], [], idx, initiator, db.opFiles, files, [])
  {
  }

  lemma EntriesSame(rows: seq<CosignerOpStatus>, idx: int)
    requires rows != [] && rows[|rows| - 1].operationIdx != idx
    ensures EntriesOf(rows, idx) == EntriesOf(rows[..|rows| - 1], idx)
  {
  }

  lemma LastEntry(
    cfg: Config, initiator: string, rows: seq<CosignerOpStatus>, idx: int, db: Db, files: map<FileId, Bytes>)
    requires rows != [] && rows[|rows| - 1].operationIdx == idx
    requires ResponseFiles(cfg, initiator, EntriesOf(rows, idx), db, files).Ok?
    ensures ResponseFiles(cfg, initiator, EntriesOf(rows[..|rows| - 1], idx), db, files).Ok?
    ensures var metas := ResponseFiles(cfg, initiator, EntriesOf(rows[..|rows| - 1], idx), db, files).value;
            ResponseFiles(cfg, initiator, EntriesOf(rows, idx), db, files)
              == AddResponse(cfg, initiator, metas, rows[|rows| - 1], db, files)
  {
    hide AddResponse;
    var before, last := rows[..|rows| - 1], rows[|rows| - 1];
    var entries := EntriesOf(rows, idx);
    assert entries == EntriesOf(before, idx) + [last];
    assert entries[..|entries| - 1] == EntriesOf(before, idx);
  }

  /** The entries are those of the operation's own file rows, one for one and in order. */
  ghost predicate AreOwn(
    metas: seq<FileMetadata>, rows: seq<OpFile>, idx: int, xpub: string, files: map<FileId, Bytes>, at: seq<nat>)
  {
    && Lists(at, OwnPositions(rows, idx)) && |at| == |metas|
    && forall k | 0 <= k < |at| :: at[k] < |rows| && IsOwnEntry(metas[k], rows[at[k]], xpub, files)
  }

  lemma OwnListed(xpub: string, db: Db, idx: int, files: map<FileId, Bytes>) returns (at: seq<nat>)
    requires OwnFiles(xpub, GetOpFilesOf(db, idx), files).Ok?
    ensures AreOwn(OwnFiles(xpub, GetOpFilesOf(db, idx), files).value, db.opFiles, idx, xpub, files, at)
  {
    hide Lists;
    at := FilterLists(db.opFiles, (f: OpFile) => f.operationIdx == idx);
    assert Matches(db.opFiles, (f: OpFile) => f.operationIdx == idx) == OwnPositions(db.opFiles, idx);
  }

  /** The file list of a view, entry by entry: first the operation's own file rows, one for
      one and in order, as the initiator's; then, one for one and in order, the PSBTs of the
      rows of the other cosigners, under their own xpubs. */
  lemma ViewListsFiles(
    cfg: Config, opDb: Db, voteDb: Db, fileDb: Db, files: map<FileId, Bytes>, idx: int, viewer: Option<int>)
    returns (own: seq<nat>, others: seq<nat>)
    requires cfg.Sound() && Shaped(cfg, opDb) && Shaped(cfg, voteDb) && 1 <= idx <= |opDb.operations|
    requires View(cfg, opDb, voteDb, fileDb, files, idx, viewer).Ok?
    requires View(cfg, opDb, voteDb, fileDb, files, idx, viewer).value.Some?
    ensures var metas := View(cfg, opDb, voteDb, fileDb, files, idx, viewer).value.value.files;
            var initiator := opDb.operations[idx - 1].initiatorIdx;
            && initiator in cfg.xpubs && |own| <= |metas|
            && AreOwn(metas[..|own|], fileDb.opFiles, idx, cfg.xpubs[initiator], files, own)
            && AreResponses(cfg, metas[|own|..], voteDb.statuses, idx, initiator, voteDb.opFiles, files, others)
  {
    hide Shaped, Config.Sound, AreOwn, AreResponses, EntriesOf, GetOpFilesOf, OwnFiles, ResponseFiles, View, Xpub;
    var initiator := opDb.operations[idx - 1].initiatorIdx;
    ViewFiles(cfg, opDb, voteDb, fileDb, files, idx, viewer);
    own := OwnListed(Xpub(cfg, initiator), fileDb, idx, files);
    others := ResponsesListed(cfg, initiator, voteDb.statuses, idx, voteDb, files);
    var first := OwnFiles(Xpub(cfg, initiator), GetOpFilesOf(fileDb, idx), files).value;
    var second := ResponseFiles(cfg, Xpub(cfg, initiator), EntriesOf(voteDb.statuses, idx), voteDb, files).value;
    OwnSize(first, fileDb.opFiles, idx, Xpub(cfg, initiator), files, own);
    assert (first + second)[..|own|] == first && (first + second)[|own|..] == second;
  }

  lemma OwnSize(
    metas: seq<FileMetadata>, rows: seq<OpFile>, idx: int, xpub: string, files: map<FileId, Bytes>, at: seq<nat>)
    requires AreOwn(metas, rows, idx, xpub, files, at)
    ensures |at| == |metas|
  {
  }

  lemma ViewFiles(
    cfg: Config, opDb: Db, voteDb: Db, fileDb: Db, files: map<FileId, Bytes>, idx: int, viewer: Option<int>)
    requires Shaped(cfg, opDb) && 1 <= idx <= |opDb.operations|
    requires View(cfg, opDb, voteDb, fileDb, files, idx, viewer).Ok?
    requires View(cfg, opDb, voteDb, fileDb, files, idx, viewer).value.Some?
    ensures var c := opDb.operations[idx - 1].initiatorIdx;
            var own := OwnFiles(Xpub(cfg, c), GetOpFilesOf(fileDb, idx), files);
            var responses := ResponseFiles(cfg, Xpub(cfg, c), EntriesOf(voteDb.statuses, idx), voteDb, files);
            && c in cfg.xpubs && own.Ok? && responses.Ok?
            && View(cfg, opDb, voteDb, fileDb, files, idx, viewer).value.value.files == own.value + responses.value
  {
    OperationIs(opDb, idx);
    hide Shaped, EntriesOf, GetOpFilesOf, OwnFiles, ResponseFiles, Known, Mine, Ackers, Xpubs;
  }

  /** A view that says Approved under threshold t shows exactly t ACKs, one that says
      Discarded shows exactly n - t + 1 NACKs, no cosigner shows on both sides, and the
      viewer's own response is where it says. */
  ghost predicate TrueToTheVotes(cfg: Config, v: OperationResponse, viewer: Option<int>) {
    && (v.threshold.Some? && v.status == Approved ==> |v.ackedBy| == v.threshold.value)
    && (v.threshold.Some? && v.status == Discarded ==>
          |v.nackedBy| == |cfg.Cosigners()| - v.threshold.value + 1)
    && (v.threshold.None? ==> v.status == Approved && v.ackedBy == {} && v.nackedBy == {})
    && v.ackedBy !! v.nackedBy
    && (viewer.Some? ==>
          && (v.myResponse == Some(true) <==> Xpub(cfg, viewer.value) in v.ackedBy)
          && (v.myResponse == Some(false) <==> Xpub(cfg, viewer.value) in v.nackedBy))
  }

  /** However its reads interleave with committed writes: a view of an existing operation
      succeeds and is true to the votes. */
  lemma NeverAheadOfTheVotes(
    cfg: Config, opDb: Db, voteDb: Db, fileDb: Db, files: map<FileId, Bytes>, idx: int, viewer: Option<int>)
    requires Valid(cfg, opDb) && Reaches(cfg, opDb, voteDb) && Reaches(cfg, voteDb, fileDb)
    requires Stored(files, fileDb.opFiles)
    requires 1 <= idx <= |opDb.operations| && (viewer.Some? ==> viewer.value in cfg.Cosigners())
    ensures View(cfg, opDb, voteDb, fileDb, files, idx, viewer).Ok?
    ensures View(cfg, opDb, voteDb, fileDb, files, idx, viewer).value.Some?
    ensures TrueToTheVotes(cfg, View(cfg, opDb, voteDb, fileDb, files, idx, viewer).value.value, viewer)
  {
    hide Shaped, Sane, Abs, View, Reaches, TrueToTheVotes, A.OpInv, H.OpGrows;
    ViewSucceeds(cfg, opDb, voteDb, fileDb, files, idx, viewer);
    EarlyAndLate(cfg, opDb, voteDb, idx);
    ViewShows(cfg, opDb, voteDb, fileDb, files, idx, viewer);
    ShownIsTrue(cfg, View(cfg, opDb, voteDb, fileDb, files, idx, viewer).value.value, viewer,
                Abs(cfg, opDb)[idx - 1], Abs(cfg, voteDb)[idx - 1]);
  }

  /** The same operation in two states of the tables, one reached from the other. */
  lemma EarlyAndLate(cfg: Config, early: Db, late: Db, idx: int)
    requires Valid(cfg, early) && Reaches(cfg, early, late) && 1 <= idx <= |early.operations|
    ensures cfg.Sound() && Shaped(cfg, early) && Shaped(cfg, late) && idx <= |late.operations|
    ensures |Abs(cfg, early)| == |early.operations| && |Abs(cfg, late)| == |late.operations|
    ensures var before, after := Abs(cfg, early)[idx - 1], Abs(cfg, late)[idx - 1];
            A.OpInv(cfg, before) && A.OpInv(cfg, after) && H.OpGrows(before, after)
  {
    hide Shaped, Abs, Reaches, A.Inv, A.OpInv, H.OpGrows;
    ReachesGrows(cfg, early, late);
    RowSeen(cfg, early, idx - 1);
    RowSeen(cfg, late, idx - 1);
    A.InvAt(cfg, Abs(cfg, early), idx - 1);
    A.InvAt(cfg, Abs(cfg, late), idx - 1);
  }

  /** A view whose fields come from an early and a late state of an operation is true. */
  lemma ShownIsTrue(cfg: Config, v: OperationResponse, viewer: Option<int>, early: A.Op, late: A.Op)
    requires cfg.Sound() && A.OpInv(cfg, early) && A.OpInv(cfg, late) && H.OpGrows(early, late)
    requires v.status == early.status && v.threshold == cfg.Threshold(early.opType)
    requires v.ackedBy == Xpubs(cfg, A.Acks(late.votes)) && v.nackedBy == Xpubs(cfg, A.Nacks(late.votes))
    requires viewer.Some? ==> viewer.value in cfg.Cosigners()
    requires viewer.Some? ==>
               v.myResponse == if viewer.value in late.votes then Some(late.votes[viewer.value]) else None
    ensures TrueToTheVotes(cfg, v, viewer)
  {
    DecidedVotes(cfg, early, late);
    ShownSides(cfg, late.votes);
    assert Xpubs(cfg, {}) == {};
    hide Config.Sound, A.OpInv, H.OpGrows, A.Acks, A.Nacks, Xpubs;
  }

  // ----- reading in pieces -----

  /** The rows of an operation, each with the xpub of its cosigner. */
  function WithXpubs(cfg: Config, entries: seq<CosignerOpStatus>): seq<(CosignerOpStatus, string)> {
    seq(|entries|, i requires 0 <= i < |entries| => (entries[i], Xpub(cfg, entries[i].cosignerIdx)))
  }

  /** A size once read stays right, since stored files do not change. */
  lemma OwnFilesStable(xpub: string, rows: seq<OpFile>, before: map<FileId, Bytes>, after: map<FileId, Bytes>)
    requires FilesGrow(before, after) && Present(rows, before)
    ensures OwnFiles(xpub, rows, before).Ok? && OwnFiles(xpub, rows, after) == OwnFiles(xpub, rows, before)
  {
    var early, late := OwnFiles(xpub, rows, before).value, OwnFiles(xpub, rows, after).value;
    assert forall i | 0 <= i < |rows| :: late[i] == early[i];
    assert late == early;
  }

  lemma OwnFilesStep(xpub: string, rows: seq<OpFile>, files: map<FileId, Bytes>, i: nat)
    requires i < |rows| && Present(rows[..i + 1], files)
    ensures OwnFiles(xpub, rows[..i], files).Ok?
    ensures OwnFiles(xpub, rows[..i + 1], files)
         == Ok(OwnFiles(xpub, rows[..i], files).value
               + [FileMetadata(rows[i].fileId, rows[i].fileType, xpub, |files[rows[i].fileId]|)])
  {
    forall j | 0 <= j < i ensures rows[..i][j].fileId in files {
      assert rows[..i + 1][j] == rows[j];
    }
    assert rows[..i + 1][i] == rows[i];
    var before, after := OwnFiles(xpub, rows[..i], files).value, OwnFiles(xpub, rows[..i + 1], files).value;
    assert forall j | 0 <= j < i :: after[j] == before[j];
    assert after == before + [after[i]];
  }

  lemma {:induction false} ResponseFilesStable(
    cfg: Config, initiator: string, entries: seq<CosignerOpStatus>, db: Db,
    before: map<FileId, Bytes>, after: map<FileId, Bytes>)
    requires FilesGrow(before, after) && ResponseFiles(cfg, initiator, entries, db, before).Ok?
    ensures ResponseFiles(cfg, initiator, entries, db, after) == ResponseFiles(cfg, initiator, entries, db, before)
    decreases |entries|
  {
    if entries != [] {
      ResponseFilesStable(cfg, initiator, entries[..|entries| - 1], db, before, after);
    }
  }

  lemma ResponseFilesStep(
    cfg: Config, initiator: string, entries: seq<CosignerOpStatus>, db: Db, files: map<FileId, Bytes>, i: nat)
    requires i < |entries| && ResponseFiles(cfg, initiator, entries[..i], db, files).Ok?
    ensures var metas := ResponseFiles(cfg, initiator, entries[..i], db, files).value;
            ResponseFiles(cfg, initiator, entries[..i + 1], db, files) ==
              AddResponse(cfg, initiator, metas, entries[i], db, files)
  {
    assert entries[..i + 1][..i] == entries[..i];
  }

  /** The PSBT row an entry refers to is found, and is the same in every later state. */
  lemma PsbtFound(cfg: Config, db: Db, later: Db, e: CosignerOpStatus)
    requires Shaped(cfg, db) && FilesOk(later.opFiles, |later.operations|) && db.opFiles <= later.opFiles
    requires e in db.statuses && e.psbtOpFileIdx.Some?
    ensures GetOpFileByIdx(later, e.psbtOpFileIdx.value).Some?
    ensures GetOpFileByIdx(later, e.psbtOpFileIdx.value) == GetOpFileByIdx(db, e.psbtOpFileIdx.value)
    ensures GetOpFileByIdx(later, e.psbtOpFileIdx.value).value in db.opFiles
  {
    RowInPlace(cfg, db, e);
    var f := e.psbtOpFileIdx.value;
    assert PsbtOk(e, db.opFiles);
    OpFileIs(db, f);
    OpFileIs(later, f);
  }

  lemma OpFileIs(db: Db, f: int)
    requires FilesOk(db.opFiles, |db.operations|) && 1 <= f <= |db.opFiles|
    ensures GetOpFileByIdx(db, f) == Some(db.opFiles[f - 1])
  {
    assert db.opFiles[f - 1] in db.opFiles;
    var found := GetOpFileByIdx(db, f).value;
    var i :| 0 <= i < |db.opFiles| && db.opFiles[i] == found;
  }

  lemma SidesStep(cfg: Config, entries: seq<CosignerOpStatus>, i: nat, ack: bool)
    requires i < |entries|
    ensures Xpubs(cfg, Ackers(entries[..i + 1], ack))
         == Xpubs(cfg, Ackers(entries[..i], ack))
            + if entries[i].ack == Some(ack) then {Xpub(cfg, entries[i].cosignerIdx)} else {}
  {
    var before, e := entries[..i], entries[i];
    assert entries[..i + 1] == before + [e];
    assert Ackers(before + [e], ack) == Ackers(before, ack) + if e.ack == Some(ack) then {e.cosignerIdx} else {};
  }

  /** The first row of the viewer is its only one. */
  lemma MineFound(entries: seq<CosignerOpStatus>, i: nat, c: int)
    requires DistinctCosigners(entries) && i < |entries| && entries[i].cosignerIdx == c
    ensures Mine(entries, Some(c)) == Some(entries[i])
  {
    assert entries[i] in entries;
    var found := Mine(entries, Some(c)).value;
    var j :| 0 <= j < |entries| && entries[j] == found;
  }

  lemma MineMissing(entries: seq<CosignerOpStatus>, c: int)
    requires forall i | 0 <= i < |entries| :: entries[i].cosignerIdx != c
    ensures Mine(entries, Some(c)) == None
  {
  }
}
