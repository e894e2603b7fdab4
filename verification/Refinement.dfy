/** Each request, executed on the row tables, does exactly what the approval machine does
    on the log they stand for, keeps the tables well formed, and never panics. */
module Refinement {
  import opened HubTypes
  import ByteArithmetic
  import opened Tables
  import opened Forms
  import opened Requests
  import opened Scans
  import A = Approval

  // ----- what the staged scripts write -----

  function FileRows(cfg: Config, start: nat, o: int, uploads: seq<Upload>): seq<OpFile> {
    seq(|uploads|, i requires 0 <= i < |uploads| =>
      OpFile(start + i + 1, cfg.digest(uploads[i].content), uploads[i].fileType, o))
  }

  function FreshRows(start: nat, o: int, keys: seq<int>): seq<CosignerOpStatus> {
    seq(|keys|, i requires 0 <= i < |keys| =>
      CosignerOpStatus(start + i + 1, keys[i], o, None, None, None, None))
  }

  ghost predicate FilesNumbered(db: Db) {
    forall i | 0 <= i < |db.opFiles| :: db.opFiles[i].idx == i + 1
  }

  ghost predicate StatusesNumbered(db: Db) {
    forall i | 0 <= i < |db.statuses| :: db.statuses[i].idx == i + 1
  }

  lemma NextFileIs(db: Db)
    requires FilesNumbered(db)
    ensures NextOpFileIdx(db) == |db.opFiles| + 1
  {
    if db.opFiles != [] {
      assert db.opFiles[|db.opFiles| - 1] in db.opFiles;
    }
  }

  lemma NextOperationIs(db: Db)
    requires OperationsOk(db.operations)
    ensures NextOperationIdx(db) == |db.operations| + 1
  {
    if db.operations != [] {
      assert db.operations[|db.operations| - 1] in db.operations;
    }
  }

  lemma StatusInserted(db: Db, c: int, o: int)
    requires StatusesNumbered(db)
    ensures SetCosignerOpStatus(db, c, o)
         == db.(statuses := db.statuses + [CosignerOpStatus(|db.statuses| + 1, c, o, None, None, None, None)])
  {
    if db.statuses != [] {
      assert db.statuses[|db.statuses| - 1] in db.statuses;
    }
  }

  lemma NumbersOk(cfg: Config, db: Db)
    requires Shaped(cfg, db)
    ensures OperationsOk(db.operations) && FilesNumbered(db) && StatusesNumbered(db)
  {
  }

  /** The transaction after its files, or its rows, are inserted. */
  function WithFiles(cfg: Config, txn: Txn, uploads: seq<Upload>): Txn {
    txn.(
      db := txn.db.(opFiles := txn.db.opFiles + FileRows(cfg, |txn.db.opFiles|, txn.operationIdx, uploads)),
      fileIdx := if uploads == [] then txn.fileIdx else Some(|txn.db.opFiles| + |uploads|))
  }

  function WithRows(txn: Txn, keys: seq<int>): Txn {
    txn.(db := txn.db.(
      statuses := txn.db.statuses + FreshRows(|txn.db.statuses|, txn.operationIdx, keys)))
  }

  lemma OneFileStaged(cfg: Config, txn: Txn, u: Upload, rest: seq<Write>)
    requires FilesNumbered(txn.db)
    ensures StageAll(cfg, txn, [PersistFile(u.content), InsertOpFile(u.fileType, cfg.digest(u.content))] + rest)
         == StageAll(cfg, WithFiles(cfg, txn, [u]), rest)
  {
    NextFileIs(txn.db);
    var insert := InsertOpFile(u.fileType, cfg.digest(u.content));
    var script := [PersistFile(u.content), insert] + rest;
    assert script[1..] == [insert] + rest;
    assert script[1..][1..] == rest;
    assert Stage(cfg, txn, insert).value == WithFiles(cfg, txn, [u]);
  }

  lemma FilesSplit(cfg: Config, txn: Txn, uploads: seq<Upload>)
    requires uploads != []
    ensures WithFiles(cfg, txn, uploads) == WithFiles(cfg, WithFiles(cfg, txn, [uploads[0]]), uploads[1..])
  {
    var n, o := |txn.db.opFiles|, txn.operationIdx;
    assert FileRows(cfg, n, o, uploads)
        == FileRows(cfg, n, o, [uploads[0]]) + FileRows(cfg, n + 1, o, uploads[1..]);
  }

  lemma {:induction false} FilesStaged(cfg: Config, txn: Txn, uploads: seq<Upload>)
    requires FilesNumbered(txn.db)
    ensures StageAll(cfg, txn, FileWrites(cfg, uploads)) == Some(WithFiles(cfg, txn, uploads))
    decreases |uploads|
  {
    if uploads == [] {
      assert WithFiles(cfg, txn, uploads) == txn;
    } else {
      OneFileStaged(cfg, txn, uploads[0], FileWrites(cfg, uploads[1..]));
      FilesSplit(cfg, txn, uploads);
      FilesStaged(cfg, WithFiles(cfg, txn, [uploads[0]]), uploads[1..]);
    }
  }

  lemma OneRowStaged(cfg: Config, txn: Txn, c: int, rest: seq<Write>)
    requires StatusesNumbered(txn.db)
    ensures StageAll(cfg, txn, [InsertStatus(c)] + rest) == StageAll(cfg, WithRows(txn, [c]), rest)
  {
    StatusInserted(txn.db, c, txn.operationIdx);
    assert ([InsertStatus(c)] + rest)[1..] == rest;
    assert FreshRows(|txn.db.statuses|, txn.operationIdx, [c])
        == [CosignerOpStatus(|txn.db.statuses| + 1, c, txn.operationIdx, None, None, None, None)];
  }

  lemma RowsSplit(txn: Txn, keys: seq<int>)
    requires keys != []
    ensures WithRows(txn, keys) == WithRows(WithRows(txn, [keys[0]]), keys[1..])
  {
    var n, o := |txn.db.statuses|, txn.operationIdx;
    assert FreshRows(n, o, keys) == FreshRows(n, o, [keys[0]]) + FreshRows(n + 1, o, keys[1..]);
  }

  lemma {:induction false} StatusesStaged(cfg: Config, txn: Txn, keys: seq<int>)
    requires StatusesNumbered(txn.db)
    ensures StageAll(cfg, txn, StatusWrites(keys)) == Some(WithRows(txn, keys))
    decreases |keys|
  {
    if keys == [] {
      assert WithRows(txn, keys) == txn;
    } else {
      OneRowStaged(cfg, txn, keys[0], StatusWrites(keys[1..]));
      RowsSplit(txn, keys);
      StatusesStaged(cfg, WithRows(txn, [keys[0]]), keys[1..]);
    }
  }

  lemma OneWrite(cfg: Config, txn: Txn, w: Write, end: Txn)
    requires Stage(cfg, txn, w) == Some(end)
    ensures StageAll(cfg, txn, [w]) == Some(end)
  {
    assert [w][1..] == [];
    assert StageAll(cfg, end, []) == Some(end);
  }

  // ----- posting -----

  function PostedDb(cfg: Config, db: Db, c: int, opType: OperationType, form: PostForm, now: int, keys: seq<int>): Db {
    var o := |db.operations| + 1;
    db.(
      operations := db.operations + [Operation(o, opType, A.InitialStatus(opType), now, c, form.seed)],
      opFiles := db.opFiles + FileRows(cfg, |db.opFiles|, o, Uploads(form)),
      statuses := db.statuses + FreshRows(|db.statuses|, o, keys))
  }

  lemma InsertStaged(cfg: Config, db: Db, begin: Txn, opType: OperationType, c: int, seed: Option<Bytes>, now: int)
    requires begin.db == db && OperationsOk(db.operations)
    ensures var o := |db.operations| + 1;
            StageAll(cfg, begin, [InsertOperation(opType, c, seed, now)]) == Some(begin.(
              db := db.(operations := db.operations + [Operation(o, opType, A.InitialStatus(opType), now, c, seed)]),
              operationIdx := o, reply := Posted(o)))
  {
    NextOperationIs(db);
    var insert := InsertOperation(opType, c, seed, now);
    OneWrite(cfg, begin, insert, Stage(cfg, begin, insert).value);
  }

  lemma PostEffect(cfg: Config, db: Db, call: Call, opType: OperationType)
    requires OperationsOk(db.operations) && FilesNumbered(db) && StatusesNumbered(db) && call.PostOperation?
    ensures Finish(cfg, db, Begin(db, call, Posted(0)),
                   PostScript(cfg, call.c, opType, FormOf(call), call.now, call.keys))
         == (PostedDb(cfg, db, call.c, opType, FormOf(call), call.now, call.keys), Posted(|db.operations| + 1))
  {
    var uploads := Uploads(FormOf(call));
    var insert := InsertOperation(opType, call.c, FormOf(call).seed, call.now);
    var begin := Begin(db, call, Posted(0));
    InsertStaged(cfg, db, begin, opType, call.c, FormOf(call).seed, call.now);
    var inserted := StageAll(cfg, begin, [insert]).value;
    FilesStaged(cfg, inserted, uploads);
    var filed := WithFiles(cfg, inserted, uploads);
    StatusesStaged(cfg, filed, call.keys);
    StageAllAppend(cfg, begin, [insert], FileWrites(cfg, uploads));
    StageAllAppend(cfg, begin, [insert] + FileWrites(cfg, uploads), StatusWrites(call.keys));
  }

  lemma EntryAfterPost(cfg: Config, db: Db, keys: seq<int>, c: int, o: int)
    requires Shaped(cfg, db) && Enumerates(keys, cfg.Cosigners()) && c in cfg.Cosigners()
    requires 1 <= o <= |db.operations| + 1
    ensures var rows := db.statuses + FreshRows(|db.statuses|, |db.operations| + 1, keys);
            && Unique(rows)
            && (o <= |db.operations| ==> GetEntry(rows, c, o) == GetEntry(db.statuses, c, o))
            && (o == |db.operations| + 1 ==>
                  && GetEntry(rows, c, o).Some?
                  && GetEntry(rows, c, o).value.ack.None?
                  && GetEntry(rows, c, o).value.processedAt.None?)
  {
    var added := FreshRows(|db.statuses|, |db.operations| + 1, keys);
    var rows := db.statuses + added;
    forall i, j | 0 <= i < j < |rows|
      ensures !(rows[i].cosignerIdx == rows[j].cosignerIdx && rows[i].operationIdx == rows[j].operationIdx)
    {
      if i < |db.statuses| { assert rows[i] == db.statuses[i]; }
      if j < |db.statuses| { assert rows[j] == db.statuses[j]; }
    }
    if o <= |db.operations| {
      EntryFound(db.statuses, c, o);
      EntryIs(rows, GetEntry(db.statuses, c, o).value);
    } else {
      var i :| 0 <= i < |keys| && keys[i] == c;
      assert rows[|db.statuses| + i] == added[i];
      EntryIs(rows, added[i]);
    }
  }

  /** One step of the machine, on well-formed tables, gives sane tables. */
  lemma SaneAfter(cfg: Config, db: Db, after: Db, a: A.Action)
    requires Sane(cfg, db) && Shaped(cfg, after)
    requires A.Enabled(cfg, Abs(cfg, db), a) && Abs(cfg, after) == A.Apply(cfg, Abs(cfg, db), a)
    ensures Sane(cfg, after)
  {
    A.StepKeepsInv(cfg, Abs(cfg, db), a);
    assert A.Step(cfg, Abs(cfg, db), a) == Abs(cfg, after);
  }

  lemma RowsAfterPost(cfg: Config, db: Db, keys: seq<int>, o: int)
    requires Shaped(cfg, db) && Enumerates(keys, cfg.Cosigners()) && 1 <= o <= |db.operations| + 1
    ensures var rows := db.statuses + FreshRows(|db.statuses|, |db.operations| + 1, keys);
            && VotesOn(cfg, rows, o) == (if o <= |db.operations| then VotesOn(cfg, db.statuses, o) else map[])
            && ProcessedBy(cfg, rows, o) == (if o <= |db.operations| then ProcessedBy(cfg, db.statuses, o) else {})
  {
    var rows := db.statuses + FreshRows(|db.statuses|, |db.operations| + 1, keys);
    forall d | d in cfg.Cosigners()
      ensures o <= |db.operations| ==> GetEntry(rows, d, o) == GetEntry(db.statuses, d, o)
      ensures o > |db.operations| ==> !HasVote(rows, d, o) && !IsProcessed(rows, d, o)
    {
      EntryAfterPost(cfg, db, keys, d, o);
    }
    if o <= |db.operations| {
      assert VotesOn(cfg, rows, o) == VotesOn(cfg, db.statuses, o);
      assert ProcessedBy(cfg, rows, o) == ProcessedBy(cfg, db.statuses, o);
    } else {
      assert VotesOn(cfg, rows, o) == map[];
      assert ProcessedBy(cfg, rows, o) == {};
    }
  }

  lemma PostAbsAt(cfg: Config, db: Db, c: int, opType: OperationType, form: PostForm, now: int, keys: seq<int>, i: nat)
    requires Shaped(cfg, db) && Enumerates(keys, cfg.Cosigners()) && i <= |db.operations|
    ensures Abs(cfg, PostedDb(cfg, db, c, opType, form, now, keys))[i]
         == if i < |db.operations| then Abs(cfg, db)[i]
            else A.Op(opType, A.InitialStatus(opType), c, form.seed, map[], {})
  {
    hide StatusesOk, FilesOk, TransfersOk, VotesOn, ProcessedBy;
    RowsAfterPost(cfg, db, keys, i + 1);
  }

  lemma PostRefines(cfg: Config, db: Db, c: int, opType: OperationType, form: PostForm, now: int, keys: seq<int>)
    requires Sane(cfg, db) && c in cfg.Cosigners() && Enumerates(keys, cfg.Cosigners())
    requires A.Enabled(cfg, Abs(cfg, db), A.Post(c, opType, form.seed))
    ensures Abs(cfg, PostedDb(cfg, db, c, opType, form, now, keys))
         == A.Apply(cfg, Abs(cfg, db), A.Post(c, opType, form.seed))
    ensures Sane(cfg, PostedDb(cfg, db, c, opType, form, now, keys))
  {
    var after, s := PostedDb(cfg, db, c, opType, form, now, keys), Abs(cfg, db);
    var a := A.Post(c, opType, form.seed);
    PostShaped(cfg, db, c, opType, form, now, keys);
    forall i: nat | i <= |s| ensures Abs(cfg, after)[i] == A.Apply(cfg, s, a)[i] {
      PostAbsAt(cfg, db, c, opType, form, now, keys, i);
    }
    assert Abs(cfg, after) == A.Apply(cfg, s, a);
    SaneAfter(cfg, db, after, a);
  }

  lemma PostShaped(cfg: Config, db: Db, c: int, opType: OperationType, form: PostForm, now: int, keys: seq<int>)
    requires Shaped(cfg, db) && c in cfg.Cosigners() && Enumerates(keys, cfg.Cosigners())
    ensures Shaped(cfg, PostedDb(cfg, db, c, opType, form, now, keys))
  {
    var after := PostedDb(cfg, db, c, opType, form, now, keys);
    var k := |db.operations|;
    EntryAfterPost(cfg, db, keys, c, k + 1);
    forall d, o | d in cfg.Cosigners() && 1 <= o <= k + 1 ensures GetEntry(after.statuses, d, o).Some? {
      EntryAfterPost(cfg, db, keys, d, o);
    }
    forall i | 0 <= i < |after.statuses|
      ensures after.statuses[i].idx == i + 1 && RowOk(cfg, after.statuses[i], k + 1, after.opFiles)
    {
      if i < |db.statuses| {
        assert RowOk(cfg, db.statuses[i], k, db.opFiles);
      } else {
        assert keys[i - |db.statuses|] in keys;
      }
    }
  }

  // ----- updating one row -----

  lemma RowReplaced(db: Db, row: CosignerOpStatus)
    requires StatusesNumbered(db) && 1 <= row.idx <= |db.statuses|
    ensures UpdateCosignerOpStatus(db, row) == db.(statuses := db.statuses[row.idx - 1 := row])
  {
  }

  lemma OperationReplaced(db: Db, row: Operation)
    requires OperationsOk(db.operations) && 1 <= row.idx <= |db.operations|
    ensures UpdateOperation(db, row) == db.(operations := db.operations[row.idx - 1 := row])
  {
  }

  /** `row` takes the place of a row with the same number, cosigner and operation. */
  ghost predicate Replaces(rows: seq<CosignerOpStatus>, row: CosignerOpStatus) {
    && 1 <= row.idx <= |rows|
    && rows[row.idx - 1].idx == row.idx
    && rows[row.idx - 1].cosignerIdx == row.cosignerIdx
    && rows[row.idx - 1].operationIdx == row.operationIdx
  }

  lemma UniqueAfterUpdate(rows: seq<CosignerOpStatus>, row: CosignerOpStatus)
    requires Unique(rows) && Replaces(rows, row)
    ensures Unique(rows[row.idx - 1 := row])
  {
  }

  lemma EntryAfterUpdate(rows: seq<CosignerOpStatus>, row: CosignerOpStatus, c: int, o: int)
    requires Unique(rows) && Replaces(rows, row)
    ensures GetEntry(rows[row.idx - 1 := row], c, o)
         == if c == row.cosignerIdx && o == row.operationIdx then Some(row) else GetEntry(rows, c, o)
  {
    var after := rows[row.idx - 1 := row];
    UniqueAfterUpdate(rows, row);
    if c == row.cosignerIdx && o == row.operationIdx {
      assert after[row.idx - 1] == row;
      EntryIs(after, row);
    } else if GetEntry(rows, c, o).Some? {
      var e := GetEntry(rows, c, o).value;
      var i :| 0 <= i < |rows| && rows[i] == e;
      assert after[i] == e;
      EntryIs(after, e);
    } else {
      forall r | r in after ensures !(r.cosignerIdx == c && r.operationIdx == o) {
        var i :| 0 <= i < |after| && after[i] == r;
        assert rows[i] in rows;
      }
      EntryMissing(after, c, o);
    }
  }

  lemma StatusesAfterUpdate(cfg: Config, db: Db, row: CosignerOpStatus, files: seq<OpFile>)
    requires Shaped(cfg, db) && Replaces(db.statuses, row)
    requires db.opFiles <= files && RowOk(cfg, row, |db.operations|, files)
    ensures StatusesOk(cfg, db.statuses[row.idx - 1 := row], |db.operations|, files)
  {
    var after, k := db.statuses[row.idx - 1 := row], |db.operations|;
    UniqueAfterUpdate(db.statuses, row);
    forall c, o | c in cfg.Cosigners() && 1 <= o <= k ensures GetEntry(after, c, o).Some? {
      EntryAfterUpdate(db.statuses, row, c, o);
    }
    forall i | 0 <= i < |after| ensures after[i].idx == i + 1 && RowOk(cfg, after[i], k, files) {
      assert RowOk(cfg, db.statuses[i], k, db.opFiles);
    }
  }

  /** How the log sees an updated row: at most the votes and marks of one operation change. */
  lemma OthersUntouched(cfg: Config, rows: seq<CosignerOpStatus>, row: CosignerOpStatus, o: int)
    requires Unique(rows) && Replaces(rows, row) && o != row.operationIdx
    ensures VotesOn(cfg, rows[row.idx - 1 := row], o) == VotesOn(cfg, rows, o)
    ensures ProcessedBy(cfg, rows[row.idx - 1 := row], o) == ProcessedBy(cfg, rows, o)
  {
    forall c ensures GetEntry(rows[row.idx - 1 := row], c, o) == GetEntry(rows, c, o) {
      EntryAfterUpdate(rows, row, c, o);
    }
  }

  lemma VotesReplaced(cfg: Config, rows: seq<CosignerOpStatus>, row: CosignerOpStatus)
    requires Unique(rows) && Replaces(rows, row) && row.cosignerIdx in cfg.Cosigners()
    ensures var before, after := VotesOn(cfg, rows, row.operationIdx),
                                 VotesOn(cfg, rows[row.idx - 1 := row], row.operationIdx);
            && (row.ack.Some? ==> after == before[row.cosignerIdx := row.ack.value])
            && (row.ack == rows[row.idx - 1].ack ==> after == before)
  {
    hide Unique;
    var after, o := rows[row.idx - 1 := row], row.operationIdx;
    EntryIs(rows, rows[row.idx - 1]);
    forall c
      ensures HasVote(after, c, o) <==> if c == row.cosignerIdx then row.ack.Some? else HasVote(rows, c, o)
      ensures HasVote(after, c, o) ==>
                GetEntry(after, c, o).value.ack ==
                  if c == row.cosignerIdx then row.ack else GetEntry(rows, c, o).value.ack
    {
      EntryAfterUpdate(rows, row, c, o);
    }
  }

  lemma MarksReplaced(cfg: Config, rows: seq<CosignerOpStatus>, row: CosignerOpStatus)
    requires Unique(rows) && Replaces(rows, row) && row.cosignerIdx in cfg.Cosigners()
    ensures var before, after := ProcessedBy(cfg, rows, row.operationIdx),
                                 ProcessedBy(cfg, rows[row.idx - 1 := row], row.operationIdx);
            && (row.processedAt.Some? ==> after == before + {row.cosignerIdx})
            && (row.processedAt == rows[row.idx - 1].processedAt ==> after == before)
  {
    hide Unique;
    var after, o := rows[row.idx - 1 := row], row.operationIdx;
    EntryIs(rows, rows[row.idx - 1]);
    forall c
      ensures IsProcessed(after, c, o) <==>
                if c == row.cosignerIdx then row.processedAt.Some? else IsProcessed(rows, c, o)
    {
      EntryAfterUpdate(rows, row, c, o);
    }
  }

  // ----- marking -----

  function MarkedDb(db: Db, entry: CosignerOpStatus, now: int): Db
    requires 1 <= entry.idx <= |db.statuses|
  {
    db.(statuses := db.statuses[entry.idx - 1 := entry.(processedAt := Some(now))])
  }

  lemma RowInPlace(cfg: Config, db: Db, entry: CosignerOpStatus)
    requires Shaped(cfg, db) && entry in db.statuses
    ensures 1 <= entry.idx <= |db.statuses| && db.statuses[entry.idx - 1] == entry
    ensures RowOk(cfg, entry, |db.operations|, db.opFiles)
  {
    var j :| 0 <= j < |db.statuses| && db.statuses[j] == entry;
  }

  lemma MarkShaped(cfg: Config, db: Db, entry: CosignerOpStatus, now: int)
    requires Shaped(cfg, db) && entry in db.statuses
    ensures 1 <= entry.idx <= |db.statuses|
    ensures Shaped(cfg, MarkedDb(db, entry, now))
  {
    RowInPlace(cfg, db, entry);
    StatusesAfterUpdate(cfg, db, entry.(processedAt := Some(now)), db.opFiles);
  }

  lemma MarkedRowSeen(cfg: Config, db: Db, entry: CosignerOpStatus, now: int, o: int)
    requires Unique(db.statuses) && 1 <= entry.idx <= |db.statuses| && db.statuses[entry.idx - 1] == entry
    requires entry.cosignerIdx in cfg.Cosigners()
    ensures var rows := MarkedDb(db, entry, now).statuses;
            && VotesOn(cfg, rows, o) == VotesOn(cfg, db.statuses, o)
            && ProcessedBy(cfg, rows, o) ==
                 ProcessedBy(cfg, db.statuses, o) + (if o == entry.operationIdx then {entry.cosignerIdx} else {})
  {
    hide Unique, VotesOn, ProcessedBy;
    var row := entry.(processedAt := Some(now));
    if o == entry.operationIdx {
      VotesReplaced(cfg, db.statuses, row);
      MarksReplaced(cfg, db.statuses, row);
    } else {
      OthersUntouched(cfg, db.statuses, row, o);
    }
  }

  lemma MarkAbsAt(cfg: Config, db: Db, entry: CosignerOpStatus, now: int, i: nat)
    requires Shaped(cfg, db) && entry in db.statuses && i < |db.operations|
    ensures 1 <= entry.idx <= |db.statuses|
    ensures var op := Abs(cfg, db)[i];
            Abs(cfg, MarkedDb(db, entry, now))[i] ==
              if i + 1 == entry.operationIdx then op.(processed := op.processed + {entry.cosignerIdx}) else op
  {
    RowInPlace(cfg, db, entry);
    assert db.operations[i].idx == i + 1 && Unique(db.statuses);
    hide Shaped, Unique, VotesOn, ProcessedBy;
    MarkedRowSeen(cfg, db, entry, now, i + 1);
    assert ProcessedBy(cfg, db.statuses, i + 1) + {} == ProcessedBy(cfg, db.statuses, i + 1);
  }

  /** Two logs that agree everywhere but at one place. */
  lemma OnePlaceChanged(s: A.State, t: A.State, i: nat, op: A.Op)
    requires |t| == |s| && i < |s| && t[i] == op
    requires forall k | 0 <= k < |s| && k != i :: t[k] == s[k]
    ensures t == s[i := op]
  {
  }

  lemma MarkAbs(cfg: Config, db: Db, entry: CosignerOpStatus, now: int)
    requires Shaped(cfg, db) && entry in db.statuses
    ensures 1 <= entry.idx <= |db.statuses| && 1 <= entry.operationIdx <= |db.operations|
    ensures var s, i := Abs(cfg, db), entry.operationIdx - 1;
            Abs(cfg, MarkedDb(db, entry, now)) ==
              s[i := s[i].(processed := s[i].processed + {entry.cosignerIdx})]
  {
    RowInPlace(cfg, db, entry);
    var s, t, i := Abs(cfg, db), Abs(cfg, MarkedDb(db, entry, now)), entry.operationIdx - 1;
    assert |t| == |s| == |db.operations|;
    hide Shaped, RowOk, Abs, MarkedDb;
    forall k | 0 <= k < |s| && k != i ensures t[k] == s[k] {
      MarkAbsAt(cfg, db, entry, now, k);
    }
    MarkAbsAt(cfg, db, entry, now, i);
    OnePlaceChanged(s, t, i, s[i].(processed := s[i].processed + {entry.cosignerIdx}));
  }

  lemma MarkRefines(cfg: Config, db: Db, entry: CosignerOpStatus, now: int)
    requires Sane(cfg, db) && entry in db.statuses
    requires A.Enabled(cfg, Abs(cfg, db), A.Mark(entry.cosignerIdx, entry.operationIdx))
    ensures 1 <= entry.idx <= |db.statuses|
    ensures Abs(cfg, MarkedDb(db, entry, now))
         == A.Apply(cfg, Abs(cfg, db), A.Mark(entry.cosignerIdx, entry.operationIdx))
    ensures Sane(cfg, MarkedDb(db, entry, now))
  {
    hide Shaped, A.Inv, Abs;
    MarkShaped(cfg, db, entry, now);
    MarkAbs(cfg, db, entry, now);
    SaneAfter(cfg, db, MarkedDb(db, entry, now), A.Mark(entry.cosignerIdx, entry.operationIdx));
  }

  // ----- responding -----

  function VotedRow(db: Db, entry: CosignerOpStatus, ack: bool, psbt: Option<Bytes>, now: int): CosignerOpStatus {
    entry.(
      ack := Some(ack), respondedAt := Some(now),
      psbtOpFileIdx := if psbt.Some? then Some(|db.opFiles| + 1) else entry.psbtOpFileIdx)
  }

  /** The tables with the vote staged, before the status is settled. */
  function VotedDb(cfg: Config, db: Db, entry: CosignerOpStatus, ack: bool, psbt: Option<Bytes>, now: int): Db
    requires 1 <= entry.idx <= |db.statuses|
  {
    db.(
      opFiles := db.opFiles
        + FileRows(cfg, |db.opFiles|, entry.operationIdx, PsbtUploads(psbt, FileType.ResponsePsbt)),
      statuses := db.statuses[entry.idx - 1 := VotedRow(db, entry, ack, psbt, now)])
  }

  function RespondedDb(
    cfg: Config, db: Db, op: Operation, entry: CosignerOpStatus, ack: bool, psbt: Option<Bytes>, now: int): Db
    requires 1 <= entry.idx <= |db.statuses| && 1 <= op.idx <= |db.operations|
  {
    var status := SettledStatus(cfg, db, op, entry.cosignerIdx, ack);
    VotedDb(cfg, db, entry, ack, psbt, now).(operations := db.operations[op.idx - 1 := op.(status := status)])
  }

  /** What makes the vote acceptable, in terms of the tables and of the log. */
  ghost predicate Votable(cfg: Config, db: Db, op: Operation, entry: CosignerOpStatus, ack: bool, psbt: Option<Bytes>) {
    && Sane(cfg, db)
    && op in db.operations && entry in db.statuses && entry.operationIdx == op.idx
    && (ack ==> psbt.Some?)
    && A.Enabled(cfg, Abs(cfg, db), A.Respond(entry.cosignerIdx, op.idx, ack))
  }

  lemma VotableRows(cfg: Config, db: Db, op: Operation, entry: CosignerOpStatus, ack: bool, psbt: Option<Bytes>)
    requires Votable(cfg, db, op, entry, ack, psbt)
    ensures 1 <= entry.idx <= |db.statuses| && db.statuses[entry.idx - 1] == entry
    ensures 1 <= op.idx <= |db.operations| && db.operations[op.idx - 1] == op
    ensures entry.cosignerIdx in cfg.Cosigners() && entry.ack.None? && op.status == Pending
    ensures Abs(cfg, db)[op.idx - 1] == AbsOp(cfg, db.statuses, op)
    ensures RowOk(cfg, entry, |db.operations|, db.opFiles)
  {
    var i :| 0 <= i < |db.operations| && db.operations[i] == op;
    RowInPlace(cfg, db, entry);
    EntryIs(db.statuses, entry);
    assert Abs(cfg, db)[i].votes == VotesOn(cfg, db.statuses, op.idx);
  }

  lemma VotersFit(cfg: Config, votes: map<int, bool>)
    requires votes.Keys <= cfg.Cosigners()
    ensures |A.Acks(votes)| + |A.Nacks(votes)| <= |cfg.Cosigners()|
  {
    A.VotesSplit(votes);
    assert |votes| == |votes.Keys|;
    assert cfg.Cosigners() == votes.Keys + (cfg.Cosigners() - votes.Keys);
  }

  /** On these votes, u8 arithmetic takes the ideal decision. */
  predicate Decides(cfg: Config, opType: OperationType, votes: map<int, bool>) {
    var t := cfg.Threshold(opType);
    && t.Some?
    && ByteArithmetic.DecideU8(cfg.overflowChecks, |cfg.Cosigners()|, t.value, |A.Acks(votes)|, |A.Nacks(votes)|) ==
         Some(A.Tallied(cfg, t.value, votes))
  }

  /** With a fitting configuration it does on the votes of a pending operation plus one. */
  lemma OneMoreVoteDecides(cfg: Config, op: A.Op, c: int, ack: bool)
    requires cfg.Sound() && ConfigFits(cfg) && A.OpInv(cfg, op) && op.status == Pending
    requires c in cfg.Cosigners() && c !in op.votes
    ensures Decides(cfg, op.opType, op.votes[c := ack])
  {
    var more := op.votes[c := ack];
    A.VoteAdded(op.votes, c, ack);
    VotersFit(cfg, more);
    var t := cfg.Threshold(op.opType).value;
    ByteArithmetic.FittingDecision(cfg.overflowChecks, |cfg.Cosigners()|, t, |A.Acks(more)|, |A.Nacks(more)|);
  }

  /** The staged rows still belong to cosigners, one row each. */
  lemma StagedRows(
    cfg: Config, db: Db, entry: CosignerOpStatus, ack: bool, psbt: Option<Bytes>, now: int)
    requires Shaped(cfg, db) && entry in db.statuses
    ensures 1 <= entry.idx <= |db.statuses|
    ensures var rows := VotedDb(cfg, db, entry, ack, psbt, now).statuses;
            Unique(rows) && forall row | row in rows :: row.cosignerIdx in cfg.Cosigners()
  {
    RowInPlace(cfg, db, entry);
    UniqueAfterUpdate(db.statuses, VotedRow(db, entry, ack, psbt, now));
    var rows := VotedDb(cfg, db, entry, ack, psbt, now).statuses;
    forall row | row in rows ensures row.cosignerIdx in cfg.Cosigners() {
      var i :| 0 <= i < |rows| && rows[i] == row;
      assert RowOk(cfg, db.statuses[i], |db.operations|, db.opFiles);
    }
  }

  /** The fold over the staged rows counts the votes cast so far plus the new one. */
  lemma StagedTally(
    cfg: Config, db: Db, op: Operation, entry: CosignerOpStatus, ack: bool, psbt: Option<Bytes>, now: int)
    requires Votable(cfg, db, op, entry, ack, psbt)
    ensures 1 <= entry.idx <= |db.statuses|
    ensures var more := VotesOn(cfg, db.statuses, op.idx)[entry.cosignerIdx := ack];
            Tally(EntriesOf(VotedDb(cfg, db, entry, ack, psbt, now).statuses, op.idx)) ==
              (|A.Acks(more)|, |A.Nacks(more)|)
  {
    hide Shaped, A.Inv, A.Enabled, VotesOn, Tally, EntriesOf;
    VotableRows(cfg, db, op, entry, ack, psbt);
    StagedRows(cfg, db, entry, ack, psbt, now);
    VotedRowSeen(cfg, db, entry, ack, psbt, now, op.idx);
    TallyScan(cfg, VotedDb(cfg, db, entry, ack, psbt, now).statuses, op.idx);
  }

  /** What settling does, whatever the u8 decision turns out to be. */
  lemma SettledIs(cfg: Config, db: Db, op: Operation, acks: nat, nacks: nat)
    requires OperationsOk(db.operations) && 1 <= op.idx <= |db.operations|
    requires db.operations[op.idx - 1] == op && op.status == Pending && cfg.Threshold(op.opType).Some?
    requires Tally(EntriesOf(db.statuses, op.idx)) == (acks, nacks)
    ensures var t := cfg.Threshold(op.opType).value;
            var decided := ByteArithmetic.DecideU8(cfg.overflowChecks, |cfg.Cosigners()|, t, acks, nacks);
            Settled(cfg, db, op) ==
              if decided.None? then None
              else Some(db.(operations := db.operations[op.idx - 1 := op.(status := decided.value)]))
  {
    hide ByteArithmetic.DecideU8, Tally, EntriesOf;
    var t := cfg.Threshold(op.opType).value;
    var decided := ByteArithmetic.DecideU8(cfg.overflowChecks, |cfg.Cosigners()|, t, acks, nacks);
    if decided.Some? {
      OperationReplaced(db, op.(status := decided.value));
      assert db.operations[op.idx - 1 := op] == db.operations;
    }
  }

  /** The u8 decision on the staged rows is the ideal decision on the votes. */
  lemma SettleIsExact(
    cfg: Config, db: Db, op: Operation, entry: CosignerOpStatus, ack: bool, psbt: Option<Bytes>, now: int)
    requires Votable(cfg, db, op, entry, ack, psbt)
    requires Decides(cfg, op.opType, VotesOn(cfg, db.statuses, op.idx)[entry.cosignerIdx := ack])
    ensures 1 <= entry.idx <= |db.statuses| && 1 <= op.idx <= |db.operations|
    ensures Settled(cfg, VotedDb(cfg, db, entry, ack, psbt, now), op)
         == Some(RespondedDb(cfg, db, op, entry, ack, psbt, now))
  {
    VotableRows(cfg, db, op, entry, ack, psbt);
    StagedTally(cfg, db, op, entry, ack, psbt, now);
    hide A.Inv, StatusesOk, VotesOn, ByteArithmetic.DecideU8, A.Tallied;
    var more := VotesOn(cfg, db.statuses, op.idx)[entry.cosignerIdx := ack];
    SettledIs(cfg, VotedDb(cfg, db, entry, ack, psbt, now), op, |A.Acks(more)|, |A.Nacks(more)|);
  }

  lemma VoteStaged(cfg: Config, db: Db, txn: Txn, entry: CosignerOpStatus, ack: bool, psbt: Option<Bytes>, now: int)
    requires StatusesNumbered(db) && 1 <= entry.idx <= |db.statuses|
    requires txn.db == db && txn.operationIdx == entry.operationIdx && txn.fileIdx.None?
    ensures var filed := WithFiles(cfg, txn, PsbtUploads(psbt, FileType.ResponsePsbt));
            Stage(cfg, filed, RecordVote(entry, ack, now)) ==
              Some(filed.(db := VotedDb(cfg, db, entry, ack, psbt, now)))
  {
    var filed := WithFiles(cfg, txn, PsbtUploads(psbt, FileType.ResponsePsbt));
    RowReplaced(filed.db, VotedRow(db, entry, ack, psbt, now));
  }

  lemma TwoWrites(cfg: Config, txn: Txn, a: Write, b: Write, mid: Txn)
    requires Stage(cfg, txn, a) == Some(mid)
    ensures StageAll(cfg, txn, [a, b]) == Stage(cfg, mid, b)
  {
    assert [a, b][1..] == [b] && [b][1..] == [];
    if Stage(cfg, mid, b).Some? {
      assert StageAll(cfg, Stage(cfg, mid, b).value, []) == Stage(cfg, mid, b);
    }
    assert StageAll(cfg, mid, [b]) == Stage(cfg, mid, b);
  }

  /** A response stages its PSBT and its vote, and then settles the operation. */
  lemma RespondEffect(cfg: Config, db: Db, call: Call, op: Operation, entry: CosignerOpStatus, ack: bool)
    requires call.RespondToOperation? && Subject(call) == op.idx && entry.operationIdx == op.idx
    requires FilesNumbered(db) && StatusesNumbered(db)
    requires 1 <= entry.idx <= |db.statuses|
    ensures var settled := Settled(cfg, VotedDb(cfg, db, entry, ack, call.response.psbt, call.now), op);
            Finish(cfg, db, Begin(db, call, Responded(op.idx)),
                   RespondScript(cfg, op, entry, ack, call.response.psbt, call.now)) ==
              if settled.None? then (db, Refused(Panic)) else (settled.value, Responded(op.idx))
  {
    hide Settled, FilesNumbered, StatusesNumbered, FileWrites;
    var psbt, now := call.response.psbt, call.now;
    var begin, uploads := Begin(db, call, Responded(op.idx)), PsbtUploads(psbt, FileType.ResponsePsbt);
    FilesStaged(cfg, begin, uploads);
    StageAllAppend(cfg, begin, FileWrites(cfg, uploads), [RecordVote(entry, ack, now), SettleOperation(op)]);
    VoteStaged(cfg, db, begin, entry, ack, psbt, now);
    var filed := WithFiles(cfg, begin, uploads);
    var voted := filed.(db := VotedDb(cfg, db, entry, ack, psbt, now));
    TwoWrites(cfg, filed, RecordVote(entry, ack, now), SettleOperation(op), voted);
  }

  lemma VotedRowOk(cfg: Config, db: Db, entry: CosignerOpStatus, ack: bool, psbt: Option<Bytes>, now: int)
    requires Shaped(cfg, db) && entry in db.statuses && (ack ==> psbt.Some?) && entry.ack.None?
    ensures 1 <= entry.idx <= |db.statuses|
    ensures var after := VotedDb(cfg, db, entry, ack, psbt, now);
            && RowOk(cfg, VotedRow(db, entry, ack, psbt, now), |db.operations|, after.opFiles)
            && FilesOk(after.opFiles, |db.operations|)
  {
    RowInPlace(cfg, db, entry);
    var files := VotedDb(cfg, db, entry, ack, psbt, now).opFiles;
    var row := VotedRow(db, entry, ack, psbt, now);
    assert PsbtOk(entry, db.opFiles);
    if psbt.Some? {
      assert files[|db.opFiles|].fileType == FileType.ResponsePsbt;
    }
    assert PsbtOk(row, files);
  }

  lemma RespondShaped(
    cfg: Config, db: Db, op: Operation, entry: CosignerOpStatus, ack: bool, psbt: Option<Bytes>, now: int)
    requires Shaped(cfg, db) && entry in db.statuses && (ack ==> psbt.Some?) && entry.ack.None?
    requires 1 <= op.idx <= |db.operations| && db.operations[op.idx - 1] == op
    ensures 1 <= entry.idx <= |db.statuses|
    ensures Shaped(cfg, RespondedDb(cfg, db, op, entry, ack, psbt, now))
  {
    RowInPlace(cfg, db, entry);
    VotedRowOk(cfg, db, entry, ack, psbt, now);
    StatusesAfterUpdate(cfg, db, VotedRow(db, entry, ack, psbt, now), VotedDb(cfg, db, entry, ack, psbt, now).opFiles);
  }

  lemma VotedRowSeen(cfg: Config, db: Db, entry: CosignerOpStatus, ack: bool, psbt: Option<Bytes>, now: int, o: int)
    requires Shaped(cfg, db) && entry in db.statuses
    ensures 1 <= entry.idx <= |db.statuses|
    ensures var rows := VotedDb(cfg, db, entry, ack, psbt, now).statuses;
            && VotesOn(cfg, rows, o) == (if o == entry.operationIdx
                                         then VotesOn(cfg, db.statuses, o)[entry.cosignerIdx := ack]
                                         else VotesOn(cfg, db.statuses, o))
            && ProcessedBy(cfg, rows, o) == ProcessedBy(cfg, db.statuses, o)
  {
    RowInPlace(cfg, db, entry);
    assert Unique(db.statuses);
    hide Shaped, RowOk, Unique, VotesOn, ProcessedBy;
    var row := VotedRow(db, entry, ack, psbt, now);
    if o == entry.operationIdx {
      VotesReplaced(cfg, db.statuses, row);
      MarksReplaced(cfg, db.statuses, row);
    } else {
      OthersUntouched(cfg, db.statuses, row, o);
    }
  }

  /** The settled status the tables record for the operation voted on. */
  function SettledStatus(cfg: Config, db: Db, op: Operation, c: int, ack: bool): OperationStatus {
    var t := cfg.Threshold(op.opType);
    if t.None? then op.status
    else A.Tallied(cfg, t.value, VotesOn(cfg, db.statuses, op.idx)[c := ack])
  }

  lemma SameOpSeen(cfg: Config, before: seq<CosignerOpStatus>, after: seq<CosignerOpStatus>, op: Operation)
    requires VotesOn(cfg, after, op.idx) == VotesOn(cfg, before, op.idx)
    requires ProcessedBy(cfg, after, op.idx) == ProcessedBy(cfg, before, op.idx)
    ensures AbsOp(cfg, after, op) == AbsOp(cfg, before, op)
  {
  }

  lemma VotedOpSeen(cfg: Config, db: Db, after: seq<CosignerOpStatus>, op: Operation, c: int, ack: bool)
    requires VotesOn(cfg, after, op.idx) == VotesOn(cfg, db.statuses, op.idx)[c := ack]
    requires ProcessedBy(cfg, after, op.idx) == ProcessedBy(cfg, db.statuses, op.idx)
    ensures AbsOp(cfg, after, op.(status := SettledStatus(cfg, db, op, c, ack)))
         == A.Voted(cfg, AbsOp(cfg, db.statuses, op), c, ack)
  {
  }

  lemma RespondAbsAt(
    cfg: Config, db: Db, op: Operation, entry: CosignerOpStatus, ack: bool, psbt: Option<Bytes>, now: int, i: nat)
    requires Shaped(cfg, db) && entry in db.statuses && entry.operationIdx == op.idx
    requires i < |db.operations| && 1 <= op.idx <= |db.operations| && db.operations[op.idx - 1] == op
    ensures 1 <= entry.idx <= |db.statuses|
    ensures Abs(cfg, RespondedDb(cfg, db, op, entry, ack, psbt, now))[i] ==
              if i + 1 == op.idx then A.Voted(cfg, Abs(cfg, db)[i], entry.cosignerIdx, ack) else Abs(cfg, db)[i]
  {
    VotedRowSeen(cfg, db, entry, ack, psbt, now, i + 1);
    var before, after := db.operations[i], RespondedDb(cfg, db, op, entry, ack, psbt, now);
    assert before.idx == i + 1;
    if i + 1 == op.idx {
      VotedOpSeen(cfg, db, after.statuses, op, entry.cosignerIdx, ack);
    } else {
      assert after.operations[i] == before;
      SameOpSeen(cfg, db.statuses, after.statuses, before);
    }
  }

  lemma RespondAbs(
    cfg: Config, db: Db, op: Operation, entry: CosignerOpStatus, ack: bool, psbt: Option<Bytes>, now: int)
    requires Shaped(cfg, db) && entry in db.statuses && entry.operationIdx == op.idx
    requires 1 <= op.idx <= |db.operations| && db.operations[op.idx - 1] == op
    ensures 1 <= entry.idx <= |db.statuses|
    ensures Abs(cfg, RespondedDb(cfg, db, op, entry, ack, psbt, now))
         == Abs(cfg, db)[op.idx - 1 := A.Voted(cfg, Abs(cfg, db)[op.idx - 1], entry.cosignerIdx, ack)]
  {
    RowInPlace(cfg, db, entry);
    var s, t, i := Abs(cfg, db), Abs(cfg, RespondedDb(cfg, db, op, entry, ack, psbt, now)), op.idx - 1;
    assert |t| == |s| == |db.operations|;
    hide Shaped, Abs, RespondedDb, A.Voted;
    forall k | 0 <= k < |s| && k != i ensures t[k] == s[k] {
      RespondAbsAt(cfg, db, op, entry, ack, psbt, now, k);
    }
    RespondAbsAt(cfg, db, op, entry, ack, psbt, now, i);
    OnePlaceChanged(s, t, i, A.Voted(cfg, s[i], entry.cosignerIdx, ack));
  }

  lemma RespondRefines(
    cfg: Config, db: Db, op: Operation, entry: CosignerOpStatus, ack: bool, psbt: Option<Bytes>, now: int)
    requires Votable(cfg, db, op, entry, ack, psbt)
    ensures 1 <= entry.idx <= |db.statuses| && 1 <= op.idx <= |db.operations|
    ensures Abs(cfg, RespondedDb(cfg, db, op, entry, ack, psbt, now))
         == A.Apply(cfg, Abs(cfg, db), A.Respond(entry.cosignerIdx, op.idx, ack))
    ensures Sane(cfg, RespondedDb(cfg, db, op, entry, ack, psbt, now))
  {
    VotableRows(cfg, db, op, entry, ack, psbt);
    RespondShaped(cfg, db, op, entry, ack, psbt, now);
    RespondAbs(cfg, db, op, entry, ack, psbt, now);
    SaneAfter(cfg, db, RespondedDb(cfg, db, op, entry, ack, psbt, now), A.Respond(entry.cosignerIdx, op.idx, ack));
  }

  // ----- one request -----

  /** The step of the approval machine a call asks for; None for a malformed form, and
      for the calls that are not about operations. */
  function ActionOf(call: Call): Option<A.Action> {
    match call
    case PostOperation(c, parts, _, _) =>
      var form := FormOf(call);
      if ParsePost(parts).Err? || form.opType.None? || (form.files == [] && form.psbt.None?) then None
      else Some(A.Post(c, form.opType.value, form.seed))
    case RespondToOperation(c, form, _) =>
      if form.request.None? || (form.request.value.ack && form.psbt.None?) then None
      else Some(A.Respond(c, form.request.value.operationIdx, form.request.value.ack))
    case MarkOperationProcessed(c, idx, _) => Some(A.Mark(c, idx))
    case _ => None
  }

  /** `Exec` succeeds exactly when the machine's step is enabled, and takes that step; it
      panics only on an empty type part. */
  ghost predicate Refines(cfg: Config, db: Db, call: Call) {
    var (after, reply) := Exec(cfg, db, call);
    && Sane(cfg, after)
    && (reply == Refused(Panic) <==> PanicsOn(db, call)) && reply != Refused(Internal)
    && (reply.Refused? ==> after == db)
    && match ActionOf(call)
       case Some(a) =>
         && (!reply.Refused? <==> A.Enabled(cfg, Abs(cfg, db), a))
         && Abs(cfg, after) == A.Step(cfg, Abs(cfg, db), a)
       case None => Abs(cfg, after) == Abs(cfg, db)
  }

  predicate AsksFor(cfg: Config, db: Db, call: Call) {
    ActionOf(call).Some? && A.Enabled(cfg, Abs(cfg, db), ActionOf(call).value)
  }

  lemma RefusalRefines(cfg: Config, db: Db, call: Call)
    requires Sane(cfg, db) && !AsksFor(cfg, db, call)
    requires var plan := Next(cfg, call, Observe(db, call));
             plan.Refuse? && (plan.error == Panic <==> PanicsOn(db, call)) && plan.error != Internal
    ensures Refines(cfg, db, call)
  {
  }

  lemma CommitRefines(cfg: Config, db: Db, call: Call, after: Db, reply: Reply)
    requires AsksFor(cfg, db, call) && Exec(cfg, db, call) == (after, reply) && !reply.Refused?
    requires Sane(cfg, after) && Abs(cfg, after) == A.Apply(cfg, Abs(cfg, db), ActionOf(call).value)
    ensures Refines(cfg, db, call)
  {
  }

  /** A post is committed when the machine allows it and refused otherwise. */
  lemma PostPlan(cfg: Config, db: Db, call: Call)
    requires Shaped(cfg, db) && WellFormed(cfg, call) && call.PostOperation?
    ensures var plan := Next(cfg, call, Observe(db, call));
            if AsksFor(cfg, db, call) then
              plan == Commit(PostScript(cfg, call.c, FormOf(call).opType.value, FormOf(call), call.now, call.keys),
                             Posted(0))
            else
              plan.Refuse? && (plan.error == Panic <==> PanicsOn(db, call)) && plan.error != Internal
  {
    hide StatusesOk;
    PendingScan(cfg, db);
    UnprocessedScan(cfg, db, call.c);
  }

  lemma PostResult(cfg: Config, db: Db, call: Call)
    requires Shaped(cfg, db) && WellFormed(cfg, call) && call.PostOperation? && AsksFor(cfg, db, call)
    ensures Exec(cfg, db, call)
         == (PostedDb(cfg, db, call.c, FormOf(call).opType.value, FormOf(call), call.now, call.keys),
             Posted(|db.operations| + 1))
  {
    PostPlan(cfg, db, call);
    PostEffect(cfg, db, call, FormOf(call).opType.value);
  }

  lemma PostExec(cfg: Config, db: Db, call: Call)
    requires Sane(cfg, db) && WellFormed(cfg, call) && call.PostOperation?
    ensures Refines(cfg, db, call)
  {
    PostPlan(cfg, db, call);
    if AsksFor(cfg, db, call) {
      var opType := FormOf(call).opType.value;
      PostResult(cfg, db, call);
      PostRefines(cfg, db, call.c, opType, FormOf(call), call.now, call.keys);
      CommitRefines(cfg, db, call, PostedDb(cfg, db, call.c, opType, FormOf(call), call.now, call.keys),
                    Posted(|db.operations| + 1));
    } else {
      RefusalRefines(cfg, db, call);
    }
  }

  /** The row a cosigner has for an existing operation, and what the log says of it. */
  lemma EntryOf(cfg: Config, db: Db, c: int, idx: int)
    requires Shaped(cfg, db) && c in cfg.Cosigners() && 1 <= idx <= |db.operations|
    ensures GetOperationByIdx(db, idx) == Some(db.operations[idx - 1])
    ensures GetEntry(db.statuses, c, idx).Some?
    ensures var entry, op := GetEntry(db.statuses, c, idx).value, Abs(cfg, db)[idx - 1];
            && entry in db.statuses && entry.cosignerIdx == c && entry.operationIdx == idx
            && (c in op.votes <==> entry.ack.Some?)
            && (c in op.processed <==> entry.processedAt.Some?)
            && op.status == db.operations[idx - 1].status
  {
    OperationIs(db, idx);
    EntryFound(db.statuses, c, idx);
  }

  /** What the queries of a cosigner about an operation say, in terms of a log. */
  ghost predicate Sees(db: Db, s: A.State, c: int, idx: int) {
    && (GetOperationByIdx(db, idx).Some? <==> 1 <= idx <= |s|)
    && (1 <= idx <= |s| ==>
          var entry := GetEntry(db.statuses, c, idx);
          && GetOperationByIdx(db, idx).value.status == s[idx - 1].status
          && entry.Some?
          && (entry.value.ack.Some? <==> c in s[idx - 1].votes)
          && (entry.value.processedAt.Some? <==> c in s[idx - 1].processed))
    && GetLastProcessedOpIdx(db, c) == A.LastProcessed(s, c)
  }

  lemma SeesTheLog(cfg: Config, db: Db, c: int, idx: int)
    requires Shaped(cfg, db) && c in cfg.Cosigners()
    ensures Sees(db, Abs(cfg, db), c, idx)
  {
    OperationIs(db, idx);
    LastProcessedScan(cfg, db, c);
    if 1 <= idx <= |db.operations| {
      EntryOf(cfg, db, c, idx);
    }
  }

  lemma RespondPlanOf(cfg: Config, db: Db, s: A.State, call: Call)
    requires call.RespondToOperation? && call.c in cfg.Cosigners() && Sees(db, s, call.c, Subject(call))
    ensures var plan, idx := Next(cfg, call, Observe(db, call)), Subject(call);
            if ActionOf(call).Some? && A.Enabled(cfg, s, ActionOf(call).value) then
              var op, entry := GetOperationByIdx(db, idx), GetEntry(db.statuses, call.c, idx);
              && op.Some? && entry.Some?
              && plan == Commit(RespondScript(cfg, op.value, entry.value, call.response.request.value.ack,
                                              call.response.psbt, call.now), Responded(idx))
            else
              plan.Refuse? && plan.error != Panic && plan.error != Internal
  {
    hide RespondScript, A.LastProcessed, GetOperationByIdx, GetEntry, GetLastProcessedOpIdx, Config.Cosigners;
    var idx := Subject(call);
    if ActionOf(call).Some? && 1 <= idx <= |s| {
      if s[idx - 1].status == Pending && call.c !in s[idx - 1].votes {
        assert GetOperationByIdx(db, idx).Some? && GetEntry(db.statuses, call.c, idx).Some?;
      }
    }
  }

  /** A response is committed when the machine allows it and refused otherwise. */
  lemma RespondPlan(cfg: Config, db: Db, call: Call)
    requires Shaped(cfg, db) && WellFormed(cfg, call) && call.RespondToOperation?
    ensures var plan, idx := Next(cfg, call, Observe(db, call)), Subject(call);
            if AsksFor(cfg, db, call) then
              var op, entry := GetOperationByIdx(db, idx), GetEntry(db.statuses, call.c, idx);
              && op.Some? && entry.Some?
              && plan == Commit(RespondScript(cfg, op.value, entry.value, call.response.request.value.ack,
                                              call.response.psbt, call.now), Responded(idx))
            else
              plan.Refuse? && plan.error != Panic && plan.error != Internal
  {
    SeesTheLog(cfg, db, call.c, Subject(call));
    RespondPlanOf(cfg, db, Abs(cfg, db), call);
  }

  /** An acceptable vote on an operation, as the response script commits it. */
  lemma VoteCommitted(cfg: Config, db: Db, call: Call, op: Operation, entry: CosignerOpStatus, ack: bool)
    requires call.RespondToOperation? && Subject(call) == op.idx
    requires Votable(cfg, db, op, entry, ack, call.response.psbt)
    requires Decides(cfg, op.opType, VotesOn(cfg, db.statuses, op.idx)[entry.cosignerIdx := ack])
    ensures 1 <= entry.idx <= |db.statuses| && 1 <= op.idx <= |db.operations|
    ensures Finish(cfg, db, Begin(db, call, Responded(op.idx)),
                   RespondScript(cfg, op, entry, ack, call.response.psbt, call.now))
         == (RespondedDb(cfg, db, op, entry, ack, call.response.psbt, call.now), Responded(op.idx))
  {
    VotableRows(cfg, db, op, entry, ack, call.response.psbt);
    SettleIsExact(cfg, db, op, entry, ack, call.response.psbt, call.now);
    RespondEffect(cfg, db, call, op, entry, ack);
  }

  /** The operation and the row an acceptable vote is about to change. */
  lemma VotedOn(cfg: Config, db: Db, call: Call) returns (op: Operation, entry: CosignerOpStatus)
    requires Sane(cfg, db) && WellFormed(cfg, call) && call.RespondToOperation? && AsksFor(cfg, db, call)
    ensures Votable(cfg, db, op, entry, call.response.request.value.ack, call.response.psbt)
    ensures GetOperationByIdx(db, Subject(call)) == Some(op) && op.idx == Subject(call)
    ensures GetEntry(db.statuses, call.c, Subject(call)) == Some(entry) && entry.cosignerIdx == call.c
    ensures 1 <= entry.idx <= |db.statuses| && 1 <= op.idx <= |db.operations|
    ensures MoreVotes(cfg, db, call)
         == VotesOn(cfg, db.statuses, op.idx)[entry.cosignerIdx := call.response.request.value.ack]
    ensures Abs(cfg, db)[op.idx - 1].opType == op.opType
    ensures Next(cfg, call, Observe(db, call)) ==
              Commit(RespondScript(cfg, op, entry, call.response.request.value.ack, call.response.psbt, call.now),
                     Responded(op.idx))
  {
    hide A.Inv, StatusesOk, FilesOk, TransfersOk, VotesOn, ProcessedBy, A.Enabled;
    var idx := Subject(call);
    RespondPlan(cfg, db, call);
    EntryOf(cfg, db, call.c, idx);
    op, entry := db.operations[idx - 1], GetEntry(db.statuses, call.c, idx).value;
    VotableRows(cfg, db, op, entry, call.response.request.value.ack, call.response.psbt);
  }

  /** The votes on the operation a response is about, with the response. */
  function MoreVotes(cfg: Config, db: Db, call: Call): map<int, bool>
    requires call.RespondToOperation? && AsksFor(cfg, db, call)
  {
    Abs(cfg, db)[Subject(call) - 1].votes[call.c := call.response.request.value.ack]
  }

  /** The vote this call adds, if any, is one on which u8 arithmetic decides ideally. */
  predicate Counts(cfg: Config, db: Db, call: Call) {
    call.RespondToOperation? && AsksFor(cfg, db, call) ==>
      Decides(cfg, Abs(cfg, db)[Subject(call) - 1].opType, MoreVotes(cfg, db, call))
  }

  lemma ValidCounts(cfg: Config, db: Db, call: Call)
    requires Valid(cfg, db)
    ensures Counts(cfg, db, call)
  {
    if call.RespondToOperation? && AsksFor(cfg, db, call) {
      var op := Abs(cfg, db)[Subject(call) - 1];
      assert A.OpInv(cfg, op);
      OneMoreVoteDecides(cfg, op, call.c, call.response.request.value.ack);
    }
  }

  lemma RespondResultIf(cfg: Config, db: Db, call: Call) returns (op: Operation, entry: CosignerOpStatus)
    requires Sane(cfg, db) && WellFormed(cfg, call) && call.RespondToOperation? && AsksFor(cfg, db, call)
    requires Counts(cfg, db, call)
    ensures Votable(cfg, db, op, entry, call.response.request.value.ack, call.response.psbt)
    ensures Decides(cfg, op.opType,
                    VotesOn(cfg, db.statuses, op.idx)[entry.cosignerIdx := call.response.request.value.ack])
    ensures GetOperationByIdx(db, Subject(call)) == Some(op) && op.idx == Subject(call)
    ensures GetEntry(db.statuses, call.c, Subject(call)) == Some(entry) && entry.cosignerIdx == call.c
    ensures 1 <= entry.idx <= |db.statuses| && 1 <= op.idx <= |db.operations|
    ensures Exec(cfg, db, call)
         == (RespondedDb(cfg, db, op, entry, call.response.request.value.ack, call.response.psbt, call.now),
             Responded(op.idx))
  {
    hide Sane, Next, StageAll, RespondedDb, VotesOn, Votable, AsksFor, ActionOf, Decides, GetEntry, GetOperationByIdx;
    op, entry := VotedOn(cfg, db, call);
    VoteCommitted(cfg, db, call, op, entry, call.response.request.value.ack);
  }

  lemma RespondResult(cfg: Config, db: Db, call: Call) returns (op: Operation, entry: CosignerOpStatus)
    requires Valid(cfg, db) && WellFormed(cfg, call) && call.RespondToOperation? && AsksFor(cfg, db, call)
    ensures Votable(cfg, db, op, entry, call.response.request.value.ack, call.response.psbt)
    ensures Decides(cfg, op.opType,
                    VotesOn(cfg, db.statuses, op.idx)[entry.cosignerIdx := call.response.request.value.ack])
    ensures GetOperationByIdx(db, Subject(call)) == Some(op) && op.idx == Subject(call)
    ensures GetEntry(db.statuses, call.c, Subject(call)) == Some(entry) && entry.cosignerIdx == call.c
    ensures 1 <= entry.idx <= |db.statuses| && 1 <= op.idx <= |db.operations|
    ensures Exec(cfg, db, call)
         == (RespondedDb(cfg, db, op, entry, call.response.request.value.ack, call.response.psbt, call.now),
             Responded(op.idx))
  {
    hide *;
    ValidCounts(cfg, db, call);
    ValidIsSane(cfg, db);
    op, entry := RespondResultIf(cfg, db, call);
  }

  lemma ValidIsSane(cfg: Config, db: Db)
    requires Valid(cfg, db)
    ensures Sane(cfg, db) && Shaped(cfg, db)
  {
  }

  lemma RespondExec(cfg: Config, db: Db, call: Call)
    requires Sane(cfg, db) && WellFormed(cfg, call) && call.RespondToOperation? && Counts(cfg, db, call)
    ensures Refines(cfg, db, call)
  {
    if AsksFor(cfg, db, call) {
      var req := call.response.request.value;
      var op, entry := RespondResultIf(cfg, db, call);
      RespondRefines(cfg, db, op, entry, req.ack, call.response.psbt, call.now);
      CommitRefines(cfg, db, call, RespondedDb(cfg, db, op, entry, req.ack, call.response.psbt, call.now),
                    Responded(op.idx));
    } else {
      RespondPlan(cfg, db, call);
      RefusalRefines(cfg, db, call);
    }
  }

  lemma MarkPlanOf(cfg: Config, db: Db, s: A.State, call: Call)
    requires call.MarkOperationProcessed? && call.c in cfg.Cosigners() && Sees(db, s, call.c, call.idx)
    ensures var plan := Next(cfg, call, Observe(db, call));
            if A.Enabled(cfg, s, A.Mark(call.c, call.idx)) then
              var entry := GetEntry(db.statuses, call.c, call.idx);
              entry.Some? && plan == Commit([RecordProcessed(entry.value, call.now)], Marked)
            else
              plan.Refuse? && plan.error != Panic && plan.error != Internal
  {
  }

  /** A mark is committed when the machine allows it and refused otherwise. */
  lemma MarkPlan(cfg: Config, db: Db, call: Call)
    requires Shaped(cfg, db) && WellFormed(cfg, call) && call.MarkOperationProcessed?
    ensures var plan := Next(cfg, call, Observe(db, call));
            if AsksFor(cfg, db, call) then
              var entry := GetEntry(db.statuses, call.c, call.idx);
              entry.Some? && plan == Commit([RecordProcessed(entry.value, call.now)], Marked)
            else
              plan.Refuse? && plan.error != Panic && plan.error != Internal
  {
    SeesTheLog(cfg, db, call.c, call.idx);
    MarkPlanOf(cfg, db, Abs(cfg, db), call);
  }

  lemma MarkEffect(cfg: Config, db: Db, call: Call, entry: CosignerOpStatus)
    requires Shaped(cfg, db) && call.MarkOperationProcessed? && entry in db.statuses
    ensures 1 <= entry.idx <= |db.statuses|
    ensures Finish(cfg, db, Begin(db, call, Marked), [RecordProcessed(entry, call.now)])
         == (MarkedDb(db, entry, call.now), Marked)
  {
    RowInPlace(cfg, db, entry);
    RowReplaced(db, entry.(processedAt := Some(call.now)));
    var txn := Begin(db, call, Marked);
    OneWrite(cfg, txn, RecordProcessed(entry, call.now), txn.(db := MarkedDb(db, entry, call.now)));
  }

  lemma MarkResult(cfg: Config, db: Db, call: Call) returns (entry: CosignerOpStatus)
    requires Shaped(cfg, db) && WellFormed(cfg, call) && call.MarkOperationProcessed? && AsksFor(cfg, db, call)
    ensures entry in db.statuses && entry.cosignerIdx == call.c && entry.operationIdx == call.idx
    ensures entry.processedAt.None? && 1 <= entry.idx <= |db.statuses|
    ensures Exec(cfg, db, call) == (MarkedDb(db, entry, call.now), Marked)
  {
    MarkPlan(cfg, db, call);
    EntryOf(cfg, db, call.c, call.idx);
    entry := GetEntry(db.statuses, call.c, call.idx).value;
    MarkEffect(cfg, db, call, entry);
  }

  lemma MarkExec(cfg: Config, db: Db, call: Call)
    requires Sane(cfg, db) && WellFormed(cfg, call) && call.MarkOperationProcessed?
    ensures Refines(cfg, db, call)
  {
    if AsksFor(cfg, db, call) {
      var entry := MarkResult(cfg, db, call);
      MarkRefines(cfg, db, entry, call.now);
      CommitRefines(cfg, db, call, MarkedDb(db, entry, call.now), Marked);
    } else {
      MarkPlan(cfg, db, call);
      RefusalRefines(cfg, db, call);
    }
  }

  /** A change to the address row or the transfer register does not touch the log. */
  lemma LogUntouched(cfg: Config, db: Db, after: Db)
    requires Sane(cfg, db) && Shaped(cfg, after)
    requires after.operations == db.operations && after.statuses == db.statuses
    ensures Abs(cfg, after) == Abs(cfg, db) && Sane(cfg, after)
  {
    hide Shaped, A.Inv, AbsOp;
    assert Abs(cfg, after) == Abs(cfg, db);
  }

  /** The address row after a successful bump. */
  function Advanced(next: NextAddressIndex, count: byte, internal: bool): NextAddressIndex {
    if internal then next.(internal := next.internal + count) else next.(external := next.external + count)
  }

  function FirstOf(next: NextAddressIndex, internal: bool): int {
    if internal then next.internal else next.external
  }

  lemma BumpPlan(cfg: Config, db: Db, call: Call)
    requires call.BumpAddressIndices? && db.nextAddress.Some?
    ensures var first := FirstOf(db.nextAddress.value, call.internal);
            Next(cfg, call, Observe(db, call)) ==
              if call.count == 0 then Refuse(InvalidCount)
              else if first + call.count >= U32_LIMIT then Refuse(AddressOverflow)
              else Commit([AdvanceAddress(Advanced(db.nextAddress.value, call.count, call.internal))], Bumped(first))
  {
    hide HasPendingOperation, HasUnprocessedOperation, GetOperationByIdx, GetEntry, GetLastProcessedOpIdx,
         GetTransferStatus;
  }

  lemma BumpEffect(cfg: Config, db: Db, call: Call)
    requires db.nextAddress.Some? && call.BumpAddressIndices?
    ensures var (after, reply), next := Exec(cfg, db, call), db.nextAddress.value;
            var first := if call.internal then next.internal else next.external;
            if call.count == 0 then after == db && reply == Refused(InvalidCount)
            else if first + call.count >= U32_LIMIT then after == db && reply == Refused(AddressOverflow)
            else
              && reply == Bumped(first)
              && after == db.(nextAddress := Some(
                   if call.internal then NextAddressIndex(next.internal + call.count, next.external)
                   else NextAddressIndex(next.internal, next.external + call.count)))
  {
    hide Next, StageAll;
    BumpPlan(cfg, db, call);
    var next := Advanced(db.nextAddress.value, call.count, call.internal);
    var txn := Begin(db, call, Bumped(FirstOf(db.nextAddress.value, call.internal)));
    OneWrite(cfg, txn, AdvanceAddress(next), txn.(db := db.(nextAddress := Some(next))));
  }

  lemma BumpExec(cfg: Config, db: Db, call: Call)
    requires Sane(cfg, db) && call.BumpAddressIndices?
    ensures Refines(cfg, db, call)
  {
    hide A.Inv, StatusesOk, FilesOk, TransfersOk;
    BumpEffect(cfg, db, call);
    LogUntouched(cfg, db, Exec(cfg, db, call).0);
  }

  /** The register entry a successful set leaves: the existing one, or a new one. */
  lemma TransferEffect(cfg: Config, db: Db, call: Call)
    requires call.PutTransferStatus?
    ensures var (after, reply) := Exec(cfg, db, call);
            match GetTransferStatus(db, call.batch)
            case Some(row) =>
              after == db && reply ==
                if row.accepted == call.accepted then TransferSet(row) else Refused(TransferStatusMismatch)
            case None =>
              && reply.TransferSet?
              && after == db.(transfers := db.transfers + [reply.row])
              && reply.row.batchTransferIdx == call.batch && reply.row.cosignerIdx == call.c
              && reply.row.registeredAt == call.now && reply.row.accepted == call.accepted
              && ((forall i | 0 <= i < |db.transfers| :: db.transfers[i].idx == i + 1) ==>
                    reply.row.idx == |db.transfers| + 1)
  {
    match Next(cfg, call, Observe(db, call))
    case Read(_) =>
    case Refuse(_) =>
    case Commit(script, reply) =>
      var txn := Begin(db, call, reply);
      if script == [] {
        assert StageAll(cfg, txn, []) == Some(txn);
      } else {
        OneWrite(cfg, txn, script[0], Stage(cfg, txn, script[0]).value);
        if db.transfers != [] {
          assert db.transfers[|db.transfers| - 1] in db.transfers;
        }
      }
  }

  lemma TransferShaped(cfg: Config, db: Db, call: Call)
    requires Shaped(cfg, db) && WellFormed(cfg, call) && call.PutTransferStatus?
    ensures Shaped(cfg, Exec(cfg, db, call).0)
  {
    hide StatusesOk, FilesOk, Exec;
    TransferEffect(cfg, db, call);
    forall t | t in db.transfers && GetTransferStatus(db, call.batch).None? ensures t.batchTransferIdx != call.batch {}
    assert TransfersOk(cfg, Exec(cfg, db, call).0.transfers);
  }

  lemma TransferExec(cfg: Config, db: Db, call: Call)
    requires Sane(cfg, db) && WellFormed(cfg, call) && call.PutTransferStatus?
    ensures Refines(cfg, db, call)
  {
    hide Shaped, A.Inv, Exec, GetTransferStatus, WellFormed;
    TransferEffect(cfg, db, call);
    TransferShaped(cfg, db, call);
    LogUntouched(cfg, db, Exec(cfg, db, call).0);
  }

  /** On sane tables, a request whose vote is decided ideally is one step of the approval
      machine or none. */
  lemma ExecRefinesIf(cfg: Config, db: Db, call: Call)
    requires Sane(cfg, db) && WellFormed(cfg, call) && Counts(cfg, db, call)
    ensures Refines(cfg, db, call)
  {
    hide *;
    match call
    case PostOperation(_, _, _, _) => PostExec(cfg, db, call);
    case RespondToOperation(_, _, _) => RespondExec(cfg, db, call);
    case MarkOperationProcessed(_, _, _) => MarkExec(cfg, db, call);
    case BumpAddressIndices(_, _) => BumpExec(cfg, db, call);
    case PutTransferStatus(_, _, _, _) => TransferExec(cfg, db, call);
  }

  /** The central simulation: on valid tables, every request that authentication lets
      through is one step of the approval machine or none, and panics exactly when it is a
      post that is allowed and whose form has an empty type part. */
  lemma ExecRefines(cfg: Config, db: Db, call: Call)
    requires Valid(cfg, db) && WellFormed(cfg, call)
    ensures Refines(cfg, db, call) && Valid(cfg, Exec(cfg, db, call).0)
  {
    hide Shaped, A.Inv, Next, Config.Sound, WellFormed, Counts;
    ValidCounts(cfg, db, call);
    ExecRefinesIf(cfg, db, call);
  }

  // ----- whole runs -----

  function Actions(calls: seq<Call>): seq<A.Action> {
    if calls == [] then []
    else (if ActionOf(calls[0]).Some? then [ActionOf(calls[0]).value] else []) + Actions(calls[1..])
  }

  lemma {:induction false} ActionsAppend(calls: seq<Call>, more: seq<Call>)
    ensures Actions(calls + more) == Actions(calls) + Actions(more)
    decreases |calls|
  {
    hide ActionOf;
    if calls == [] {
      assert calls + more == more;
    } else {
      var rest := calls[1..];
      var first := if ActionOf(calls[0]).Some? then [ActionOf(calls[0]).value] else [];
      assert (calls + more)[1..] == rest + more;
      ActionsAppend(rest, more);
      assert first + (Actions(rest) + Actions(more)) == (first + Actions(rest)) + Actions(more);
    }
  }

  /** A run of requests on the tables is a run of the approval machine. */
  lemma {:induction false} RunRefines(cfg: Config, db: Db, calls: seq<Call>)
    requires Valid(cfg, db) && forall i | 0 <= i < |calls| :: WellFormed(cfg, calls[i])
    ensures Valid(cfg, ExecAll(cfg, db, calls))
    ensures Abs(cfg, ExecAll(cfg, db, calls)) == A.Run(cfg, Abs(cfg, db), Actions(calls))
    decreases |calls|
  {
    hide Sane, Exec, ActionOf;
    if calls != [] {
      ExecRefines(cfg, db, calls[0]);
      var next := Exec(cfg, db, calls[0]).0;
      RunRefines(cfg, next, calls[1..]);
      if ActionOf(calls[0]).Some? {
        var a := ActionOf(calls[0]).value;
        assert ([a] + Actions(calls[1..]))[1..] == Actions(calls[1..]);
      } else {
        assert [] + Actions(calls[1..]) == Actions(calls[1..]);
      }
    }
  }

  lemma {:induction false} RepliesAt(cfg: Config, db: Db, calls: seq<Call>, k: nat)
    requires k < |calls|
    ensures |Replies(cfg, db, calls)| == |calls|
    ensures Replies(cfg, db, calls)[k] == Exec(cfg, ExecAll(cfg, db, calls[..k]), calls[k]).1
    decreases |calls|
  {
    hide Exec;
    var next := Exec(cfg, db, calls[0]).0;
    if k == 0 {
      assert calls[..0] == [];
      if |calls| > 1 { RepliesAt(cfg, next, calls[1..], 0); }
    } else {
      RepliesAt(cfg, next, calls[1..], k - 1);
      assert calls[..k][1..] == calls[1..][..k - 1];
    }
  }

  /** In any run, the requests that panic are exactly the posts that meet no pending and no
      unprocessed operation, and whose form has an empty type part before any part that
      would be refused: not a missing row or threshold, and no u8 arithmetic. */
  lemma PanicsExactly(cfg: Config, db: Db, calls: seq<Call>, k: nat)
    requires Valid(cfg, db) && (forall i | 0 <= i < |calls| :: WellFormed(cfg, calls[i])) && k < |calls|
    ensures |Replies(cfg, db, calls)| == |calls|
    ensures Replies(cfg, db, calls)[k] == Refused(Panic) <==>
            var now := ExecAll(cfg, db, calls[..k]);
            && calls[k].PostOperation?
            && !A.HasPending(Abs(cfg, now)) && !A.HasUnprocessed(Abs(cfg, now), calls[k].c)
            && exists i | 0 <= i < |calls[k].parts| ::
                 calls[k].parts[i] == TypePart([]) && ParsePost(calls[k].parts[..i]).Ok?
  {
    hide Shaped, A.Inv, Next, Config.Sound, A.HasPending, A.HasUnprocessed, ParsePost;
    var now := ExecAll(cfg, db, calls[..k]);
    RepliesAt(cfg, db, calls, k);
    RunRefines(cfg, db, calls[..k]);
    ExecRefines(cfg, now, calls[k]);
    if calls[k].PostOperation? {
      PendingScan(cfg, now);
      UnprocessedScan(cfg, now, calls[k].c);
      PanicsIffEmptyType(calls[k].parts);
    }
  }

  /** No form of the run has an empty type part that is reached. */
  predicate TypesGiven(calls: seq<Call>) {
    forall i | 0 <= i < |calls| && calls[i].PostOperation? :: ParsePost(calls[i].parts) != Err(Panic)
  }

  /** So a run without empty type parts never panics. */
  lemma {:induction false} NoPanic(cfg: Config, db: Db, calls: seq<Call>)
    requires Valid(cfg, db) && (forall i | 0 <= i < |calls| :: WellFormed(cfg, calls[i])) && TypesGiven(calls)
    ensures Refused(Panic) !in Replies(cfg, db, calls)
    decreases |calls|
  {
    hide Shaped, A.Inv, Next, Config.Sound, ParsePost;
    if calls != [] {
      ExecRefines(cfg, db, calls[0]);
      NoPanic(cfg, Exec(cfg, db, calls[0]).0, calls[1..]);
    }
  }

  /** A request that panics: the very first post of any cosigner, with an empty type part. */
  lemma EmptyTypePanics(cfg: Config, c: int, now: int, keys: seq<int>)
    ensures Exec(cfg, INITIAL_DB, PostOperation(c, [TypePart([])], now, keys)) == (INITIAL_DB, Refused(Panic))
  {
    assert [TypePart([])][..0] == [];
    assert ParsePost([TypePart([])]) == AddPart(EMPTY_FORM, TypePart([]));
  }

  /** The tables a completed first start leaves are valid. */
  lemma InitialDbValid(cfg: Config)
    requires cfg.Sound() && ConfigFits(cfg)
    ensures Valid(cfg, INITIAL_DB)
  {
    assert Abs(cfg, INITIAL_DB) == [];
  }

  const INITIAL_DB := Db([], [], [], Some(NextAddressIndex(0, 0)), [])
}
