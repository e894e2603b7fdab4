/** What accepted requests write, row by row: stated of the rows before and after, without
    the functions that build them. */
module Effects {
  import opened HubTypes
  import opened Forms
  import opened Tables
  import opened Requests
  import opened Scans
  import opened Refinement
  import opened FileStore
  import A = Approval
  import L = Ledger
  import R = Registers

  /** A request that is not refused is one the machine allows. */
  lemma AcceptedAsks(cfg: Config, db: Db, call: Call)
    requires Valid(cfg, db) && WellFormed(cfg, call) && ActionOf(call).Some? && !Exec(cfg, db, call).1.Refused?
    ensures AsksFor(cfg, db, call)
  {
    hide Valid, Exec, A.Enabled, Abs;
    ExecRefines(cfg, db, call);
  }

  // ----- posting -----

  ghost predicate OperationRecorded(op: Operation, idx: int, c: int, parts: seq<Part>, now: int) {
    && op.idx == idx && op.initiatorIdx == c && op.createdAt == now
    && HoldsType(parts, Some(op.opType)) && HoldsSeed(parts, op.seed)
    && (op.seed.Some? <==> op.opType in {SendRgb, BlindReceive, WitnessReceive})
    && op.status == if op.opType in {Issuance, BlindReceive, WitnessReceive} then Approved else Pending
  }

  /** One blank row for each cosigner. */
  ghost predicate StatusesRecorded(cfg: Config, before: seq<CosignerOpStatus>, after: seq<CosignerOpStatus>, o: int) {
    && before <= after && |after| == |before| + |cfg.Cosigners()|
    && (forall i | |before| <= i < |after| ::
          after[i] == CosignerOpStatus(i + 1, after[i].cosignerIdx, o, None, None, None, None))
    && (forall c :: c in cfg.Cosigners() <==> exists i | |before| <= i < |after| :: after[i].cosignerIdx == c)
  }

  /** The row is that of the form part at this position. */
  ghost predicate IsRowOf(cfg: Config, row: OpFile, f: int, o: int, parts: seq<Part>, i: nat) {
    && i < |parts| && parts[i].FilePart?
    && row == OpFile(f, cfg.digest(parts[i].content), row.fileType, o) && IsNamed(parts[i].suffix, row.fileType)
  }

  /** One row for each file part in order, under its digest and the type of its name, and
      after them the row of the PSBT, if there is one. */
  ghost predicate FilesRecordedAt(
    cfg: Config, before: seq<OpFile>, after: seq<OpFile>, o: int, parts: seq<Part>, psbt: Option<Bytes>, at: seq<nat>)
  {
    && before <= after && HoldsPsbt(parts, psbt) && Lists(at, FilePositions(parts))
    && |after| == |before| + |at| + (if psbt.Some? then 1 else 0)
    && (forall k | 0 <= k < |at| :: IsRowOf(cfg, after[|before| + k], |before| + k + 1, o, parts, at[k]))
    && (psbt.Some? ==> after[|after| - 1] == OpFile(|after|, cfg.digest(psbt.value), OperationPsbt, o))
  }

  ghost predicate FilesRecorded(cfg: Config, before: seq<OpFile>, after: seq<OpFile>, o: int, parts: seq<Part>) {
    exists psbt, at :: FilesRecordedAt(cfg, before, after, o, parts, psbt, at)
  }

  /** The tables with one operation more, as the parts of its form say. */
  ghost predicate PostRecorded(cfg: Config, before: Db, after: Db, c: int, parts: seq<Part>, now: int) {
    var k := |before.operations|;
    && before.operations <= after.operations && |after.operations| == k + 1
    && OperationRecorded(after.operations[k], k + 1, c, parts, now)
    && StatusesRecorded(cfg, before.statuses, after.statuses, k + 1)
    && FilesRecorded(cfg, before.opFiles, after.opFiles, k + 1, parts)
    && after.nextAddress == before.nextAddress && after.transfers == before.transfers
  }

  lemma PostedStatuses(cfg: Config, before: seq<CosignerOpStatus>, o: int, keys: seq<int>)
    requires Enumerates(keys, cfg.Cosigners())
    ensures StatusesRecorded(cfg, before, before + FreshRows(|before|, o, keys), o)
  {
    EnumerationSize(keys, cfg.Cosigners());
    var after := before + FreshRows(|before|, o, keys);
    forall c ensures c in cfg.Cosigners() <==> exists i | |before| <= i < |after| :: after[i].cosignerIdx == c {
      if c in cfg.Cosigners() {
        assert c in keys;
        var k :| 0 <= k < |keys| && keys[k] == c;
        assert after[|before| + k].cosignerIdx == c;
      }
      if exists i | |before| <= i < |after| :: after[i].cosignerIdx == c {
        var i :| |before| <= i < |after| && after[i].cosignerIdx == c;
        assert keys[i - |before|] in keys;
      }
    }
  }

  lemma PostedFiles(cfg: Config, before: seq<OpFile>, o: int, parts: seq<Part>)
    requires ParsePost(parts).Ok?
    ensures FilesRecorded(cfg, before, before + FileRows(cfg, |before|, o, Uploads(ParsePost(parts).value)), o, parts)
  {
    hide ParsePost, Lists, FilePositions, HoldsPsbt, HoldsType, HoldsSeed, IsNamed;
    var form := ParsePost(parts).value;
    var at := FormHolds(parts);
    var after := before + FileRows(cfg, |before|, o, Uploads(form));
    forall k | 0 <= k < |at| ensures IsRowOf(cfg, after[|before| + k], |before| + k + 1, o, parts, at[k]) {
      assert IsPart(parts, at[k], form.files[k]);
      assert Uploads(form)[k] == form.files[k];
    }
    assert FilesRecordedAt(cfg, before, after, o, parts, form.psbt, at);
  }

  lemma PostedOperation(c: int, parts: seq<Part>, now: int, idx: int)
    requires ParsePost(parts).Ok? && ParsePost(parts).value.opType.Some?
    requires SeedFits(ParsePost(parts).value.opType.value, ParsePost(parts).value.seed)
    ensures var form := ParsePost(parts).value;
            OperationRecorded(Operation(idx, form.opType.value, A.InitialStatus(form.opType.value), now, c, form.seed),
                              idx, c, parts, now)
  {
    hide ParsePost, HoldsFiles, HoldsPsbt, HoldsType, HoldsSeed;
    var at := FormHolds(parts);
    OperationTypesByName(ParsePost(parts).value.opType.value);
  }

  lemma AcceptedForm(cfg: Config, db: Db, call: Call)
    requires call.PostOperation? && AsksFor(cfg, db, call)
    ensures ParsePost(call.parts).Ok? && FormOf(call) == ParsePost(call.parts).value
    ensures FormOf(call).opType.Some? && SeedFits(FormOf(call).opType.value, FormOf(call).seed)
  {
    hide ParsePost, A.HasPending, A.HasUnprocessed, SeedFits;
  }

  lemma PostedRecorded(cfg: Config, db: Db, call: Call)
    requires call.PostOperation? && ParsePost(call.parts).Ok? && FormOf(call) == ParsePost(call.parts).value
    requires FormOf(call).opType.Some? && SeedFits(FormOf(call).opType.value, FormOf(call).seed)
    requires Enumerates(call.keys, cfg.Cosigners())
    ensures var form := FormOf(call);
            PostRecorded(cfg, db, PostedDb(cfg, db, call.c, form.opType.value, form, call.now, call.keys),
                         call.c, call.parts, call.now)
  {
    hide ParsePost, FormOf, OperationRecorded, StatusesRecorded, FilesRecorded, FreshRows, FileRows, Uploads,
         SeedFits, Enumerates, A.InitialStatus;
    PostedOperation(call.c, call.parts, call.now, |db.operations| + 1);
    PostedStatuses(cfg, db.statuses, |db.operations| + 1, call.keys);
    PostedFiles(cfg, db.opFiles, |db.operations| + 1, call.parts);
  }

  /** An accepted post appends one operation with the type, seed and files of its form, in
      the caller's name and at the time of the request, and one blank row per cosigner. */
  lemma PostWrites(cfg: Config, db: Db, call: Call)
    requires Valid(cfg, db) && WellFormed(cfg, call) && call.PostOperation? && AsksFor(cfg, db, call)
    ensures PostRecorded(cfg, db, Exec(cfg, db, call).0, call.c, call.parts, call.now)
    ensures Exec(cfg, db, call).1 == Posted(|db.operations| + 1)
  {
    ValidIsSane(cfg, db);
    hide Valid, Shaped, Sane, Exec, ParsePost, FormOf, AsksFor, PostRecorded, PostedDb, SeedFits, Enumerates;
    AcceptedForm(cfg, db, call);
    PostResult(cfg, db, call);
    PostedRecorded(cfg, db, call);
  }

  /** Each file part of an accepted form has its row, under its digest and the type of its name. */
  lemma PartRecorded(
    cfg: Config, before: seq<OpFile>, after: seq<OpFile>, o: int, parts: seq<Part>, suffix: string, content: Bytes)
    returns (f: nat)
    requires FilesRecorded(cfg, before, after, o, parts) && FilePart(suffix, content) in parts
    ensures |before| <= f < |after| && after[f] == OpFile(f + 1, cfg.digest(content), after[f].fileType, o)
    ensures IsNamed(suffix, after[f].fileType)
  {
    var psbt, at :| FilesRecordedAt(cfg, before, after, o, parts, psbt, at);
    var i: nat :| i < |parts| && parts[i] == FilePart(suffix, content);
    if suffix == "psbt" {
      assert IsPsbtNamed(parts[i]);
      f := |after| - 1;
    } else {
      assert i in FilePositions(parts);
      var k :| 0 <= k < |at| && at[k] == i;
      f := |before| + k;
      assert IsRowOf(cfg, after[f], f + 1, o, parts, at[k]);
    }
  }

  /** The content of each file part is stored. */
  lemma PartsKept(
    cfg: Config, before: seq<OpFile>, after: seq<OpFile>, o: int, parts: seq<Part>, files: map<FileId, Bytes>)
    requires FilesRecorded(cfg, before, after, o, parts) && Integrity(cfg, files) && Stored(files, after)
    ensures forall i | 0 <= i < |parts| && parts[i].FilePart? :: Keeps(cfg, files, parts[i].content)
  {
    hide FilesRecorded, Integrity, Keeps, IsNamed;
    forall i | 0 <= i < |parts| && parts[i].FilePart? ensures Keeps(cfg, files, parts[i].content) {
      var f := PartRecorded(cfg, before, after, o, parts, parts[i].suffix, parts[i].content);
      assert after[f].fileId in files;
      StoredIsKept(cfg, files, parts[i].content);
    }
  }

  // ----- responding -----

  /** The vote, its time and its PSBT are written to the row `r` of the cosigner, the PSBT row
      is added, and beside them at most the status of the operation changes. */
  ghost predicate ResponseRecordedAt(
    cfg: Config, before: Db, after: Db, c: int, idx: int, ack: bool, psbt: Option<Bytes>, now: int, r: nat)
  {
    && r < |before.statuses| && 1 <= idx <= |before.operations| == |after.operations|
    && var row, op, f := before.statuses[r], before.operations[idx - 1], |before.opFiles| + 1;
       && row.cosignerIdx == c && row.operationIdx == idx && row.ack.None?
       && after.statuses == before.statuses[r := row.(
            ack := Some(ack), respondedAt := Some(now), psbtOpFileIdx := if psbt.Some? then Some(f) else None)]
       && after.opFiles == before.opFiles
            + (if psbt.Some? then [OpFile(f, cfg.digest(psbt.value), FileType.ResponsePsbt, idx)] else [])
       && after.operations == before.operations[idx - 1 := op.(status := after.operations[idx - 1].status)]
       && after.nextAddress == before.nextAddress && after.transfers == before.transfers
  }

  ghost predicate ResponseRecorded(
    cfg: Config, before: Db, after: Db, c: int, idx: int, ack: bool, psbt: Option<Bytes>, now: int)
  {
    exists r :: ResponseRecordedAt(cfg, before, after, c, idx, ack, psbt, now, r)
  }

  lemma RespondedRecorded(
    cfg: Config, db: Db, op: Operation, entry: CosignerOpStatus, ack: bool, psbt: Option<Bytes>, now: int)
    requires 1 <= op.idx <= |db.operations| && db.operations[op.idx - 1] == op && entry.operationIdx == op.idx
    requires 1 <= entry.idx <= |db.statuses| && db.statuses[entry.idx - 1] == entry
    requires entry.ack.None? && entry.psbtOpFileIdx.None?
    ensures ResponseRecordedAt(cfg, db, RespondedDb(cfg, db, op, entry, ack, psbt, now), entry.cosignerIdx, op.idx,
                               ack, psbt, now, entry.idx - 1)
  {
    hide SettledStatus;
    var after := RespondedDb(cfg, db, op, entry, ack, psbt, now);
    if psbt.Some? {
      assert FileRows(cfg, |db.opFiles|, op.idx, PsbtUploads(psbt, FileType.ResponsePsbt))
          == [OpFile(|db.opFiles| + 1, cfg.digest(psbt.value), FileType.ResponsePsbt, op.idx)];
    } else {
      assert FileRows(cfg, |db.opFiles|, op.idx, PsbtUploads(psbt, FileType.ResponsePsbt)) == [];
    }
  }

  /** An accepted response records the caller's vote and, byte for byte under its digest,
      its PSBT. */
  lemma RespondWrites(cfg: Config, db: Db, call: Call) returns (r: nat)
    requires Valid(cfg, db) && WellFormed(cfg, call) && call.RespondToOperation? && AsksFor(cfg, db, call)
    ensures var req := call.response.request.value;
            && ResponseRecordedAt(cfg, db, Exec(cfg, db, call).0, call.c, req.operationIdx, req.ack,
                                  call.response.psbt, call.now, r)
            && Exec(cfg, db, call).1 == Responded(req.operationIdx)
  {
    ValidIsSane(cfg, db);
    hide Valid, Sane, Shaped, Exec, Votable, Decides, RespondedDb, ResponseRecordedAt;
    var op, entry := RespondResult(cfg, db, call);
    var ack, psbt := call.response.request.value.ack, call.response.psbt;
    VotableRows(cfg, db, op, entry, ack, psbt);
    VotableHere(cfg, db, op, entry, ack, psbt);
    RespondedRecorded(cfg, db, op, entry, ack, psbt, call.now);
    r := entry.idx - 1;
  }

  /** The response PSBT is stored. */
  lemma PsbtKept(
    cfg: Config, before: Db, after: Db, c: int, idx: int, ack: bool, psbt: Bytes, now: int, files: map<FileId, Bytes>)
    requires ResponseRecorded(cfg, before, after, c, idx, ack, Some(psbt), now)
    requires Integrity(cfg, files) && Stored(files, after.opFiles)
    ensures Keeps(cfg, files, psbt)
  {
    hide Integrity, Keeps;
    assert after.opFiles[|before.opFiles|].fileId in files;
    StoredIsKept(cfg, files, psbt);
  }

  lemma VotableHere(cfg: Config, db: Db, op: Operation, entry: CosignerOpStatus, ack: bool, psbt: Option<Bytes>)
    requires Votable(cfg, db, op, entry, ack, psbt)
    ensures entry.operationIdx == op.idx
  {
    hide Sane, A.Enabled;
  }

  /** And the PSBT stays: after any later requests its row and the caller's pointer to it are
      there, and what is stored under its digest is the PSBT, unless digests collide. */
  lemma ResponsePsbtStays(cfg: Config, db: Db, call: Call, later: seq<Call>, files: map<FileId, Bytes>) returns (r: nat)
    requires Valid(cfg, db) && WellFormed(cfg, call) && call.RespondToOperation? && AsksFor(cfg, db, call)
    requires call.response.psbt.Some? && R.AllWellFormed(cfg, later)
    requires Integrity(cfg, files) && Stored(files, ExecAll(cfg, Exec(cfg, db, call).0, later).opFiles)
    ensures var end, p := ExecAll(cfg, Exec(cfg, db, call).0, later), call.response.psbt.value;
            && |db.opFiles| < |end.opFiles|
            && end.opFiles[|db.opFiles|] == OpFile(
                 |db.opFiles| + 1, cfg.digest(p), FileType.ResponsePsbt, call.response.request.value.operationIdx)
            && r < |end.statuses| && end.statuses[r].cosignerIdx == call.c
            && end.statuses[r].operationIdx == call.response.request.value.operationIdx
            && end.statuses[r].psbtOpFileIdx == Some(|db.opFiles| + 1)
            && Keeps(cfg, files, p)
  {
    hide Valid, Exec, ExecAll, Integrity, WellFormed, AsksFor;
    var after := Exec(cfg, db, call).0;
    r := RespondWrites(cfg, db, call);
    ExecRefines(cfg, db, call);
    L.RunGrows(cfg, after, later);
    var end, p := ExecAll(cfg, after, later), call.response.psbt.value;
    assert L.EntryGrows(after.statuses[r], end.statuses[r]);
    assert end.opFiles[|db.opFiles|] == after.opFiles[|db.opFiles|];
    StoredIsKept(cfg, files, p);
  }

  // ----- marking -----

  /** The time of the mark is written to the row `r` of the cosigner, and nothing else changes. */
  ghost predicate MarkRecordedAt(before: Db, after: Db, c: int, idx: int, now: int, r: nat) {
    && r < |before.statuses|
    && var row := before.statuses[r];
       && row.cosignerIdx == c && row.operationIdx == idx && row.processedAt.None?
       && after == before.(statuses := before.statuses[r := row.(processedAt := Some(now))])
  }

  ghost predicate MarkRecorded(before: Db, after: Db, c: int, idx: int, now: int) {
    exists r :: MarkRecordedAt(before, after, c, idx, now, r)
  }

  lemma MarkWrites(cfg: Config, db: Db, call: Call) returns (r: nat)
    requires Valid(cfg, db) && WellFormed(cfg, call) && call.MarkOperationProcessed? && AsksFor(cfg, db, call)
    ensures MarkRecordedAt(db, Exec(cfg, db, call).0, call.c, call.idx, call.now, r)
    ensures Exec(cfg, db, call).1 == Marked
  {
    ValidIsSane(cfg, db);
    hide Valid, Sane, Exec, AsksFor;
    var entry := MarkResult(cfg, db, call);
    RowInPlace(cfg, db, entry);
    r := entry.idx - 1;
  }

  // ----- refusing -----

  /** Which response is refused for which reason: the checks in the order of the handler. */
  lemma RespondOutcome(cfg: Config, db: Db, call: Call)
    requires Valid(cfg, db) && WellFormed(cfg, call) && call.RespondToOperation?
    ensures var (after, reply), req := Exec(cfg, db, call), call.response.request;
            if req.None? then (after, reply) == (db, Refused(InvalidRequest))
            else if req.value.ack && call.response.psbt.None? then (after, reply) == (db, Refused(InvalidRequest))
            else
              var idx := req.value.operationIdx;
              if !(1 <= idx <= |db.operations|) then (after, reply) == (db, Refused(OperationNotFound))
              else if db.operations[idx - 1].status != Pending then (after, reply) == (db, Refused(OperationNotPending))
              else if HasVote(db.statuses, call.c, idx) then (after, reply) == (db, Refused(AlreadyResponded))
              else if idx != GetLastProcessedOpIdx(db, call.c) + 1 then
                (after, reply) == (db, Refused(NotNextToProcess))
              else reply == Responded(idx)
  {
    ValidIsSane(cfg, db);
    RespondChecks(cfg, db, call);
    if AsksFor(cfg, db, call) {
      var r := RespondWrites(cfg, db, call);
    }
  }

  /** The same of the plan alone. */
  lemma RespondChecks(cfg: Config, db: Db, call: Call)
    requires Shaped(cfg, db) && WellFormed(cfg, call) && call.RespondToOperation?
    ensures var plan, req := Next(cfg, call, Observe(db, call)), call.response.request;
            if req.None? then plan == Refuse(InvalidRequest)
            else if req.value.ack && call.response.psbt.None? then plan == Refuse(InvalidRequest)
            else
              var idx := req.value.operationIdx;
              if !(1 <= idx <= |db.operations|) then plan == Refuse(OperationNotFound)
              else if db.operations[idx - 1].status != Pending then plan == Refuse(OperationNotPending)
              else if HasVote(db.statuses, call.c, idx) then plan == Refuse(AlreadyResponded)
              else if idx != GetLastProcessedOpIdx(db, call.c) + 1 then plan == Refuse(NotNextToProcess)
              else AsksFor(cfg, db, call)
  {
    hide Shaped, RespondScript, GetLastProcessedOpIdx, GetOperationByIdx, GetEntry, AsksFor;
    var idx := Subject(call);
    RespondPlan(cfg, db, call);
    FoundByNumber(cfg, db, call.c, idx);
    if call.response.request.Some? && 1 <= idx <= |db.operations| {
      assert GetEntry(db.statuses, call.c, idx).Some?;
    }
  }

  lemma FoundByNumber(cfg: Config, db: Db, c: int, idx: int)
    requires Shaped(cfg, db) && c in cfg.Cosigners()
    ensures if 1 <= idx <= |db.operations|
            then GetOperationByIdx(db, idx) == Some(db.operations[idx - 1]) && GetEntry(db.statuses, c, idx).Some?
            else GetOperationByIdx(db, idx).None?
  {
    hide StatusesOk;
    OperationIs(db, idx);
    if 1 <= idx <= |db.operations| {
      EntryOf(cfg, db, c, idx);
    }
  }
}
