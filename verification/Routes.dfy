/** What each route does and answers: the served requests, in terms of the rows, the files
    and the log. */
module Routes {
  import opened HubTypes
  import opened Forms
  import opened Tables
  import opened Requests
  import opened FileStore
  import opened Reading
  import opened Refinement
  import opened Api
  import A = Approval
  import E = Effects
  import G = Ledger
  import R = Registers
  import S = Scans

  // ----- who is let in -----

  /** A cosigner's token names a configured xpub and stands for its number; a watch-only
      token names none; no other token is accepted. */
  lemma AuthenticatedIff(byXpub: map<string, int>, claims: Option<Claims>, user: User)
    ensures Authenticate(byXpub, claims) == Some(user) <==>
              match user
              case Cosigner(c, x) => claims == Some(Claims("cosigner", Some(x))) && x in byXpub && byXpub[x] == c
              case WatchOnly => claims == Some(Claims("watch-only", None))
  {
    assert |"cosigner"| == 8 && |"watch-only"| == 10;
  }

  /** Without an accepted token, or with a watch-only one outside five routes, nothing but
      the log changes. */
  lemma TurnedAway(cfg: Config, byXpub: map<string, int>, host: Host, disk: Disk, req: HttpRequest)
    ensures Authenticate(byXpub, req.claims).None? ==>
              Serve(cfg, byXpub, host, disk, req) == (disk, Failed(Unauthorized))
    ensures req.claims == Some(Claims("watch-only", None)) && req.path !in
              {"/transferstatus", "/info", "/getoperationbyidx", "/getcurrentaddressindices", "/getfile"} ==>
              Serve(cfg, byXpub, host, disk, req)
                == (disk.(journal := disk.journal + [LogLine(WatchOnly, req.path)]), Failed(Forbidden))
  {
    AuthenticatedIff(byXpub, req.claims, WatchOnly);
  }

  /** The request bears the token of the cosigner of this xpub. */
  predicate IsFrom(byXpub: map<string, int>, req: HttpRequest, x: string) {
    req.claims == Some(Claims("cosigner", Some(x))) && x in byXpub
  }

  /** A sound system that meets a request. */
  ghost predicate Meets(cfg: Config, byXpub: map<string, int>, disk: Disk, req: HttpRequest) {
    Healthy(cfg, disk) && Inverse(cfg, byXpub) && Enumerates(req.keys, cfg.Cosigners())
  }

  lemma CosignerIsHandled(
    cfg: Config, byXpub: map<string, int>, host: Host, disk: Disk, req: HttpRequest, x: string)
    requires IsFrom(byXpub, req, x)
    ensures Serve(cfg, byXpub, host, disk, req)
         == Handle(cfg, host, disk.(journal := disk.journal + [LogLine(Cosigner(byXpub[x], x), req.path)]),
                   Cosigner(byXpub[x], x), req)
  {
    hide Handle;
    AuthenticatedIff(byXpub, req.claims, Cosigner(byXpub[x], x));
  }

  /** The disk with the line of a request that is let in. */
  function Noted(disk: Disk, user: User, req: HttpRequest): Disk {
    disk.(journal := disk.journal + [LogLine(user, req.path)])
  }

  // ----- what every request keeps -----

  lemma NotedIsHealthy(cfg: Config, disk: Disk, noted: Disk)
    requires Healthy(cfg, disk) && SameTables(disk, noted)
    ensures Healthy(cfg, noted)
  {
  }

  lemma CallWellFormedFor(cfg: Config, byXpub: map<string, int>, req: HttpRequest, x: string)
    requires Inverse(cfg, byXpub) && Enumerates(req.keys, cfg.Cosigners()) && IsFrom(byXpub, req, x)
    requires CallOf(Cosigner(byXpub[x], x), req).Some?
    ensures WellFormed(cfg, CallOf(Cosigner(byXpub[x], x), req).value)
  {
    hide WellFormed, Enumerates, CallOf, Inverse;
    AuthenticatedIff(byXpub, req.claims, Cosigner(byXpub[x], x));
    CallWellFormed(cfg, byXpub, req, Cosigner(byXpub[x], x));
  }

  lemma ExecuteKeepsFiles(cfg: Config, disk: Disk, call: Call)
    requires Healthy(cfg, disk)
    ensures FilesGrow(disk.files, Execute(cfg, disk, call).0.files)
    ensures Execute(cfg, disk, call).0.db == Exec(cfg, disk.db, call).0
    ensures Execute(cfg, disk, call).1 == Exec(cfg, disk.db, call).1
  {
    hide Integrity, S.Valid, Stored, Exec, Next, Observe, PersistAll;
    var plan := Next(cfg, call, Observe(disk.db, call));
    if plan.Commit? {
      PersistAllGrows(cfg, disk.files, plan.script);
    }
  }

  lemma HandleGrows(cfg: Config, host: Host, disk: Disk, user: User, req: HttpRequest)
    requires Healthy(cfg, disk) && (CallOf(user, req).Some? ==> WellFormed(cfg, CallOf(user, req).value))
    ensures var after := Handle(cfg, host, disk, user, req).0;
            FilesGrow(disk.files, after.files) && G.Reaches(cfg, disk.db, after.db)
  {
    hide Healthy, CallOf, WellFormed, Execute, Exec, Answered, Replied, G.Reaches;
    if CallOf(user, req).Some? {
      ExecuteKeepsFiles(cfg, disk, CallOf(user, req).value);
      G.ReachesByOne(cfg, disk.db, CallOf(user, req).value);
    } else {
      G.ReachesReflexive(cfg, disk.db);
    }
  }

  /** Whoever asks for whatever, stored files stay and the tables move on by whole calls. */
  lemma ServeGrows(cfg: Config, byXpub: map<string, int>, host: Host, disk: Disk, req: HttpRequest)
    requires Meets(cfg, byXpub, disk, req)
    ensures var after := Serve(cfg, byXpub, host, disk, req).0;
            Healthy(cfg, after) && FilesGrow(disk.files, after.files) && G.Reaches(cfg, disk.db, after.db)
  {
    hide S.Valid, Integrity, Stored, CallOf, WellFormed, Handle, IsWatchOnlyAllowed, Inverse, Enumerates, G.Reaches;
    ServeKeepsHealthy(cfg, byXpub, host, disk, req);
    G.ReachesReflexive(cfg, disk.db);
    var user := Authenticate(byXpub, req.claims);
    if user.Some? {
      if CallOf(user.value, req).Some? {
        CallWellFormed(cfg, byXpub, req, user.value);
      }
      var noted := disk.(journal := disk.journal + [LogLine(user.value, req.path)]);
      HandleGrows(cfg, host, noted, user.value, req);
    }
  }

  /** A sound system that meets one request after another. */
  ghost predicate MeetsAll(cfg: Config, byXpub: map<string, int>, disk: Disk, reqs: seq<HttpRequest>) {
    && Healthy(cfg, disk) && Inverse(cfg, byXpub)
    && forall i | 0 <= i < |reqs| :: Enumerates(reqs[i].keys, cfg.Cosigners())
  }

  lemma {:induction false} ServeAllGrows(
    cfg: Config, byXpub: map<string, int>, host: Host, disk: Disk, reqs: seq<HttpRequest>)
    requires MeetsAll(cfg, byXpub, disk, reqs)
    ensures var end := ServeAll(cfg, byXpub, host, disk, reqs);
            Healthy(cfg, end) && FilesGrow(disk.files, end.files) && G.Reaches(cfg, disk.db, end.db)
    decreases |reqs|
  {
    hide Healthy, Inverse, Enumerates, G.Reaches, Serve;
    if reqs == [] {
      G.ReachesReflexive(cfg, disk.db);
    } else {
      var next := Serve(cfg, byXpub, host, disk, reqs[0]).0;
      ServeGrows(cfg, byXpub, host, disk, reqs[0]);
      ServeAllGrows(cfg, byXpub, host, next, reqs[1..]);
      G.ReachesTransitive(cfg, disk.db, next.db, ServeAll(cfg, byXpub, host, next, reqs[1..]).db);
    }
  }

  /** A cosigner's write is executed, with the tables and the reply that gives. */
  lemma WriteServed(
    cfg: Config, byXpub: map<string, int>, host: Host, disk: Disk, req: HttpRequest, x: string, call: Call)
    requires Meets(cfg, byXpub, disk, req) && IsFrom(byXpub, req, x)
    requires CallOf(Cosigner(byXpub[x], x), req) == Some(call)
    ensures var (after, reply) := Serve(cfg, byXpub, host, disk, req);
            && after.db == Exec(cfg, disk.db, call).0 && Healthy(cfg, after)
            && reply == Replied(cfg, after, call, Exec(cfg, disk.db, call).1)
    ensures WellFormed(cfg, call)
  {
    hide Exec, Replied, Healthy, Enumerates, CallOf, WellFormed, Execute, PersistAll, G.Reaches;
    CosignerIsHandled(cfg, byXpub, host, disk, req, x);
    CallWellFormedFor(cfg, byXpub, req, x);
    ServeGrows(cfg, byXpub, host, disk, req);
    var noted := disk.(journal := disk.journal + [LogLine(Cosigner(byXpub[x], x), req.path)]);
    NotedIsHealthy(cfg, disk, noted);
    ExecuteKeepsFiles(cfg, noted, call);
  }

  // ----- the writing routes -----

  /** A post is let through to the log exactly when the machine allows it; then its rows and
      files are those its form says, and the answer is the new number. */
  lemma PostServed(
    cfg: Config, byXpub: map<string, int>, host: Host, disk: Disk, req: HttpRequest, x: string, parts: seq<Part>)
    requires Meets(cfg, byXpub, disk, req) && IsFrom(byXpub, req, x)
    requires req.path == "/postoperation" && req.body == PostBody(parts)
    ensures var (after, reply), call :=
              Serve(cfg, byXpub, host, disk, req), PostOperation(byXpub[x], parts, req.now, req.keys);
            if AsksFor(cfg, disk.db, call) then
              && reply == Written(Posted(|disk.db.operations| + 1))
              && E.PostRecorded(cfg, disk.db, after.db, byXpub[x], parts, req.now)
              && (forall i | 0 <= i < |parts| && parts[i].FilePart? :: Keeps(cfg, after.files, parts[i].content))
            else reply.Failed? && after.db == disk.db
  {
    hide Exec, AsksFor, E.PostRecorded, Keeps, S.Valid, Integrity, WellFormed, Enumerates, Serve, G.Reaches,
         ParsePost;
    var call := PostOperation(byXpub[x], parts, req.now, req.keys);
    WriteServed(cfg, byXpub, host, disk, req, x, call);
    if AsksFor(cfg, disk.db, call) {
      E.PostWrites(cfg, disk.db, call);
      PartsServed(cfg, disk.db, Serve(cfg, byXpub, host, disk, req).0, byXpub[x], parts, req.now);
    } else {
      NotAsked(cfg, disk.db, call);
    }
  }

  lemma PartsServed(cfg: Config, before: Db, after: Disk, c: int, parts: seq<Part>, now: int)
    requires E.PostRecorded(cfg, before, after.db, c, parts, now) && Healthy(cfg, after)
    ensures forall i | 0 <= i < |parts| && parts[i].FilePart? :: Keeps(cfg, after.files, parts[i].content)
  {
    hide S.Valid, Integrity, Stored, E.OperationRecorded, E.StatusesRecorded, E.FilesRecorded, Keeps;
    E.PartsKept(cfg, before.opFiles, after.db.opFiles, |before.operations| + 1, parts, after.files);
  }

  /** What the machine does not allow is refused, and changes nothing. */
  lemma NotAsked(cfg: Config, db: Db, call: Call)
    requires S.Valid(cfg, db) && WellFormed(cfg, call) && !AsksFor(cfg, db, call)
    requires !call.BumpAddressIndices? && !call.PutTransferStatus?
    ensures Exec(cfg, db, call).1.Refused? && Exec(cfg, db, call).0 == db
  {
    hide S.Valid, Exec, ActionOf, A.Enabled, S.Abs, AsksFor;
    if ActionOf(call).Some? {
      RefusedUnlessAsked(cfg, db, call);
    } else {
      G.MalformedRefused(cfg, db, call);
    }
  }

  lemma RefusedUnlessAsked(cfg: Config, db: Db, call: Call)
    requires S.Valid(cfg, db) && WellFormed(cfg, call) && !AsksFor(cfg, db, call) && ActionOf(call).Some?
    ensures Exec(cfg, db, call).1.Refused? && Exec(cfg, db, call).0 == db
  {
    hide S.Valid, Exec, A.Enabled, S.Abs;
    ExecRefines(cfg, db, call);
  }

  /** A response is let through exactly when the machine allows it; then the vote, its time
      and its PSBT are written, and the answer is the view of the operation. */
  lemma RespondServed(
    cfg: Config, byXpub: map<string, int>, host: Host, disk: Disk, req: HttpRequest, x: string, form: RespondForm)
    requires Meets(cfg, byXpub, disk, req) && IsFrom(byXpub, req, x)
    requires req.path == "/respondtooperation" && req.body == RespondBody(form)
    ensures var (after, reply) := Serve(cfg, byXpub, host, disk, req);
            if AsksFor(cfg, disk.db, RespondToOperation(byXpub[x], form, req.now)) then
              var idx := form.request.value.operationIdx;
              && E.ResponseRecorded(cfg, disk.db, after.db, byXpub[x], idx, form.request.value.ack, form.psbt, req.now)
              && (form.psbt.Some? ==> Keeps(cfg, after.files, form.psbt.value))
              && reply.OperationShown? && reply.view.Some?
              && View(cfg, after.db, after.db, after.db, after.files, idx, Some(byXpub[x])) == Ok(reply.view)
            else reply.Failed? && after.db == disk.db
  {
    hide Exec, AsksFor, E.ResponseRecordedAt, Keeps, S.Valid, Integrity, Stored, WellFormed, Enumerates, Serve,
         G.Reaches, View;
    var call := RespondToOperation(byXpub[x], form, req.now);
    WriteServed(cfg, byXpub, host, disk, req, x, call);
    var after := Serve(cfg, byXpub, host, disk, req).0;
    if AsksFor(cfg, disk.db, call) {
      AskedHasRequest(cfg, disk.db, call);
      var r := E.RespondWrites(cfg, disk.db, call);
      if form.psbt.Some? {
        E.PsbtKept(cfg, disk.db, after.db, byXpub[x], form.request.value.operationIdx, form.request.value.ack,
                   form.psbt.value, req.now, after.files);
      }
      G.ReachesReflexive(cfg, after.db);
      RecordedExists(cfg, disk.db, after.db, byXpub[x], form, req.now);
      ViewSucceeds(cfg, after.db, after.db, after.db, after.files, form.request.value.operationIdx, Some(byXpub[x]));
    } else {
      NotAsked(cfg, disk.db, call);
    }
  }

  lemma RecordedExists(cfg: Config, before: Db, after: Db, c: int, form: RespondForm, now: int)
    requires form.request.Some?
    requires E.ResponseRecorded(
               cfg, before, after, c, form.request.value.operationIdx, form.request.value.ack, form.psbt, now)
    ensures 1 <= form.request.value.operationIdx <= |after.operations|
  {
  }

  lemma AskedHasRequest(cfg: Config, db: Db, call: Call)
    requires call.RespondToOperation? && AsksFor(cfg, db, call)
    ensures call.response.request.Some?
  {
  }

  /** A mark is let through exactly when the machine allows it; then its time is written. */
  lemma MarkServed(
    cfg: Config, byXpub: map<string, int>, host: Host, disk: Disk, req: HttpRequest, x: string, idx: int)
    requires Meets(cfg, byXpub, disk, req) && IsFrom(byXpub, req, x)
    requires req.path == "/markoperationprocessed" && req.body == OperationBody(idx)
    ensures var (after, reply) := Serve(cfg, byXpub, host, disk, req);
            if AsksFor(cfg, disk.db, MarkOperationProcessed(byXpub[x], idx, req.now)) then
              reply == Written(Marked) && E.MarkRecorded(disk.db, after.db, byXpub[x], idx, req.now)
            else reply.Failed? && after.db == disk.db
  {
    hide Exec, AsksFor, E.MarkRecordedAt, Healthy, WellFormed, Enumerates, Serve, G.Reaches;
    var call := MarkOperationProcessed(byXpub[x], idx, req.now);
    WriteServed(cfg, byXpub, host, disk, req, x, call);
    HealthyIsValid(cfg, disk);
    if AsksFor(cfg, disk.db, call) {
      var r := E.MarkWrites(cfg, disk.db, call);
    } else {
      NotAsked(cfg, disk.db, call);
    }
  }

  lemma HealthyIsValid(cfg: Config, disk: Disk)
    requires Healthy(cfg, disk)
    ensures S.Valid(cfg, disk.db) && disk.db.nextAddress.Some?
  {
    S.AddressKnown(cfg, disk.db);
  }

  /** A bump answers the next index of the chain and moves that chain, alone, by the count;
      a count of nothing, or beyond the last index, is refused. */
  lemma BumpServed(
    cfg: Config, byXpub: map<string, int>, host: Host, disk: Disk, req: HttpRequest, x: string,
    count: byte, internal: bool)
    requires Meets(cfg, byXpub, disk, req) && IsFrom(byXpub, req, x)
    requires req.path == "/bumpaddressindices" && req.body == BumpBody(count, internal)
    ensures disk.db.nextAddress.Some?
    ensures var (after, reply), next := Serve(cfg, byXpub, host, disk, req), disk.db.nextAddress.value;
            var first := if internal then next.internal else next.external;
            if count == 0 then reply == Failed(InvalidCount) && after.db == disk.db
            else if first + count >= 0x1_0000_0000 then reply == Failed(AddressOverflow) && after.db == disk.db
            else
              && reply == Written(Bumped(first))
              && after.db == disk.db.(nextAddress := Some(
                   if internal then NextAddressIndex(first + count, next.external)
                   else NextAddressIndex(next.internal, first + count)))
  {
    hide Exec, S.Valid, S.Sane, S.Shaped, Integrity, Stored, WellFormed, Enumerates, Serve, G.Reaches;
    var call := BumpAddressIndices(count, internal);
    WriteServed(cfg, byXpub, host, disk, req, x, call);
    HealthyIsValid(cfg, disk);
    BumpEffect(cfg, disk.db, call);
  }

  // ----- transfer statuses -----

  /** The batch is registered with this status. */
  predicate Registered(cfg: Config, db: Db, batch: int, info: TransferStatusInfo) {
    var row := GetTransferStatus(db, batch);
    && row.Some? && row.value.cosignerIdx in cfg.xpubs
    && info == TransferStatusInfo(cfg.xpubs[row.value.cosignerIdx], row.value.accepted, row.value.registeredAt)
  }

  /** The cosigner who registered the batch is a configured one. */
  lemma RegistrarKnown(cfg: Config, db: Db, batch: int)
    requires S.Valid(cfg, db) && GetTransferStatus(db, batch).Some?
    ensures GetTransferStatus(db, batch).value.cosignerIdx in cfg.xpubs
  {
    hide S.StatusesOk, A.Inv;
    var i :| 0 <= i < |db.transfers| && db.transfers[i] == GetTransferStatus(db, batch).value;
  }

  /** A set of a free batch registers and answers the caller's xpub, its answer and the time;
      a later one is answered with the registered status, or refused when it disagrees. */
  lemma SetServed(
    cfg: Config, byXpub: map<string, int>, host: Host, disk: Disk, req: HttpRequest, x: string,
    batch: int, accept: bool)
    requires Meets(cfg, byXpub, disk, req) && IsFrom(byXpub, req, x)
    requires req.path == "/transferstatus" && req.body == TransferBody(batch, Some(accept))
    ensures var (after, reply) := Serve(cfg, byXpub, host, disk, req);
            if GetTransferStatus(disk.db, batch).None? then
              && reply == Transfer(Some(TransferStatusInfo(x, accept, req.now)))
              && Registered(cfg, after.db, batch, reply.status.value)
            else if GetTransferStatus(disk.db, batch).value.accepted == accept then
              && reply.Transfer? && reply.status.Some? && reply.status.value.accepted == accept
              && after.db == disk.db && Registered(cfg, after.db, batch, reply.status.value)
            else reply == Failed(TransferStatusMismatch) && after.db == disk.db
  {
    hide Exec, S.Valid, Integrity, Stored, WellFormed, Enumerates, Serve, GetTransferStatus;
    var call := PutTransferStatus(byXpub[x], batch, accept, req.now);
    WriteServed(cfg, byXpub, host, disk, req, x, call);
    R.SetIsWriteOnce(cfg, disk.db, call);
    if GetTransferStatus(disk.db, batch).Some? {
      RegistrarKnown(cfg, disk.db, batch);
    }
  }

  /** What is answered on this route when nothing is written. */
  lemma TransferAnswerOf(cfg: Config, host: Host, disk: Disk, user: User, req: HttpRequest)
    requires req.path == "/transferstatus" && req.body.TransferBody?
    ensures Answered(cfg, host, disk, user, req)
         == if req.body.accept.None? then ShowTransfer(cfg, disk.db, req.body.batch) else Failed(Forbidden)
  {
    hide View, ShowView, ShowAddresses, ReadFile, ShowTransfer, GetLastProcessedOpIdx, GetLastOperationIdx;
    assert |"/transferstatus"| == 15 && |"/getfile"| == 8 && |"/getlastprocessedopidx"| == 22;
    assert |"/getcurrentaddressindices"| == 25 && |"/info"| == 5 && |"/getoperationbyidx"| == 18;
    assert |"/postoperation"| == 14 && |"/respondtooperation"| == 19 && |"/markoperationprocessed"| == 23;
  }

  /** No set, no write. */
  lemma TransferCallsNothing(user: User, req: HttpRequest)
    requires req.path == "/transferstatus" && req.body.TransferBody?
    requires req.body.accept.None? || user.WatchOnly?
    ensures CallOf(user, req).None?
  {
  }

  /** A set by anyone but a cosigner is refused. */
  lemma SetIsForCosigners(cfg: Config, byXpub: map<string, int>, host: Host, disk: Disk, req: HttpRequest)
    requires !FromCosigner(byXpub, req)
    requires req.path == "/transferstatus" && req.body.TransferBody? && req.body.accept.Some?
    ensures var (after, reply) := Serve(cfg, byXpub, host, disk, req);
            SameTables(after, disk)
            && reply == Failed(if Authenticate(byXpub, req.claims).None? then Unauthorized else Forbidden)
  {
    hide Answered, CallOf, Authenticate;
    if Authenticate(byXpub, req.claims).Some? {
      var user := Authenticate(byXpub, req.claims).value;
      TransferAnswerOf(cfg, host, Noted(disk, user, req), user, req);
      TransferCallsNothing(user, req);
    }
  }

  /** A read answers the registered status, to whoever is let in. */
  lemma StatusServed(
    cfg: Config, byXpub: map<string, int>, host: Host, disk: Disk, req: HttpRequest, batch: int)
    requires Healthy(cfg, disk) && Authenticate(byXpub, req.claims).Some?
    requires req.path == "/transferstatus" && req.body == TransferBody(batch, None)
    ensures var (after, reply) := Serve(cfg, byXpub, host, disk, req);
            && reply.Transfer? && SameTables(after, disk)
            && (reply.status.None? <==> GetTransferStatus(disk.db, batch).None?)
            && (reply.status.Some? ==> Registered(cfg, disk.db, batch, reply.status.value))
  {
    hide S.Valid, Integrity, Stored, GetTransferStatus, Answered, CallOf, Authenticate;
    var user := Authenticate(byXpub, req.claims).value;
    TransferAnswerOf(cfg, host, Noted(disk, user, req), user, req);
    TransferCallsNothing(user, req);
    if GetTransferStatus(disk.db, batch).Some? {
      RegistrarKnown(cfg, disk.db, batch);
    }
  }

  lemma RegistrationStays(cfg: Config, db: Db, later: Db, batch: int, info: TransferStatusInfo)
    requires S.Valid(cfg, db) && G.Reaches(cfg, db, later) && Registered(cfg, db, batch, info)
    ensures Registered(cfg, later, batch, info)
  {
    hide S.Valid, GetTransferStatus;
    var calls :| R.AllWellFormed(cfg, calls) && ExecAll(cfg, db, calls) == later;
    R.StatusStaysForGood(cfg, db, calls, batch);
  }

  lemma OneRegistration(cfg: Config, db: Db, batch: int, a: TransferStatusInfo, b: TransferStatusInfo)
    requires Registered(cfg, db, batch, a) && Registered(cfg, db, batch, b)
    ensures a == b
    ensures GetTransferStatus(db, batch).Some? && GetTransferStatus(db, batch).value.accepted == a.accepted
  {
  }

  /** Whatever is requested in between: what the first successful set of a batch was answered
      is what every later read is answered, and every later set that agrees; a set that does
      not agree is refused. */
  lemma AnswersAgree(
    cfg: Config, byXpub: map<string, int>, host: Host, disk: Disk, first: HttpRequest, x: string,
    between: seq<HttpRequest>, later: HttpRequest, batch: int, accept: bool)
    requires Meets(cfg, byXpub, disk, first) && IsFrom(byXpub, first, x)
    requires first.path == "/transferstatus" && first.body == TransferBody(batch, Some(accept))
    requires !Serve(cfg, byXpub, host, disk, first).1.Failed?
    requires MeetsAll(cfg, byXpub, disk, between) && Enumerates(later.keys, cfg.Cosigners())
    requires later.path == "/transferstatus" && later.body.TransferBody? && later.body.batch == batch
    ensures var (after, reply) := Serve(cfg, byXpub, host, disk, first);
            var end := ServeAll(cfg, byXpub, host, after, between);
            && reply.Transfer? && reply.status.Some? && reply.status.value.accepted == accept
            && (Authenticate(byXpub, later.claims).Some? && later.body.accept.None? ==>
                  Serve(cfg, byXpub, host, end, later).1 == reply)
            && (FromCosigner(byXpub, later) && later.body.accept == Some(accept) ==>
                  Serve(cfg, byXpub, host, end, later).1 == reply)
            && (FromCosigner(byXpub, later) && later.body.accept == Some(!accept) ==>
                  Serve(cfg, byXpub, host, end, later).1 == Failed(TransferStatusMismatch))
  {
    hide Healthy, Inverse, Enumerates, G.Reaches, Serve, ServeAll, Registered, Authenticate;
    SetServed(cfg, byXpub, host, disk, first, x, batch, accept);
    ServeGrows(cfg, byXpub, host, disk, first);
    var (after, reply) := Serve(cfg, byXpub, host, disk, first);
    ServeAllGrows(cfg, byXpub, host, after, between);
    var end, info := ServeAll(cfg, byXpub, host, after, between), reply.status.value;
    HealthyIsValid(cfg, after);
    RegistrationStays(cfg, after.db, end.db, batch, info);
    LaterAnswer(cfg, byXpub, host, end, later, batch, info);
  }

  /** What a registered batch is answered. */
  lemma LaterAnswer(
    cfg: Config, byXpub: map<string, int>, host: Host, disk: Disk, req: HttpRequest, batch: int,
    info: TransferStatusInfo)
    requires Meets(cfg, byXpub, disk, req) && Registered(cfg, disk.db, batch, info)
    requires req.path == "/transferstatus" && req.body.TransferBody? && req.body.batch == batch
    ensures Authenticate(byXpub, req.claims).Some? && req.body.accept.None? ==>
              Serve(cfg, byXpub, host, disk, req).1 == Transfer(Some(info))
    ensures FromCosigner(byXpub, req) && req.body.accept == Some(info.accepted) ==>
              Serve(cfg, byXpub, host, disk, req).1 == Transfer(Some(info))
    ensures FromCosigner(byXpub, req) && req.body.accept == Some(!info.accepted) ==>
              Serve(cfg, byXpub, host, disk, req).1 == Failed(TransferStatusMismatch)
  {
    hide Healthy, Inverse, Enumerates, Serve, Registered, GetTransferStatus;
    OneRegistration(cfg, disk.db, batch, info, info);
    var reply := Serve(cfg, byXpub, host, disk, req).1;
    if req.body.accept.None? {
      if Authenticate(byXpub, req.claims).Some? {
        StatusServed(cfg, byXpub, host, disk, req, batch);
        OneRegistration(cfg, disk.db, batch, info, reply.status.value);
      }
    } else if FromCosigner(byXpub, req) {
      var x := Authenticate(byXpub, req.claims).value.xpub;
      AuthenticatedIff(byXpub, req.claims, Cosigner(byXpub[x], x));
      SetServed(cfg, byXpub, host, disk, req, x, batch, req.body.accept.value);
      if req.body.accept.value == info.accepted {
        OneRegistration(cfg, disk.db, batch, info, reply.status.value);
      }
    }
  }

  // ----- the reading routes -----

  /** The user is let in and past the allow-list. */
  predicate MayAsk(byXpub: map<string, int>, req: HttpRequest) {
    var user := Authenticate(byXpub, req.claims);
    user.Some? && (user.value.WatchOnly? ==> IsWatchOnlyAllowed(req.path))
  }

  const READING_ROUTES: set<string> := {
    "/getlastprocessedopidx", "/info", "/getcurrentaddressindices", "/getoperationbyidx", "/getfile"}

  lemma ReadsCallNothing(user: User, req: HttpRequest)
    requires req.path in READING_ROUTES
    ensures CallOf(user, req).None?
  {
    assert |"/getfile"| == 8 && |"/getlastprocessedopidx"| == 22 && |"/transferstatus"| == 15;
    assert |"/getcurrentaddressindices"| == 25 && |"/info"| == 5 && |"/getoperationbyidx"| == 18;
    assert |"/postoperation"| == 14 && |"/respondtooperation"| == 19 && |"/markoperationprocessed"| == 23;
    assert |"/bumpaddressindices"| == 19;
  }

  /** The reading routes go to their handlers. */
  lemma ReadIsAnswered(cfg: Config, byXpub: map<string, int>, host: Host, disk: Disk, req: HttpRequest)
    requires MayAsk(byXpub, req) && req.path in READING_ROUTES
    ensures var user := Authenticate(byXpub, req.claims).value;
            var noted := Noted(disk, user, req);
            Serve(cfg, byXpub, host, disk, req) == (noted, Answered(cfg, host, noted, user, req))
  {
    hide Answered, Authenticate, IsWatchOnlyAllowed, CallOf;
    ReadsCallNothing(Authenticate(byXpub, req.claims).value, req);
  }

  /** Which handler answers on which route. */
  lemma AnswerOf(cfg: Config, host: Host, disk: Disk, user: User, req: HttpRequest)
    requires req.path in READING_ROUTES && (user.WatchOnly? ==> req.path != "/getlastprocessedopidx")
    ensures var reply := Answered(cfg, host, disk, user, req);
            && (req.path == "/getlastprocessedopidx" ==>
                  reply == LastProcessed(GetLastProcessedOpIdx(disk.db, user.idx)))
            && (req.path == "/info" ==> reply == Info(GetLastOperationIdx(disk.db), user))
            && (req.path == "/getcurrentaddressindices" ==> reply == ShowAddresses(disk.db))
            && (req.path == "/getoperationbyidx" && req.body.OperationBody? ==>
                  reply == ShowView(View(cfg, disk.db, disk.db, disk.db, disk.files, req.body.operationIdx,
                                         if user.Cosigner? then Some(user.idx) else None)))
            && (req.path == "/getfile" && req.body.FileBody? ==> reply == ReadFile(host, disk, req.body.fileId))
  {
    hide View, ShowView, ShowAddresses, ReadFile, ShowTransfer, GetLastProcessedOpIdx, GetLastOperationIdx;
    assert |"/getfile"| == 8 && |"/getlastprocessedopidx"| == 22;
    assert |"/getcurrentaddressindices"| == 25 && |"/info"| == 5 && |"/getoperationbyidx"| == 18;
    assert |"/postoperation"| == 14 && |"/respondtooperation"| == 19 && |"/markoperationprocessed"| == 23;
  }

  /** A cosigner is told the last operation it has processed, as the log has it. */
  lemma LastProcessedServed(
    cfg: Config, byXpub: map<string, int>, host: Host, disk: Disk, req: HttpRequest, x: string)
    requires Healthy(cfg, disk) && Inverse(cfg, byXpub) && IsFrom(byXpub, req, x)
    requires req.path == "/getlastprocessedopidx"
    ensures var (after, reply) := Serve(cfg, byXpub, host, disk, req);
            SameTables(after, disk) && reply == LastProcessed(A.LastProcessed(S.Abs(cfg, disk.db), byXpub[x]))
  {
    hide S.StatusesOk, S.Abs, A.Inv, Serve, Answered, GetLastProcessedOpIdx, A.LastProcessed, Integrity,
         Stored;
    AuthenticatedIff(byXpub, req.claims, Cosigner(byXpub[x], x));
    ReadIsAnswered(cfg, byXpub, host, disk, req);
    AnswerOf(cfg, host, Noted(disk, Cosigner(byXpub[x], x), req), Cosigner(byXpub[x], x), req);
    S.LastProcessedScan(cfg, disk.db, byXpub[x]);
  }

  /** The number of the last operation is the number of operations; the user is told who
      it is taken for. */
  lemma InfoServed(cfg: Config, byXpub: map<string, int>, host: Host, disk: Disk, req: HttpRequest)
    requires Healthy(cfg, disk) && Authenticate(byXpub, req.claims).Some? && req.path == "/info"
    ensures var (after, reply) := Serve(cfg, byXpub, host, disk, req);
            && SameTables(after, disk)
            && reply == Info(if disk.db.operations == [] then None else Some(|disk.db.operations|),
                             Authenticate(byXpub, req.claims).value)
  {
    hide S.StatusesOk, S.Abs, A.Inv, Serve, Authenticate, Answered, Integrity, Stored, GetLastOperationIdx;
    var user := Authenticate(byXpub, req.claims).value;
    ReadIsAnswered(cfg, byXpub, host, disk, req);
    AnswerOf(cfg, host, Noted(disk, user, req), user, req);
    S.LastOperationScan(disk.db);
  }

  /** The current index of a chain is the one before the next, if any was handed out. */
  lemma AddressesServed(cfg: Config, byXpub: map<string, int>, host: Host, disk: Disk, req: HttpRequest)
    requires Healthy(cfg, disk) && Authenticate(byXpub, req.claims).Some? && req.path == "/getcurrentaddressindices"
    ensures disk.db.nextAddress.Some?
    ensures var (after, reply), next := Serve(cfg, byXpub, host, disk, req), disk.db.nextAddress.value;
            && SameTables(after, disk)
            && reply == Addresses(if next.internal == 0 then None else Some(next.internal - 1),
                                  if next.external == 0 then None else Some(next.external - 1))
  {
    hide Healthy, Serve, Authenticate, Answered;
    HealthyIsValid(cfg, disk);
    var user := Authenticate(byXpub, req.claims).value;
    ReadIsAnswered(cfg, byXpub, host, disk, req);
    AnswerOf(cfg, host, Noted(disk, user, req), user, req);
  }

  /** An operation is shown to whoever is let in, with a cosigner's own response; a number
      that no operation has shows nothing. */
  lemma OperationServed(
    cfg: Config, byXpub: map<string, int>, host: Host, disk: Disk, req: HttpRequest, idx: int)
    requires Healthy(cfg, disk) && Authenticate(byXpub, req.claims).Some?
    requires req.path == "/getoperationbyidx" && req.body == OperationBody(idx)
    ensures var (after, reply), user :=
              Serve(cfg, byXpub, host, disk, req), Authenticate(byXpub, req.claims).value;
            && SameTables(after, disk) && reply.OperationShown?
            && (reply.view.Some? <==> 1 <= idx <= |disk.db.operations|)
            && View(cfg, disk.db, disk.db, disk.db, disk.files, idx, if user.Cosigner? then Some(user.idx) else None)
                 == Ok(reply.view)
  {
    hide S.Valid, Integrity, Serve, Authenticate, Answered, View, G.Reaches;
    var user := Authenticate(byXpub, req.claims).value;
    ReadIsAnswered(cfg, byXpub, host, disk, req);
    AnswerOf(cfg, host, Noted(disk, user, req), user, req);
    G.ReachesReflexive(cfg, disk.db);
    ViewSucceeds(cfg, disk.db, disk.db, disk.db, disk.files, idx, if user.Cosigner? then Some(user.idx) else None);
  }

  /** A plain file name is answered with the content stored under it, if any. */
  lemma FileServed(
    cfg: Config, byXpub: map<string, int>, host: Host, disk: Disk, req: HttpRequest, name: string)
    requires Authenticate(byXpub, req.claims).Some? && req.path == "/getfile" && req.body == FileBody(name)
    requires PlainNamesStay(host) && PlainName(name)
    ensures var (after, reply) := Serve(cfg, byXpub, host, disk, req);
            SameTables(after, disk) && reply == if name in disk.files then Content(disk.files[name]) else NotFound
  {
    hide PlainName, Serve, Authenticate, Answered;
    var user := Authenticate(byXpub, req.claims).value;
    ReadIsAnswered(cfg, byXpub, host, disk, req);
    AnswerOf(cfg, host, Noted(disk, user, req), user, req);
  }

  // ----- what was uploaded can be downloaded -----

  /** A kept content is served under its digest after any further requests, to whoever is
      let in, if nothing else has the same digest. */
  lemma KeptIsServed(
    cfg: Config, byXpub: map<string, int>, host: Host, disk: Disk, between: seq<HttpRequest>, later: HttpRequest,
    content: Bytes)
    requires MeetsAll(cfg, byXpub, disk, between) && Keeps(cfg, disk.files, content)
    requires forall other | cfg.digest(other) == cfg.digest(content) :: other == content
    requires PlainNamesStay(host) && PlainName(cfg.digest(content))
    requires Authenticate(byXpub, later.claims).Some?
    requires later.path == "/getfile" && later.body == FileBody(cfg.digest(content))
    ensures Serve(cfg, byXpub, host, ServeAll(cfg, byXpub, host, disk, between), later).1 == Content(content)
  {
    hide MeetsAll, Healthy, G.Reaches, Serve, ServeAll, PlainName, PlainNamesStay, Authenticate;
    ServeAllGrows(cfg, byXpub, host, disk, between);
    var end := ServeAll(cfg, byXpub, host, disk, between);
    FileServed(cfg, byXpub, host, end, later, cfg.digest(content));
  }

  /** The files of a successful post and the PSBT of a successful response. */
  predicate Uploaded(req: HttpRequest, content: Bytes) {
    || (req.path == "/postoperation" && req.body.PostBody?
        && exists i | 0 <= i < |req.body.parts| :: req.body.parts[i].FilePart? && req.body.parts[i].content == content)
    || (req.path == "/respondtooperation" && req.body.RespondBody? && req.body.response.psbt == Some(content))
  }

  /** Whatever is requested in between, what a cosigner uploaded with success can be
      downloaded by everyone who is let in, byte for byte. */
  lemma UploadIsServed(
    cfg: Config, byXpub: map<string, int>, host: Host, disk: Disk, first: HttpRequest, x: string,
    between: seq<HttpRequest>, later: HttpRequest, content: Bytes)
    requires Meets(cfg, byXpub, disk, first) && IsFrom(byXpub, first, x) && Uploaded(first, content)
    requires !Serve(cfg, byXpub, host, disk, first).1.Failed?
    requires MeetsAll(cfg, byXpub, disk, between)
    requires forall other | cfg.digest(other) == cfg.digest(content) :: other == content
    requires PlainNamesStay(host) && PlainName(cfg.digest(content))
    requires Authenticate(byXpub, later.claims).Some?
    requires later.path == "/getfile" && later.body == FileBody(cfg.digest(content))
    ensures var after := Serve(cfg, byXpub, host, disk, first).0;
            Serve(cfg, byXpub, host, ServeAll(cfg, byXpub, host, after, between), later).1 == Content(content)
  {
    hide Healthy, Inverse, Enumerates, G.Reaches, Serve, ServeAll, PlainName, PlainNamesStay, Authenticate,
         Keeps, View, AsksFor, E.PostRecorded, E.ResponseRecorded, IsFrom;
    ServeGrows(cfg, byXpub, host, disk, first);
    if first.body.PostBody? {
      PostServed(cfg, byXpub, host, disk, first, x, first.body.parts);
    } else {
      RespondServed(cfg, byXpub, host, disk, first, x, first.body.response);
    }
    KeptIsServed(cfg, byXpub, host, Serve(cfg, byXpub, host, disk, first).0, between, later, content);
  }
}
