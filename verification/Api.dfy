/** The service as its users see it: authentication, the route allow-list for watch-only
    users, and the handler of every route. */
module Api {
  import opened HubTypes
  import Forms
  import opened Tables
  import opened Requests
  import opened FileStore
  import opened Reading
  import Refinement
  import G = Ledger
  import L = Locking
  import R = Registers
  import S = Scans

  /** The facts of a verified, unexpired token. */
  datatype Claims = Claims(role: string, xpub: Option<string>)

  datatype User = Cosigner(idx: int, xpub: string) | WatchOnly

  const WATCH_ONLY_ALLOWED_ROUTES: seq<string> := [
    "/transferstatus",
    "/info",
    "/getoperationbyidx",
    "/getcurrentaddressindices",
    "/getfile"
  ]

  predicate IsWatchOnlyAllowed(path: string): (allowed: bool)
    ensures allowed <==>
              path in {"/transferstatus", "/info", "/getoperationbyidx", "/getcurrentaddressindices", "/getfile"}
  {
    path in WATCH_ONLY_ALLOWED_ROUTES
  }

  /** None when there is no token, or one that does not verify. */
  function Authenticate(byXpub: map<string, int>, claims: Option<Claims>): Option<User> {
    match claims
    case None => None
    case Some(Claims(role, xpub)) =>
      if role == "cosigner" && xpub.Some? then
        if xpub.value in byXpub then Some(Cosigner(byXpub[xpub.value], xpub.value)) else None
      else if role == "watch-only" && xpub.None? then Some(WatchOnly)
      else None
  }

  datatype Body =
    | Empty
    | BumpBody(count: byte, internal: bool)
    | FileBody(fileId: FileId)
    | OperationBody(operationIdx: int)
    | PostBody(parts: seq<Forms.Part>)
    | RespondBody(response: RespondForm)
    | TransferBody(batch: int, accept: Option<bool>)

  /** `now` and `keys` are the clock and the map order the handler meets. */
  datatype HttpRequest = HttpRequest(claims: Option<Claims>, path: string, body: Body, now: int, keys: seq<int>)

  datatype HttpReply =
    | Failed(error: ApiError)
    | NotFound
    | Written(reply: Reply)
    | OperationShown(view: Option<OperationResponse>)
    | Addresses(internal: Option<int>, external: Option<int>)
    | LastProcessed(idx: int)
    | Info(lastOperationIdx: Option<int>, user: User)
    | Content(content: Bytes)
    | LogShown(journal: seq<LogLine>)
    | Transfer(status: Option<TransferStatusInfo>)

  /** The line that authentication writes for each request it lets in. */
  datatype LogLine = LogLine(user: User, path: string)

  /** Where a path leads that is joined to the files directory. */
  datatype Place = InFiles(name: FileId) | Journal | Elsewhere(path: string)

  /** The machine the service runs on: its paths, and the files that are not its own. */
  datatype Host = Host(locate: string -> Place, elsewhere: map<string, Bytes>)

  /** What requests can change: the tables, the files directory and the log file. */
  datatype Disk = Disk(db: Db, files: map<FileId, Bytes>, journal: seq<LogLine>)

  function Execute(cfg: Config, disk: Disk, call: Call): (Disk, Reply) {
    var plan := Next(cfg, call, Observe(disk.db, call));
    var (db, reply) := Exec(cfg, disk.db, call);
    (disk.(db := db, files := if plan.Commit? then PersistAll(cfg, disk.files, plan.script) else disk.files), reply)
  }

  const COSIGNER_ROUTES: set<string> := {
    "/postoperation",
    "/respondtooperation",
    "/markoperationprocessed",
    "/getlastprocessedopidx"
  }

  /** The write a request leads to, if its handler lets this user write. The handlers of
      the cosigner routes take an authenticated cosigner, the transfer handler looks at the
      user before it sets a status, and the bump handler does not look at the user. */
  function CallOf(user: User, req: HttpRequest): Option<Call> {
    match req.body
    case PostBody(parts) =>
      if req.path == "/postoperation" && user.Cosigner?
      then Some(PostOperation(user.idx, parts, req.now, req.keys)) else None
    case RespondBody(response) =>
      if req.path == "/respondtooperation" && user.Cosigner?
      then Some(RespondToOperation(user.idx, response, req.now)) else None
    case OperationBody(idx) =>
      if req.path == "/markoperationprocessed" && user.Cosigner?
      then Some(MarkOperationProcessed(user.idx, idx, req.now)) else None
    case BumpBody(count, internal) =>
      if req.path == "/bumpaddressindices" then Some(BumpAddressIndices(count, internal)) else None
    case TransferBody(batch, accept) =>
      if req.path == "/transferstatus" && accept.Some? && user.Cosigner?
      then Some(PutTransferStatus(user.idx, batch, accept.value, req.now)) else None
    case _ => None
  }

  /** Serves any file that exists; the given name is joined to the files directory as it is. */
  function ReadFile(host: Host, disk: Disk, fileId: string): HttpReply {
    match host.locate(fileId)
    case InFiles(name) => if name in disk.files then Content(disk.files[name]) else NotFound
    case Journal => LogShown(disk.journal)
    case Elsewhere(path) => if path in host.elsewhere then Content(host.elsewhere[path]) else NotFound
  }

  function ShowView(view: Result<Option<OperationResponse>, ApiError>): HttpReply {
    match view
    case Err(error) => Failed(error)
    case Ok(shown) => OperationShown(shown)
  }

  /** The address row is expected to be there. */
  function ShowAddresses(db: Db): HttpReply {
    if db.nextAddress.None? then Failed(Panic)
    else Addresses(R.CurrentIndex(db, true), R.CurrentIndex(db, false))
  }

  function ShowTransfer(cfg: Config, db: Db, batch: int): HttpReply {
    match GetTransferStatus(db, batch)
    case None => Transfer(None)
    case Some(row) => Transfer(Some(InfoOf(cfg, row)))
  }

  const OTHER_ROUTES: set<string> := {"/bumpaddressindices", "/getoperationbyidx", "/getfile", "/transferstatus"}

  /** The reply of a handler that writes nothing. */
  function Answered(cfg: Config, host: Host, disk: Disk, user: User, req: HttpRequest): HttpReply {
    if req.path in COSIGNER_ROUTES && user.WatchOnly? then Failed(Forbidden)
    else if req.path == "/getlastprocessedopidx" then LastProcessed(GetLastProcessedOpIdx(disk.db, user.idx))
    else if req.path == "/getcurrentaddressindices" then ShowAddresses(disk.db)
    else if req.path == "/info" then Info(GetLastOperationIdx(disk.db), user)
    else if req.path == "/getoperationbyidx" && req.body.OperationBody? then
      ShowView(View(cfg, disk.db, disk.db, disk.db, disk.files, req.body.operationIdx,
                    if user.Cosigner? then Some(user.idx) else None))
    else if req.path == "/getfile" && req.body.FileBody? then ReadFile(host, disk, req.body.fileId)
    else if req.path == "/transferstatus" && req.body.TransferBody? then
      if req.body.accept.None? then ShowTransfer(cfg, disk.db, req.body.batch) else Failed(Forbidden)
    else if req.path in COSIGNER_ROUTES + OTHER_ROUTES then Failed(InvalidRequest)
    else NotFound
  }

  function Replied(cfg: Config, after: Disk, call: Call, reply: Reply): HttpReply {
    match reply
    case Refused(error) => Failed(error)
    case Responded(idx) =>
      ShowView(View(cfg, after.db, after.db, after.db, after.files, idx, Some(Caller(call))))
    case TransferSet(row) => Transfer(Some(InfoOf(cfg, row)))
    case _ => Written(reply)
  }

  function Handle(cfg: Config, host: Host, disk: Disk, user: User, req: HttpRequest): (Disk, HttpReply) {
    match CallOf(user, req)
    case None => (disk, Answered(cfg, host, disk, user, req))
    case Some(call) =>
      var (after, reply) := Execute(cfg, disk, call);
      (after, Replied(cfg, after, call, reply))
  }

  /** The whole service: authenticate, write the log line, apply the allow-list, handle. */
  function Serve(cfg: Config, byXpub: map<string, int>, host: Host, disk: Disk, req: HttpRequest): (Disk, HttpReply) {
    match Authenticate(byXpub, req.claims)
    case None => (disk, Failed(Unauthorized))
    case Some(user) =>
      var noted := disk.(journal := disk.journal + [LogLine(user, req.path)]);
      if user.WatchOnly? && !IsWatchOnlyAllowed(req.path) then (noted, Failed(Forbidden))
      else Handle(cfg, host, noted, user, req)
  }

  function ServeAll(cfg: Config, byXpub: map<string, int>, host: Host, disk: Disk, reqs: seq<HttpRequest>): Disk
    decreases |reqs|
  {
    if reqs == [] then disk
    else ServeAll(cfg, byXpub, host, Serve(cfg, byXpub, host, disk, reqs[0]).0, reqs[1..])
  }

  predicate FromCosigner(byXpub: map<string, int>, req: HttpRequest) {
    var user := Authenticate(byXpub, req.claims);
    user.Some? && user.value.Cosigner?
  }

  /** The run without the requests of anyone but cosigners. */
  function CosignersOnly(byXpub: map<string, int>, reqs: seq<HttpRequest>): seq<HttpRequest> {
    if reqs == [] then []
    else (if FromCosigner(byXpub, reqs[0]) then [reqs[0]] else []) + CosignersOnly(byXpub, reqs[1..])
  }

  /** What the cosigners are told during a run. */
  function CosignerReplies(
    cfg: Config, byXpub: map<string, int>, host: Host, disk: Disk, reqs: seq<HttpRequest>): seq<HttpReply>
    decreases |reqs|
  {
    if reqs == [] then []
    else
      var (after, reply) := Serve(cfg, byXpub, host, disk, reqs[0]);
      (if FromCosigner(byXpub, reqs[0]) then [reply] else []) + CosignerReplies(cfg, byXpub, host, after, reqs[1..])
  }

  // ----- watch-only users change nothing but the log -----

  /** Past authentication, the only handler a watch-only user could change anything through
      is the address bump. */
  lemma OnlyBumpIsOpen(cfg: Config, host: Host, disk: Disk, req: HttpRequest)
    requires req.path != "/bumpaddressindices"
    ensures Handle(cfg, host, disk, WatchOnly, req).0 == disk
  {
  }

  lemma AllowListExcludesBump()
    ensures !IsWatchOnlyAllowed("/bumpaddressindices")
  {
    var path := "/bumpaddressindices";
    forall i | 0 <= i < |WATCH_ONLY_ALLOWED_ROUTES| ensures WATCH_ONLY_ALLOWED_ROUTES[i] != path {
      assert |WATCH_ONLY_ALLOWED_ROUTES[i]| != |path|;
    }
  }

  predicate SameTables(a: Disk, b: Disk) {
    a.db == b.db && a.files == b.files
  }

  /** A request of anyone but a cosigner leaves tables and files as they are, and adds one
      line to the log if it is a watch-only user's. */
  lemma OutsidersOnlyLog(cfg: Config, byXpub: map<string, int>, host: Host, disk: Disk, req: HttpRequest)
    requires !FromCosigner(byXpub, req)
    ensures var after := Serve(cfg, byXpub, host, disk, req).0;
            && SameTables(after, disk)
            && after.journal ==
                 disk.journal + if Authenticate(byXpub, req.claims).Some? then [LogLine(WatchOnly, req.path)] else []
  {
    AllowListExcludesBump();
    if Authenticate(byXpub, req.claims).Some? && IsWatchOnlyAllowed(req.path) {
      hide Handle, IsWatchOnlyAllowed;
      OnlyBumpIsOpen(cfg, host, disk.(journal := disk.journal + [LogLine(WatchOnly, req.path)]), req);
    }
  }

  /** The request asks for the log file. */
  predicate ReadsJournal(host: Host, req: HttpRequest) {
    req.path == "/getfile" && req.body.FileBody? && host.locate(req.body.fileId) == Journal
  }

  lemma ExecuteOnTables(cfg: Config, a: Disk, b: Disk, call: Call)
    requires SameTables(a, b)
    ensures Execute(cfg, a, call).1 == Execute(cfg, b, call).1
    ensures SameTables(Execute(cfg, a, call).0, Execute(cfg, b, call).0)
    ensures Execute(cfg, a, call).0.journal == a.journal && Execute(cfg, b, call).0.journal == b.journal
  {
    hide Exec, Next, Observe, PersistAll;
  }

  lemma AnsweredOnTables(cfg: Config, host: Host, a: Disk, b: Disk, user: User, req: HttpRequest)
    requires SameTables(a, b) && user.Cosigner?
    ensures Answered(cfg, host, a, user, req) == Answered(cfg, host, b, user, req)
            <==> !ReadsJournal(host, req) || a.journal == b.journal
  {
    hide View, ShowAddresses, ShowTransfer, GetLastProcessedOpIdx, GetLastOperationIdx;
    assert |"/getfile"| == 8 && |"/getlastprocessedopidx"| == 22 && |"/getcurrentaddressindices"| == 25;
    assert |"/info"| == 5 && |"/getoperationbyidx"| == 18;
  }

  lemma HandleOnTables(cfg: Config, host: Host, a: Disk, b: Disk, user: User, req: HttpRequest)
    requires SameTables(a, b) && user.Cosigner?
    ensures SameTables(Handle(cfg, host, a, user, req).0, Handle(cfg, host, b, user, req).0)
    ensures Handle(cfg, host, a, user, req).0.journal == a.journal
    ensures Handle(cfg, host, b, user, req).0.journal == b.journal
    ensures Handle(cfg, host, a, user, req).1 == Handle(cfg, host, b, user, req).1
            <==> !ReadsJournal(host, req) || a.journal == b.journal
  {
    hide Execute, Answered, View;
    if CallOf(user, req).Some? {
      ExecuteOnTables(cfg, a, b, CallOf(user, req).value);
      assert !ReadsJournal(host, req);
    } else {
      AnsweredOnTables(cfg, host, a, b, user, req);
    }
  }

  /** What a cosigner's request does and is told depends on the tables and files alone,
      unless it reads the log file; then it is told the log. */
  lemma ServeOnTables(cfg: Config, byXpub: map<string, int>, host: Host, a: Disk, b: Disk, req: HttpRequest)
    requires SameTables(a, b) && FromCosigner(byXpub, req)
    ensures var (afterA, replyA), (afterB, replyB) :=
              Serve(cfg, byXpub, host, a, req), Serve(cfg, byXpub, host, b, req);
            && SameTables(afterA, afterB)
            && |afterA.journal| == |a.journal| + 1 && |afterB.journal| == |b.journal| + 1
            && (a.journal == b.journal ==> afterA.journal == afterB.journal)
            && (replyA == replyB <==> !ReadsJournal(host, req) || a.journal == b.journal)
  {
    hide Handle, ReadsJournal, IsWatchOnlyAllowed;
    var line := LogLine(Authenticate(byXpub, req.claims).value, req.path);
    var notedA, notedB := a.(journal := a.journal + [line]), b.(journal := b.journal + [line]);
    HandleOnTables(cfg, host, notedA, notedB, Authenticate(byXpub, req.claims).value, req);
    assert notedA.journal[..|a.journal|] == a.journal && notedB.journal[..|b.journal|] == b.journal;
  }

  /** Some cosigner reads the log file after a watch-only user was let in; `ahead` tells
      whether one has been let in before the run. */
  predicate Peeks(byXpub: map<string, int>, host: Host, ahead: bool, reqs: seq<HttpRequest>)
    decreases |reqs|
  {
    reqs != [] &&
    var req := reqs[0];
    if FromCosigner(byXpub, req) then (ahead && ReadsJournal(host, req)) || Peeks(byXpub, host, ahead, reqs[1..])
    else Peeks(byXpub, host, ahead || Authenticate(byXpub, req.claims).Some?, reqs[1..])
  }

  /** The full run may be ahead of the filtered one, in the log and nowhere else. */
  predicate Ahead(full: Disk, filtered: Disk, ahead: bool) {
    && SameTables(full, filtered)
    && (if ahead then |full.journal| > |filtered.journal| else full.journal == filtered.journal)
  }

  lemma {:induction false} InvisibleIff(
    cfg: Config, byXpub: map<string, int>, host: Host, full: Disk, filtered: Disk, ahead: bool, reqs: seq<HttpRequest>)
    requires Ahead(full, filtered, ahead)
    ensures SameTables(ServeAll(cfg, byXpub, host, filtered, CosignersOnly(byXpub, reqs)),
                       ServeAll(cfg, byXpub, host, full, reqs))
    ensures (CosignerReplies(cfg, byXpub, host, filtered, CosignersOnly(byXpub, reqs))
             == CosignerReplies(cfg, byXpub, host, full, reqs))
            <==> !Peeks(byXpub, host, ahead, reqs)
    decreases |reqs|
  {
    hide Serve, FromCosigner, ReadsJournal, Authenticate;
    if reqs != [] {
      var req, rest := reqs[0], CosignersOnly(byXpub, reqs[1..]);
      var (fullAfter, fullReply) := Serve(cfg, byXpub, host, full, req);
      if FromCosigner(byXpub, req) {
        var (after, reply) := Serve(cfg, byXpub, host, filtered, req);
        ServeOnTables(cfg, byXpub, host, full, filtered, req);
        InvisibleIff(cfg, byXpub, host, fullAfter, after, ahead, reqs[1..]);
        assert CosignersOnly(byXpub, reqs) == [req] + rest;
        assert ([req] + rest)[1..] == rest;
        SameHeads(reply, CosignerReplies(cfg, byXpub, host, after, rest),
                  fullReply, CosignerReplies(cfg, byXpub, host, fullAfter, reqs[1..]));
      } else {
        OutsidersOnlyLog(cfg, byXpub, host, full, req);
        InvisibleIff(cfg, byXpub, host, fullAfter, filtered,
                     ahead || Authenticate(byXpub, req.claims).Some?, reqs[1..]);
        assert CosignersOnly(byXpub, reqs) == rest;
        assert [] + CosignerReplies(cfg, byXpub, host, fullAfter, reqs[1..])
            == CosignerReplies(cfg, byXpub, host, fullAfter, reqs[1..]);
      }
    }
  }

  lemma SameHeads(a: HttpReply, restA: seq<HttpReply>, b: HttpReply, restB: seq<HttpReply>)
    ensures [a] + restA == [b] + restB <==> a == b && restA == restB
  {
    if [a] + restA == [b] + restB {
      assert ([a] + restA)[0] == a && ([a] + restA)[1..] == restA;
      assert ([b] + restB)[0] == b && ([b] + restB)[1..] == restB;
    }
  }

  /** Deleting every watch-only request from a run, and every unauthenticated one, leaves the
      same tables and files in the end; it leaves the same replies to all the cosigners'
      requests iff no cosigner reads the log file after a watch-only user was let in. */
  lemma WatchOnlyIsInvisible(
    cfg: Config, byXpub: map<string, int>, host: Host, disk: Disk, reqs: seq<HttpRequest>)
    ensures SameTables(ServeAll(cfg, byXpub, host, disk, CosignersOnly(byXpub, reqs)),
                       ServeAll(cfg, byXpub, host, disk, reqs))
    ensures (CosignerReplies(cfg, byXpub, host, disk, CosignersOnly(byXpub, reqs))
             == CosignerReplies(cfg, byXpub, host, disk, reqs))
            <==> !Peeks(byXpub, host, false, reqs)
  {
    InvisibleIff(cfg, byXpub, host, disk, disk, false, reqs);
  }

  /** A file id that names an entry of the files directory itself. */
  predicate PlainName(path: string) {
    path != "" && path != "." && path != ".." && '/' !in path
  }

  ghost predicate PlainNamesStay(host: Host) {
    forall path | PlainName(path) :: host.locate(path) == InFiles(path)
  }

  /** Every file id in a cosigner's request is a plain name. */
  ghost predicate AsksForPlainNames(byXpub: map<string, int>, reqs: seq<HttpRequest>) {
    forall i | 0 <= i < |reqs| && FromCosigner(byXpub, reqs[i]) && reqs[i].body.FileBody? ::
      PlainName(reqs[i].body.fileId)
  }

  lemma {:induction false} PlainNamesDoNotPeek(
    byXpub: map<string, int>, host: Host, ahead: bool, reqs: seq<HttpRequest>)
    requires PlainNamesStay(host) && AsksForPlainNames(byXpub, reqs)
    ensures !Peeks(byXpub, host, ahead, reqs)
    decreases |reqs|
  {
    hide PlainName, FromCosigner, Authenticate;
    if reqs != [] {
      assert AsksForPlainNames(byXpub, reqs[1..]);
      PlainNamesDoNotPeek(byXpub, host, ahead, reqs[1..]);
      PlainNamesDoNotPeek(byXpub, host, ahead || Authenticate(byXpub, reqs[0].claims).Some?, reqs[1..]);
    }
  }

  /** With plain file names, watch-only requests are invisible to the cosigners. */
  lemma InvisibleToPlainNames(
    cfg: Config, byXpub: map<string, int>, host: Host, disk: Disk, reqs: seq<HttpRequest>)
    requires PlainNamesStay(host) && AsksForPlainNames(byXpub, reqs)
    ensures CosignerReplies(cfg, byXpub, host, disk, CosignersOnly(byXpub, reqs))
         == CosignerReplies(cfg, byXpub, host, disk, reqs)
  {
    WatchOnlyIsInvisible(cfg, byXpub, host, disk, reqs);
    PlainNamesDoNotPeek(byXpub, host, false, reqs);
  }

  /** Without them they need not be: one watch-only request, and a cosigner's request for a
      path that leads to the log file, which shows it. */
  lemma LogShowsWatchOnly(
    cfg: Config, byXpub: map<string, int>, host: Host, disk: Disk, xpub: string, path: string, now: int, keys: seq<int>)
    requires xpub in byXpub && host.locate(path) == Journal
    ensures var reqs := [
              HttpRequest(Some(Claims("watch-only", None)), "/info", Empty, now, keys),
              HttpRequest(Some(Claims("cosigner", Some(xpub))), "/getfile", FileBody(path), now, keys)];
            CosignerReplies(cfg, byXpub, host, disk, CosignersOnly(byXpub, reqs))
              != CosignerReplies(cfg, byXpub, host, disk, reqs)
  {
    var first := HttpRequest(Some(Claims("watch-only", None)), "/info", Empty, now, keys);
    var second := HttpRequest(Some(Claims("cosigner", Some(xpub))), "/getfile", FileBody(path), now, keys);
    var reqs := [first, second];
    assert |"cosigner"| == 8 && |"watch-only"| == 10;
    assert Authenticate(byXpub, first.claims) == Some(WatchOnly);
    assert FromCosigner(byXpub, second) && ReadsJournal(host, second);
    assert reqs[1..] == [second];
    assert Peeks(byXpub, host, true, [second]);
    assert Peeks(byXpub, host, false, reqs);
    hide *;
    WatchOnlyIsInvisible(cfg, byXpub, host, disk, reqs);
  }

  // ----- whoever asks for whatever -----

  /** Authentication's map inverts the cosigner map, as the startup builds them. */
  ghost predicate Inverse(cfg: Config, byXpub: map<string, int>) {
    forall x | x in byXpub :: byXpub[x] in cfg.xpubs && cfg.xpubs[byXpub[x]] == x
  }

  /** Valid tables whose files are all there. */
  ghost predicate Healthy(cfg: Config, disk: Disk) {
    S.Valid(cfg, disk.db) && Integrity(cfg, disk.files) && Stored(disk.files, disk.db.opFiles)
  }

  lemma {:induction false} ScriptKeepsFiles(cfg: Config, files: map<FileId, Bytes>, txn: Txn, script: seq<Write>)
    requires Integrity(cfg, files) && Stored(files, txn.db.opFiles) && L.Backed(cfg, files.Keys, script)
    ensures Integrity(cfg, PersistAll(cfg, files, script)) && FilesGrow(files, PersistAll(cfg, files, script))
    ensures StageAll(cfg, txn, script).Some? ==>
              Stored(PersistAll(cfg, files, script), StageAll(cfg, txn, script).value.db.opFiles)
    decreases |script|
  {
    hide Integrity, Stored, Stage, Persist;
    if script != [] {
      var next := Persist(cfg, files, script[0]);
      PersistGrows(cfg, files, script[0]);
      if Stage(cfg, txn, script[0]).Some? {
        L.WriteKeepsBacking(cfg, files, txn, script);
        ScriptKeepsFiles(cfg, next, Stage(cfg, txn, script[0]).value, script[1..]);
        FilesGrowTransitive(files, next, PersistAll(cfg, next, script[1..]));
      } else {
        PersistAllGrows(cfg, next, script[1..]);
        FilesGrowTransitive(files, next, PersistAll(cfg, next, script[1..]));
      }
    } else {
      assert FilesGrow(files, files);
    }
  }

  lemma {:induction false} PersistAllGrows(cfg: Config, files: map<FileId, Bytes>, script: seq<Write>)
    requires Integrity(cfg, files)
    ensures Integrity(cfg, PersistAll(cfg, files, script)) && FilesGrow(files, PersistAll(cfg, files, script))
    decreases |script|
  {
    if script != [] {
      PersistGrows(cfg, files, script[0]);
      PersistAllGrows(cfg, Persist(cfg, files, script[0]), script[1..]);
    }
  }

  lemma ExecuteKeepsHealthy(cfg: Config, disk: Disk, call: Call)
    requires Healthy(cfg, disk) && WellFormed(cfg, call)
    ensures Healthy(cfg, Execute(cfg, disk, call).0)
    ensures Execute(cfg, disk, call).1 == Refused(Panic) <==> PanicsOn(disk.db, call)
    ensures Execute(cfg, disk, call).1.Responded? ==>
              G.Reaches(cfg, disk.db, Execute(cfg, disk, call).0.db)
  {
    hide S.Valid, Next, Observe, WellFormed, Integrity, Stored, PanicsOn, PersistAll, StageAll, Refinement.Refines,
         G.Reaches;
    Refinement.ExecRefines(cfg, disk.db, call);
    RefinesPanics(cfg, disk.db, call);
    G.ReachesByOne(cfg, disk.db, call);
    var plan := Next(cfg, call, Observe(disk.db, call));
    if plan.Commit? {
      L.PlanBacked(cfg, call, Observe(disk.db, call), disk.files.Keys);
      ScriptKeepsFiles(cfg, disk.files, Begin(disk.db, call, plan.reply), plan.script);
      StillStored(disk.files, PersistAll(cfg, disk.files, plan.script), disk.db.opFiles);
    }
  }

  lemma RefinesPanics(cfg: Config, db: Db, call: Call)
    requires Refinement.Refines(cfg, db, call)
    ensures Exec(cfg, db, call).1 == Refused(Panic) <==> PanicsOn(db, call)
  {
    hide Exec, PanicsOn;
  }

  /** A write that gets past authentication comes from a configured cosigner, or is a bump. */
  lemma CallWellFormed(cfg: Config, byXpub: map<string, int>, req: HttpRequest, user: User)
    requires Inverse(cfg, byXpub) && Enumerates(req.keys, cfg.Cosigners())
    requires Authenticate(byXpub, req.claims) == Some(user) && CallOf(user, req).Some?
    ensures WellFormed(cfg, CallOf(user, req).value)
  {
    hide Enumerates;
    if user.Cosigner? {
      assert user.xpub in byXpub;
    }
  }

  /** On a healthy disk no lookup of a reading handler misses. */
  lemma AnswersNeverPanic(cfg: Config, host: Host, disk: Disk, user: User, req: HttpRequest)
    requires Healthy(cfg, disk)
    ensures Answered(cfg, host, disk, user, req) != Failed(Panic)
  {
    S.AddressKnown(cfg, disk.db);
    hide View, S.Valid, Integrity, Stored;
    if req.path == "/getoperationbyidx" && req.body.OperationBody? {
      ViewNeverFails(cfg, disk, req.body.operationIdx, if user.Cosigner? then Some(user.idx) else None);
    }
  }

  lemma ViewNeverFails(cfg: Config, disk: Disk, idx: int, viewer: Option<int>)
    requires Healthy(cfg, disk)
    ensures View(cfg, disk.db, disk.db, disk.db, disk.files, idx, viewer).Ok?
  {
    hide View, S.Valid, Integrity, Stored, G.Reaches;
    G.ReachesReflexive(cfg, disk.db);
    ViewSucceeds(cfg, disk.db, disk.db, disk.db, disk.files, idx, viewer);
  }

  lemma RepliesNeverPanic(cfg: Config, after: Disk, call: Call, reply: Reply)
    requires Healthy(cfg, after)
    ensures Replied(cfg, after, call, reply) == Failed(Panic) <==> reply == Refused(Panic)
  {
    hide View, Healthy;
    if reply.Responded? {
      ViewNeverFails(cfg, after, reply.idx, Some(Caller(call)));
    }
  }

  /** The request is a post that is let through to its form, and panics there. */
  predicate EmptyTypePosted(byXpub: map<string, int>, disk: Disk, req: HttpRequest) {
    var user := Authenticate(byXpub, req.claims);
    user.Some? && CallOf(user.value, req).Some? && PanicsOn(disk.db, CallOf(user.value, req).value)
  }

  lemma HandleKeepsHealthy(cfg: Config, host: Host, disk: Disk, user: User, req: HttpRequest)
    requires Healthy(cfg, disk) && (CallOf(user, req).Some? ==> WellFormed(cfg, CallOf(user, req).value))
    ensures Healthy(cfg, Handle(cfg, host, disk, user, req).0)
    ensures Handle(cfg, host, disk, user, req).1 == Failed(Panic) <==>
            CallOf(user, req).Some? && PanicsOn(disk.db, CallOf(user, req).value)
  {
    hide Healthy, CallOf, WellFormed, PanicsOn, Execute, Answered, Replied;
    if CallOf(user, req).Some? {
      var call := CallOf(user, req).value;
      ExecuteKeepsHealthy(cfg, disk, call);
      RepliesNeverPanic(cfg, Execute(cfg, disk, call).0, call, Execute(cfg, disk, call).1);
    } else {
      AnswersNeverPanic(cfg, host, disk, user, req);
    }
  }

  /** Whoever asks for whatever: the tables stay valid and the files complete; behind the
      authentication only configured cosigners reach the writing handlers; and the only
      requests that panic are cosigners' posts, allowed at that moment, whose form has an
      empty type part that is reached. */
  lemma ServeKeepsHealthy(cfg: Config, byXpub: map<string, int>, host: Host, disk: Disk, req: HttpRequest)
    requires Healthy(cfg, disk) && Inverse(cfg, byXpub) && Enumerates(req.keys, cfg.Cosigners())
    ensures Healthy(cfg, Serve(cfg, byXpub, host, disk, req).0)
    ensures Serve(cfg, byXpub, host, disk, req).1 == Failed(Panic) <==> EmptyTypePosted(byXpub, disk, req)
  {
    hide S.Valid, Integrity, Stored, CallOf, WellFormed, PanicsOn, Handle, IsWatchOnlyAllowed, Inverse, Enumerates;
    var user := Authenticate(byXpub, req.claims);
    if user.Some? {
      if CallOf(user.value, req).Some? {
        CallWellFormed(cfg, byXpub, req, user.value);
      }
      var noted := disk.(journal := disk.journal + [LogLine(user.value, req.path)]);
      HandleKeepsHealthy(cfg, host, noted, user.value, req);
      if user.value.WatchOnly? && CallOf(user.value, req).Some? {
        WatchOnlyDoesNotPost(user.value, req, disk.db);
      }
    }
  }

  lemma WatchOnlyDoesNotPost(user: User, req: HttpRequest, db: Db)
    requires user.WatchOnly? && CallOf(user, req).Some?
    ensures !PanicsOn(db, CallOf(user, req).value)
  {
  }
}
