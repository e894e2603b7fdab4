/** The handlers as they really run: many tasks, one write lock, reads of the committed
    tables, a staged transaction, files written outside it, and failure at any point. */
module Locking {
  import opened HubTypes
  import opened Forms
  import opened Tables
  import opened Requests
  import opened Scans
  import opened Refinement
  import opened FileStore
  import opened Ledger
  import A = Approval

  /** Where a request task is. `Done` still holds the lock. */
  datatype Pc =
    | Waiting
    | Checking(seen: Seen)
    | Staging(txn: Txn, todo: seq<Write>)
    | Done

  datatype Task = Task(call: Call, pc: Pc)

  /** A request that took effect, or was refused, and what it replied. */
  datatype Event = Event(id: int, call: Call, reply: Reply)

  datatype System = System(
    db: Db,                        // the committed tables
    files: map<FileId, Bytes>,     // the files directory
    lock: Option<int>,             // the task holding the write lock
    tasks: map<int, Task>,
    log: seq<Event>,               // in the order the replies were determined
    started: set<int>,             // the requests that have arrived
    released: set<int>)            // the requests that ran to their end

  datatype Label =
    | Spawn(call: Call)   // a request arrives
    | Acquire             // the task gets the lock
    | Ask                 // one read of the committed tables
    | Conclude            // the checks refuse the request, or open a transaction
    | Write               // one staged write, or one file persisted
    | Commit              // the transaction becomes visible
    | Release             // the lock is dropped
    | Abort               // the task dies, and with it its lock and its transaction

  function MoveTo(s: System, id: int, pc: Pc): System
    requires id in s.tasks
  {
    s.(tasks := s.tasks[id := s.tasks[id].(pc := pc)])
  }

  function Settle(s: System, id: int, reply: Reply): System
    requires id in s.tasks
  {
    MoveTo(s, id, Done).(log := s.log + [Event(id, s.tasks[id].call, reply)])
  }

  ghost predicate Enabled(cfg: Config, s: System, id: int, act: Label) {
    match act
    case Spawn(call) => id !in s.tasks && id !in s.started && WellFormed(cfg, call)
    case Acquire => id in s.tasks && s.tasks[id].pc.Waiting? && s.lock.None?
    case Ask => id in s.tasks && s.tasks[id].pc.Checking? && Next(cfg, s.tasks[id].call, s.tasks[id].pc.seen).Read?
    case Conclude =>
      id in s.tasks && s.tasks[id].pc.Checking? && !Next(cfg, s.tasks[id].call, s.tasks[id].pc.seen).Read?
    case Write => id in s.tasks && s.tasks[id].pc.Staging? && s.tasks[id].pc.todo != []
    case Commit => id in s.tasks && s.tasks[id].pc.Staging? && s.tasks[id].pc.todo == []
    case Release => id in s.tasks && s.tasks[id].pc.Done?
    case Abort => id in s.tasks
  }

  function Move(cfg: Config, s: System, id: int, act: Label): System
    requires Enabled(cfg, s, id, act)
  {
    match act
    case Spawn(call) => s.(tasks := s.tasks[id := Task(call, Waiting)], started := s.started + {id})
    case Acquire => MoveTo(s, id, Checking(NOTHING_SEEN)).(lock := Some(id))
    case Ask =>
      var task := s.tasks[id];
      var query := Next(cfg, task.call, task.pc.seen).query;
      MoveTo(s, id, Checking(Answer(s.db, task.call, query, task.pc.seen)))
    case Conclude =>
      var task := s.tasks[id];
      (match Next(cfg, task.call, task.pc.seen)
       case Read(_) => s
       case Refuse(error) => Settle(s, id, Refused(error))
       case Commit(script, reply) => MoveTo(s, id, Staging(Begin(s.db, task.call, reply), script)))
    case Write =>
      var pc := s.tasks[id].pc;
      (match Stage(cfg, pc.txn, pc.todo[0])
       case None => Settle(s, id, Refused(Panic))
       case Some(next) => MoveTo(s, id, Staging(next, pc.todo[1..])).(files := Persist(cfg, s.files, pc.todo[0])))
    case Commit =>
      var txn := s.tasks[id].pc.txn;
      Settle(s, id, txn.reply).(db := txn.db)
    case Release => s.(tasks := s.tasks - {id}, lock := None, released := s.released + {id})
    case Abort => s.(tasks := s.tasks - {id}, lock := if s.lock == Some(id) then None else s.lock)
  }

  // ----- the invariant -----

  function Calls(log: seq<Event>): seq<Call> {
    seq(|log|, i requires 0 <= i < |log| => log[i].call)
  }

  function Outcomes(log: seq<Event>): seq<Reply> {
    seq(|log|, i requires 0 <= i < |log| => log[i].reply)
  }

  /** The logged requests, executed one at a time in log order, give the logged replies
      and the committed tables. */
  ghost predicate Linearized(cfg: Config, db0: Db, log: seq<Event>, db: Db) {
    && ExecAll(cfg, db0, Calls(log)) == db
    && Replies(cfg, db0, Calls(log)) == Outcomes(log)
    && forall i | 0 <= i < |log| :: WellFormed(cfg, log[i].call)
  }

  /** Every answer received is still true of the committed tables. */
  ghost predicate UpToDate(db: Db, call: Call, seen: Seen) {
    var all := Observe(db, call);
    && (seen.pending.Some? ==> seen.pending == all.pending)
    && (seen.unprocessed.Some? ==> seen.unprocessed == all.unprocessed)
    && (seen.operation.Some? ==> seen.operation == all.operation)
    && (seen.entry.Some? ==> seen.entry == all.entry)
    && (seen.lastProcessed.Some? ==> seen.lastProcessed == all.lastProcessed)
    && (seen.nextAddress.Some? ==> seen.nextAddress == all.nextAddress)
    && (seen.transfer.Some? ==> seen.transfer == all.transfer)
  }

  /** A task that holds the lock is on its way to the result of an uninterrupted run. */
  ghost predicate OnTrack(cfg: Config, db: Db, task: Task) {
    match task.pc
    case Waiting => true
    case Checking(seen) => UpToDate(db, task.call, seen)
    case Staging(txn, todo) => Finish(cfg, db, txn, todo) == Exec(cfg, db, task.call)
    case Done => true
  }

  ghost predicate LockHeld(s: System) {
    && (s.lock.Some? ==> s.lock.value in s.tasks && !s.tasks[s.lock.value].pc.Waiting?)
    && forall id | id in s.tasks && !s.tasks[id].pc.Waiting? :: s.lock == Some(id)
  }

  ghost predicate Consistent(cfg: Config, db0: Db, s: System) {
    && LockHeld(s)
    && (forall id | id in s.tasks :: WellFormed(cfg, s.tasks[id].call) && OnTrack(cfg, s.db, s.tasks[id]))
    && Linearized(cfg, db0, s.log, s.db)
  }

  lemma LogSplit(log: seq<Event>, e: Event)
    ensures Calls(log + [e]) == Calls(log) + [e.call] && Outcomes(log + [e]) == Outcomes(log) + [e.reply]
  {
  }

  lemma LogExtended(cfg: Config, db0: Db, log: seq<Event>, db: Db, id: int, call: Call, after: Db, reply: Reply)
    requires Linearized(cfg, db0, log, db) && WellFormed(cfg, call) && Exec(cfg, db, call) == (after, reply)
    ensures Linearized(cfg, db0, log + [Event(id, call, reply)], after)
  {
    hide Exec, ExecAll, Replies, WellFormed, Calls, Outcomes;
    OneMoreExec(cfg, db0, Calls(log), call);
    OneMoreReply(cfg, db0, Calls(log), call);
    LogSplit(log, Event(id, call, reply));
  }

  /** `all` holds every answer, and `seen` some of them. */
  ghost predicate PartOf(seen: Seen, all: Seen) {
    && (all.pending.Some? && (seen.pending.Some? ==> seen.pending == all.pending))
    && (all.unprocessed.Some? && (seen.unprocessed.Some? ==> seen.unprocessed == all.unprocessed))
    && (all.operation.Some? && (seen.operation.Some? ==> seen.operation == all.operation))
    && (all.entry.Some? && (seen.entry.Some? ==> seen.entry == all.entry))
    && (all.lastProcessed.Some? && (seen.lastProcessed.Some? ==> seen.lastProcessed == all.lastProcessed))
    && (all.nextAddress.Some? && (seen.nextAddress.Some? ==> seen.nextAddress == all.nextAddress))
    && (all.transfer.Some? && (seen.transfer.Some? ==> seen.transfer == all.transfer))
  }

  lemma PostFromPart(cfg: Config, c: int, parts: seq<Part>, now: int, keys: seq<int>, seen: Seen, all: Seen)
    requires PartOf(seen, all) && !PlanPost(cfg, c, parts, now, keys, seen).Read?
    ensures PlanPost(cfg, c, parts, now, keys, all) == PlanPost(cfg, c, parts, now, keys, seen)
  {
    hide ParsePost, PostScript, SeedFits;
  }

  lemma RespondFromPart(cfg: Config, form: RespondForm, now: int, seen: Seen, all: Seen)
    requires PartOf(seen, all) && !PlanRespond(cfg, form, now, seen).Read?
    ensures PlanRespond(cfg, form, now, all) == PlanRespond(cfg, form, now, seen)
  {
    hide RespondScript;
  }

  lemma OthersFromPart(cfg: Config, call: Call, seen: Seen, all: Seen)
    requires PartOf(seen, all) && !call.PostOperation? && !call.RespondToOperation?
    requires !Next(cfg, call, seen).Read?
    ensures Next(cfg, call, all) == Next(cfg, call, seen)
  {
    hide PlanPost, PlanRespond;
  }

  /** Answers received one at a time lead to the plan all answers together lead to. */
  lemma PlanFromAnswers(cfg: Config, db: Db, call: Call, seen: Seen)
    requires UpToDate(db, call, seen) && !Next(cfg, call, seen).Read?
    ensures Next(cfg, call, Observe(db, call)) == Next(cfg, call, seen)
  {
    AnswersArePart(db, call, seen);
    hide PlanPost, PlanRespond, PlanMark, PlanBump, PlanTransfer, Observe, UpToDate, PartOf;
    match call
    case PostOperation(c, parts, now, keys) => PostFromPart(cfg, c, parts, now, keys, seen, Observe(db, call));
    case RespondToOperation(_, form, now) => RespondFromPart(cfg, form, now, seen, Observe(db, call));
    case _ => OthersFromPart(cfg, call, seen, Observe(db, call));
  }

  lemma AnswersArePart(db: Db, call: Call, seen: Seen)
    requires UpToDate(db, call, seen)
    ensures PartOf(seen, Observe(db, call))
  {
    hide HasPendingOperation, HasUnprocessedOperation, GetOperationByIdx, GetEntry, GetLastProcessedOpIdx,
         GetTransferStatus;
  }

  lemma MoveKeepsLock(cfg: Config, s: System, id: int, act: Label)
    requires LockHeld(s) && Enabled(cfg, s, id, act)
    ensures LockHeld(Move(cfg, s, id, act))
  {
  }

  /** What the moving task's step means for the tables, the log and the task itself. */
  ghost predicate GoodMove(cfg: Config, db0: Db, s: System, id: int, t: System) {
    && Linearized(cfg, db0, t.log, t.db)
    && (id in t.tasks ==> WellFormed(cfg, t.tasks[id].call) && OnTrack(cfg, t.db, t.tasks[id]))
    && (t.db != s.db ==> s.lock == Some(id))
  }

  lemma AnswerUpToDate(db: Db, call: Call, query: Query, seen: Seen)
    requires UpToDate(db, call, seen)
    ensures UpToDate(db, call, Answer(db, call, query, seen))
  {
    hide HasPendingOperation, HasUnprocessedOperation, GetOperationByIdx, GetEntry, GetLastProcessedOpIdx,
         GetTransferStatus;
    match query
    case QPending =>
    case QUnprocessed =>
    case QOperation =>
    case QEntry =>
    case QLastProcessed =>
    case QNextAddress =>
    case QTransfer =>
  }

  lemma AskIsGood(cfg: Config, db0: Db, s: System, id: int)
    requires Consistent(cfg, db0, s) && Enabled(cfg, s, id, Ask)
    ensures GoodMove(cfg, db0, s, id, Move(cfg, s, id, Ask))
  {
    var task := s.tasks[id];
    assert OnTrack(cfg, s.db, task);
    AnswerUpToDate(s.db, task.call, Next(cfg, task.call, task.pc.seen).query, task.pc.seen);
  }

  lemma ConcludeIsGood(cfg: Config, db0: Db, s: System, id: int)
    requires Consistent(cfg, db0, s) && Enabled(cfg, s, id, Conclude)
    ensures GoodMove(cfg, db0, s, id, Move(cfg, s, id, Conclude))
  {
    var task := s.tasks[id];
    assert OnTrack(cfg, s.db, task);
    var plan := Next(cfg, task.call, task.pc.seen);
    PlanFromAnswers(cfg, s.db, task.call, task.pc.seen);
    if plan.Refuse? {
      LogExtended(cfg, db0, s.log, s.db, id, task.call, s.db, Refused(plan.error));
    } else {
      assert Finish(cfg, s.db, Begin(s.db, task.call, plan.reply), plan.script) == Exec(cfg, s.db, task.call);
    }
  }

  lemma WriteIsGood(cfg: Config, db0: Db, s: System, id: int)
    requires Consistent(cfg, db0, s) && Enabled(cfg, s, id, Write)
    ensures GoodMove(cfg, db0, s, id, Move(cfg, s, id, Write))
  {
    var task := s.tasks[id];
    assert OnTrack(cfg, s.db, task);
    var next := Stage(cfg, task.pc.txn, task.pc.todo[0]);
    if next.None? {
      LogExtended(cfg, db0, s.log, s.db, id, task.call, s.db, Refused(Panic));
    } else {
      assert Finish(cfg, s.db, next.value, task.pc.todo[1..]) == Finish(cfg, s.db, task.pc.txn, task.pc.todo);
    }
  }

  lemma CommitIsGood(cfg: Config, db0: Db, s: System, id: int)
    requires Consistent(cfg, db0, s) && Enabled(cfg, s, id, Label.Commit)
    ensures GoodMove(cfg, db0, s, id, Move(cfg, s, id, Label.Commit))
  {
    var task := s.tasks[id];
    assert OnTrack(cfg, s.db, task);
    assert Finish(cfg, s.db, task.pc.txn, []) == (task.pc.txn.db, task.pc.txn.reply);
    LogExtended(cfg, db0, s.log, s.db, id, task.call, task.pc.txn.db, task.pc.txn.reply);
  }

  lemma MoveIsGood(cfg: Config, db0: Db, s: System, id: int, act: Label)
    requires Consistent(cfg, db0, s) && Enabled(cfg, s, id, act)
    ensures GoodMove(cfg, db0, s, id, Move(cfg, s, id, act))
  {
    match act
    case Spawn(_) =>
    case Acquire =>
    case Ask => AskIsGood(cfg, db0, s, id);
    case Conclude => ConcludeIsGood(cfg, db0, s, id);
    case Write => WriteIsGood(cfg, db0, s, id);
    case Commit => CommitIsGood(cfg, db0, s, id);
    case Release =>
    case Abort =>
  }

  lemma OthersStayOnTrack(cfg: Config, db0: Db, s: System, id: int, act: Label, other: int)
    requires Consistent(cfg, db0, s) && Enabled(cfg, s, id, act) && other in s.tasks && other != id
    requires Move(cfg, s, id, act).db != s.db ==> s.lock == Some(id)
    ensures var t := Move(cfg, s, id, act);
            && other in t.tasks && t.tasks[other] == s.tasks[other]
            && WellFormed(cfg, t.tasks[other].call) && OnTrack(cfg, t.db, t.tasks[other])
  {
    if Move(cfg, s, id, act).db != s.db {
      assert s.tasks[other].pc.Waiting?;
    }
  }

  /** Every step keeps the committed tables explained by the log, and the task that holds
      the lock on its way to the result of an uninterrupted run. */
  lemma MoveKeepsConsistent(cfg: Config, db0: Db, s: System, id: int, act: Label)
    requires Consistent(cfg, db0, s) && Enabled(cfg, s, id, act)
    ensures Consistent(cfg, db0, Move(cfg, s, id, act))
  {
    hide OnTrack, WellFormed, Linearized, Next, Answer, Stage, Begin, Persist;
    MoveKeepsLock(cfg, s, id, act);
    MoveIsGood(cfg, db0, s, id, act);
    var t := Move(cfg, s, id, act);
    assert t.tasks.Keys <= s.tasks.Keys + {id};
    forall other | other in t.tasks && other != id
      ensures WellFormed(cfg, t.tasks[other].call) && OnTrack(cfg, t.db, t.tasks[other])
    {
      OthersStayOnTrack(cfg, db0, s, id, act, other);
    }
  }

  // ----- the files directory -----

  /** Each file row a script inserts is preceded by the persisting of its content. */
  ghost predicate Backed(cfg: Config, stored: set<FileId>, todo: seq<Write>)
    decreases |todo|
  {
    todo != [] ==>
      match todo[0]
      case PersistFile(content) => Backed(cfg, stored + {cfg.digest(content)}, todo[1..])
      case InsertOpFile(_, f) => f in stored && Backed(cfg, stored, todo[1..])
      case _ => Backed(cfg, stored, todo[1..])
  }

  ghost predicate FilesInv(cfg: Config, s: System) {
    && Integrity(cfg, s.files)
    && Stored(s.files, s.db.opFiles)
    && forall id | id in s.tasks && s.tasks[id].pc.Staging? ::
         Stored(s.files, s.tasks[id].pc.txn.db.opFiles) && Backed(cfg, s.files.Keys, s.tasks[id].pc.todo)
  }

  lemma {:induction false} BackedMonotone(cfg: Config, some: set<FileId>, more: set<FileId>, todo: seq<Write>)
    requires some <= more && Backed(cfg, some, todo)
    ensures Backed(cfg, more, todo)
    decreases |todo|
  {
    if todo != [] {
      match todo[0]
      case PersistFile(content) =>
        BackedMonotone(cfg, some + {cfg.digest(content)}, more + {cfg.digest(content)}, todo[1..]);
      case _ => BackedMonotone(cfg, some, more, todo[1..]);
    }
  }

  lemma {:induction false} PlainBacked(cfg: Config, stored: set<FileId>, script: seq<Write>)
    requires forall w | w in script :: !w.InsertOpFile?
    ensures Backed(cfg, stored, script)
    decreases |script|
  {
    if script != [] {
      assert !script[0].InsertOpFile?;
      var more := if script[0].PersistFile? then stored + {cfg.digest(script[0].content)} else stored;
      PlainBacked(cfg, more, script[1..]);
    }
  }

  lemma {:induction false} FileWritesBacked(cfg: Config, stored: set<FileId>, uploads: seq<Upload>, rest: seq<Write>)
    requires forall w | w in rest :: !w.InsertOpFile?
    ensures Backed(cfg, stored, FileWrites(cfg, uploads) + rest)
    decreases |uploads|
  {
    var script := FileWrites(cfg, uploads) + rest;
    if uploads == [] {
      assert script == rest;
      PlainBacked(cfg, stored, rest);
    } else {
      var more := stored + {cfg.digest(uploads[0].content)};
      FileWritesBacked(cfg, more, uploads[1..], rest);
      assert script[1..][1..] == FileWrites(cfg, uploads[1..]) + rest;
      assert Backed(cfg, more, script[1..]);
    }
  }

  lemma {:induction false} StatusWritesPlain(keys: seq<int>)
    ensures forall w | w in StatusWrites(keys) :: w.InsertStatus?
    decreases |keys|
  {
    if keys != [] {
      StatusWritesPlain(keys[1..]);
    }
  }

  lemma PostBacked(
    cfg: Config, stored: set<FileId>, c: int, opType: OperationType, form: PostForm, now: int, keys: seq<int>)
    ensures Backed(cfg, stored, PostScript(cfg, c, opType, form, now, keys))
  {
    var script := PostScript(cfg, c, opType, form, now, keys);
    var uploads := Uploads(form);
    StatusWritesPlain(keys);
    FileWritesBacked(cfg, stored, uploads, StatusWrites(keys));
    assert script[1..] == FileWrites(cfg, uploads) + StatusWrites(keys);
  }

  lemma PlanBacked(cfg: Config, call: Call, seen: Seen, stored: set<FileId>)
    requires Next(cfg, call, seen).Commit?
    ensures Backed(cfg, stored, Next(cfg, call, seen).script)
  {
    match call
    case PostOperation(c, parts, now, keys) =>
      var form := FormOf(call);
      PostBacked(cfg, stored, c, form.opType.value, form, now, keys);
    case RespondToOperation(_, form, now) =>
      var op, entry := seen.operation.value.value, seen.entry.value.value;
      FileWritesBacked(cfg, stored, PsbtUploads(form.psbt, FileType.ResponsePsbt),
                       [RecordVote(entry, form.request.value.ack, now), SettleOperation(op)]);
    case _ =>
      PlainBacked(cfg, stored, Next(cfg, call, seen).script);
  }

  /** Staging a write adds at most one file row, the one it names. */
  lemma StageFileRows(cfg: Config, txn: Txn, w: Write)
    requires Stage(cfg, txn, w).Some?
    ensures var rows := Stage(cfg, txn, w).value.db.opFiles;
            if w.InsertOpFile? then |rows| == |txn.db.opFiles| + 1 && rows[..|txn.db.opFiles|] == txn.db.opFiles
                                    && rows[|txn.db.opFiles|].fileId == w.fileId
            else rows == txn.db.opFiles
  {
  }

  lemma MoveGrowsFiles(cfg: Config, s: System, id: int, act: Label)
    requires FilesInv(cfg, s) && Enabled(cfg, s, id, act)
    ensures Integrity(cfg, Move(cfg, s, id, act).files) && FilesGrow(s.files, Move(cfg, s, id, act).files)
  {
    if act.Write? {
      PersistGrows(cfg, s.files, s.tasks[id].pc.todo[0]);
    }
  }

  lemma WriteKeepsBacking(cfg: Config, files: map<FileId, Bytes>, txn: Txn, todo: seq<Write>)
    requires todo != [] && Stage(cfg, txn, todo[0]).Some?
    requires Integrity(cfg, files) && Stored(files, txn.db.opFiles) && Backed(cfg, files.Keys, todo)
    ensures Stored(Persist(cfg, files, todo[0]), Stage(cfg, txn, todo[0]).value.db.opFiles)
    ensures Backed(cfg, Persist(cfg, files, todo[0]).Keys, todo[1..])
  {
    PersistGrows(cfg, files, todo[0]);
    StageFileRows(cfg, txn, todo[0]);
  }

  /** After any step, including the death of a task that had already written files: every
      committed file row's file exists, every file's content hashes to its name, and no
      stored file has changed. */
  lemma MoveKeepsFiles(cfg: Config, s: System, id: int, act: Label)
    requires FilesInv(cfg, s) && Enabled(cfg, s, id, act)
    ensures FilesInv(cfg, Move(cfg, s, id, act)) && FilesGrow(s.files, Move(cfg, s, id, act).files)
  {
    var t := Move(cfg, s, id, act);
    MoveGrowsFiles(cfg, s, id, act);
    if act.Write? && Stage(cfg, s.tasks[id].pc.txn, s.tasks[id].pc.todo[0]).Some? {
      WriteKeepsBacking(cfg, s.files, s.tasks[id].pc.txn, s.tasks[id].pc.todo);
    }
    if act.Conclude? && Next(cfg, s.tasks[id].call, s.tasks[id].pc.seen).Commit? {
      PlanBacked(cfg, s.tasks[id].call, s.tasks[id].pc.seen, s.files.Keys);
    }
    forall other | other in t.tasks && other != id && t.tasks[other].pc.Staging?
      ensures Stored(t.files, t.tasks[other].pc.txn.db.opFiles) && Backed(cfg, t.files.Keys, t.tasks[other].pc.todo)
    {
      assert t.tasks[other] == s.tasks[other];
      BackedMonotone(cfg, s.files.Keys, t.files.Keys, t.tasks[other].pc.todo);
    }
  }

  // ----- every run -----

  datatype Turn = Turn(id: int, act: Label)

  ghost predicate Possible(cfg: Config, s: System, run: seq<Turn>)
    decreases |run|
  {
    run == [] ||
    (Enabled(cfg, s, run[0].id, run[0].act) && Possible(cfg, Move(cfg, s, run[0].id, run[0].act), run[1..]))
  }

  ghost function After(cfg: Config, s: System, run: seq<Turn>): System
    requires Possible(cfg, s, run)
    decreases |run|
  {
    if run == [] then s else After(cfg, Move(cfg, s, run[0].id, run[0].act), run[1..])
  }

  ghost predicate Good(cfg: Config, db0: Db, s: System) {
    Consistent(cfg, db0, s) && FilesInv(cfg, s)
  }

  /** A freshly started service. */
  function Idle(db: Db, files: map<FileId, Bytes>): System {
    System(db, files, None, map[], [], {}, {})
  }

  lemma {:induction false} RunsAreConsistent(cfg: Config, db0: Db, s: System, run: seq<Turn>)
    requires Consistent(cfg, db0, s) && Possible(cfg, s, run)
    ensures Consistent(cfg, db0, After(cfg, s, run))
    decreases |run|
  {
    hide Consistent, Enabled, Move;
    if run != [] {
      MoveKeepsConsistent(cfg, db0, s, run[0].id, run[0].act);
      RunsAreConsistent(cfg, db0, Move(cfg, s, run[0].id, run[0].act), run[1..]);
    }
  }

  lemma {:induction false} RunsAreGood(cfg: Config, db0: Db, s: System, run: seq<Turn>)
    requires Good(cfg, db0, s) && Possible(cfg, s, run)
    ensures Good(cfg, db0, After(cfg, s, run)) && FilesGrow(s.files, After(cfg, s, run).files)
    decreases |run|
  {
    hide Consistent, FilesInv, Enabled, Move;
    if run != [] {
      MoveKeepsConsistent(cfg, db0, s, run[0].id, run[0].act);
      MoveKeepsFiles(cfg, s, run[0].id, run[0].act);
      RunsAreGood(cfg, db0, Move(cfg, s, run[0].id, run[0].act), run[1..]);
    }
  }

  /** One step leaves the committed tables alone, or moves them on by one whole request. */
  lemma MoveReaches(cfg: Config, db0: Db, s: System, id: int, act: Label)
    requires Consistent(cfg, db0, s) && Enabled(cfg, s, id, act)
    ensures Reaches(cfg, s.db, Move(cfg, s, id, act).db)
  {
    hide Reaches, Linearized, LockHeld, Next, Answer, Exec, WellFormed;
    ReachesReflexive(cfg, s.db);
    if act.Commit? {
      var task := s.tasks[id];
      assert OnTrack(cfg, s.db, task);
      assert Finish(cfg, s.db, task.pc.txn, []) == (task.pc.txn.db, task.pc.txn.reply);
      ReachesByOne(cfg, s.db, task.call);
    }
  }

  /** Between any two moments of a run, the committed tables move on by whole requests and
      files only appear: this is all a reader without the lock can rely on. */
  lemma {:induction false} CommittedTablesMoveOn(cfg: Config, db0: Db, s: System, run: seq<Turn>)
    requires Good(cfg, db0, s) && Possible(cfg, s, run)
    ensures Reaches(cfg, s.db, After(cfg, s, run).db) && FilesGrow(s.files, After(cfg, s, run).files)
    decreases |run|
  {
    hide Consistent, FilesInv, Enabled, Move, Reaches;
    if run == [] {
      ReachesReflexive(cfg, s.db);
    } else {
      var next := Move(cfg, s, run[0].id, run[0].act);
      MoveReaches(cfg, db0, s, run[0].id, run[0].act);
      MoveKeepsConsistent(cfg, db0, s, run[0].id, run[0].act);
      MoveKeepsFiles(cfg, s, run[0].id, run[0].act);
      CommittedTablesMoveOn(cfg, db0, next, run[1..]);
      ReachesTransitive(cfg, s.db, next.db, After(cfg, s, run).db);
    }
  }

  // ----- one event per request, in an order that respects time -----

  function LoggedIds(log: seq<Event>): set<int> {
    set e | e in log :: e.id
  }

  ghost predicate OncePerRequest(log: seq<Event>) {
    forall i, j | 0 <= i < j < |log| :: log[i].id != log[j].id
  }

  /** Only requests that arrived are logged, each at most once; a task is logged once its
      reply is determined, and a released request is logged for good. */
  ghost predicate Accounted(s: System) {
    && OncePerRequest(s.log)
    && LoggedIds(s.log) <= s.started
    && s.tasks.Keys <= s.started && s.tasks.Keys !! s.released
    && (forall id | id in s.tasks :: id in LoggedIds(s.log) <==> s.tasks[id].pc.Done?)
    && s.released <= LoggedIds(s.log)
  }

  lemma LoggedNext(log: seq<Event>, e: Event)
    requires OncePerRequest(log) && e.id !in LoggedIds(log)
    ensures LoggedIds(log + [e]) == LoggedIds(log) + {e.id} && OncePerRequest(log + [e])
  {
    var more := log + [e];
    assert forall d :: d in more <==> d in log || d == e;
    forall i, j | 0 <= i < j < |more| ensures more[i].id != more[j].id {
      if j == |log| { assert log[i] in log; }
    }
  }

  lemma SettleKeepsAccounted(s: System, id: int, reply: Reply)
    requires Accounted(s) && id in s.tasks && !s.tasks[id].pc.Done?
    ensures Accounted(Settle(s, id, reply))
  {
    hide OncePerRequest, LoggedIds;
    LoggedNext(s.log, Event(id, s.tasks[id].call, reply));
  }

  lemma MoveToKeepsAccounted(s: System, id: int, pc: Pc)
    requires Accounted(s) && id in s.tasks && !s.tasks[id].pc.Done? && !pc.Done?
    ensures Accounted(MoveTo(s, id, pc))
  {
    hide OncePerRequest, LoggedIds;
  }

  lemma MoveKeepsAccounted(cfg: Config, s: System, id: int, act: Label)
    requires Accounted(s) && Enabled(cfg, s, id, act)
    ensures Accounted(Move(cfg, s, id, act)) && s.log <= Move(cfg, s, id, act).log
    ensures s.started <= Move(cfg, s, id, act).started
  {
    hide OncePerRequest, LoggedIds, Next, Answer, Stage, Begin, Persist, WellFormed;
    match act
    case Spawn(_) =>
    case Acquire => MoveToKeepsAccounted(s, id, Checking(NOTHING_SEEN));
    case Ask =>
      var task := s.tasks[id];
      var query := Next(cfg, task.call, task.pc.seen).query;
      MoveToKeepsAccounted(s, id, Checking(Answer(s.db, task.call, query, task.pc.seen)));
    case Conclude =>
      var plan := Next(cfg, s.tasks[id].call, s.tasks[id].pc.seen);
      if plan.Refuse? {
        SettleKeepsAccounted(s, id, Refused(plan.error));
      } else {
        MoveToKeepsAccounted(s, id, Staging(Begin(s.db, s.tasks[id].call, plan.reply), plan.script));
      }
    case Write =>
      var pc := s.tasks[id].pc;
      var next := Stage(cfg, pc.txn, pc.todo[0]);
      if next.None? {
        SettleKeepsAccounted(s, id, Refused(Panic));
      } else {
        MoveToKeepsAccounted(s, id, Staging(next.value, pc.todo[1..]));
      }
    case Commit => SettleKeepsAccounted(s, id, s.tasks[id].pc.txn.reply);
    case Release =>
    case Abort =>
  }

  lemma {:induction false} RunsAreAccounted(cfg: Config, s: System, run: seq<Turn>)
    requires Accounted(s) && Possible(cfg, s, run)
    ensures Accounted(After(cfg, s, run)) && s.log <= After(cfg, s, run).log
    decreases |run|
  {
    hide Accounted, Enabled, Move;
    if run != [] {
      MoveKeepsAccounted(cfg, s, run[0].id, run[0].act);
      RunsAreAccounted(cfg, Move(cfg, s, run[0].id, run[0].act), run[1..]);
    }
  }

  /** The log respects time: a request that was released before another one arrived comes
      before it. */
  lemma LogRespectsTime(cfg: Config, db: Db, files: map<FileId, Bytes>, run: seq<Turn>, more: seq<Turn>, i: int, j: int)
    requires Possible(cfg, Idle(db, files), run) && Possible(cfg, After(cfg, Idle(db, files), run), more)
    requires var log := After(cfg, After(cfg, Idle(db, files), run), more).log; 0 <= i < |log| && 0 <= j < |log|
    requires var middle := After(cfg, Idle(db, files), run);
             var log := After(cfg, middle, more).log;
             log[i].id in middle.released && log[j].id !in middle.started
    ensures i < j
  {
    var middle := After(cfg, Idle(db, files), run);
    var log := After(cfg, middle, more).log;
    RunsAreAccounted(cfg, Idle(db, files), run);
    RunsAreAccounted(cfg, middle, more);
    hide After, Possible, Idle;
    var e :| e in middle.log && e.id == log[i].id;
    var k :| 0 <= k < |middle.log| && middle.log[k] == e;
    assert log[k] == middle.log[k] && k == i;
    assert forall m | 0 <= m < |middle.log| :: log[m] == middle.log[m] && middle.log[m] in middle.log;
  }

  /** Any number of concurrent requests, failing at any point, leave committed tables and
      replies that the logged requests give when each runs alone, in log order; each request
      is logged at most once, and exactly once when it ran to its end. */
  lemma Linearizable(cfg: Config, run: seq<Turn>)
    requires cfg.Sound() && ConfigFits(cfg) && Possible(cfg, Idle(INITIAL_DB, map[]), run)
    ensures var s := After(cfg, Idle(INITIAL_DB, map[]), run);
            && Linearized(cfg, INITIAL_DB, s.log, s.db)
            && Valid(cfg, s.db)
            && Abs(cfg, s.db) == A.Run(cfg, [], Actions(Calls(s.log)))
            && Integrity(cfg, s.files) && Stored(s.files, s.db.opFiles)
            && OncePerRequest(s.log)
            && s.released <= LoggedIds(s.log) <= s.started
  {
    InitialDbValid(cfg);
    assert Abs(cfg, INITIAL_DB) == [];
    StartsGood(cfg, INITIAL_DB, map[]);
    RunsAreGood(cfg, INITIAL_DB, Idle(INITIAL_DB, map[]), run);
    RunsAreAccounted(cfg, Idle(INITIAL_DB, map[]), run);
    hide Valid, Abs, Possible, OnTrack, LockHeld, WellFormed, Exec;
    RunRefines(cfg, INITIAL_DB, Calls(After(cfg, Idle(INITIAL_DB, map[]), run).log));
  }

  lemma StartsGood(cfg: Config, db: Db, files: map<FileId, Bytes>)
    requires Integrity(cfg, files) && Stored(files, db.opFiles)
    ensures Good(cfg, db, Idle(db, files))
  {
  }

  /** So check-then-act is safe: never two pending operations, never an operation that
      lacks the row of a cosigner. */
  lemma NoTornPost(cfg: Config, run: seq<Turn>, i: int, j: int, c: int)
    requires cfg.Sound() && ConfigFits(cfg) && Possible(cfg, Idle(INITIAL_DB, map[]), run)
    requires 0 <= i < |After(cfg, Idle(INITIAL_DB, map[]), run).db.operations|
    requires 0 <= j < |After(cfg, Idle(INITIAL_DB, map[]), run).db.operations| && c in cfg.Cosigners()
    ensures var db := After(cfg, Idle(INITIAL_DB, map[]), run).db;
            && db.operations[i].idx == i + 1
            && (db.operations[i].status == Pending && db.operations[j].status == Pending ==> i == j)
            && GetEntry(db.statuses, c, i + 1).Some?
  {
    Linearizable(cfg, run);
    var db := After(cfg, Idle(INITIAL_DB, map[]), run).db;
    hide After, Possible, Linearized;
    if db.operations[i].status == Pending && db.operations[j].status == Pending {
      OnePending(cfg, db, i, j);
    }
  }

  lemma OnePending(cfg: Config, db: Db, i: nat, j: nat)
    requires A.Inv(cfg, Abs(cfg, db)) && i < |db.operations| && j < |db.operations|
    requires db.operations[i].status == Pending && db.operations[j].status == Pending
    ensures i == j
  {
    hide A.Inv, Abs;
    RowSeen(cfg, db, i);
    RowSeen(cfg, db, j);
    A.PendingIsNewest(cfg, Abs(cfg, db), i);
    A.PendingIsNewest(cfg, Abs(cfg, db), j);
  }

  // ----- every request can run to its end -----

  lemma FirstTurn(cfg: Config, s: System, id: int, act: Label, rest: seq<Turn>)
    requires Enabled(cfg, s, id, act) && Possible(cfg, Move(cfg, s, id, act), rest)
    ensures Possible(cfg, s, [Turn(id, act)] + rest)
    ensures After(cfg, s, [Turn(id, act)] + rest) == After(cfg, Move(cfg, s, id, act), rest)
  {
    hide Enabled, Move;
    assert ([Turn(id, act)] + rest)[1..] == rest;
  }

  lemma {:induction false} ThenRun(cfg: Config, s: System, run: seq<Turn>, more: seq<Turn>)
    requires Possible(cfg, s, run) && Possible(cfg, After(cfg, s, run), more)
    ensures Possible(cfg, s, run + more) && After(cfg, s, run + more) == After(cfg, After(cfg, s, run), more)
    decreases |run|
  {
    hide Enabled, Move;
    if run == [] {
      assert run + more == more;
    } else {
      assert (run + more)[1..] == run[1..] + more;
      ThenRun(cfg, Move(cfg, s, run[0].id, run[0].act), run[1..], more);
    }
  }

  /** How many answers a handler has not received. */
  function Unanswered(seen: Seen): nat {
    (if seen.pending.None? then 1 else 0) + (if seen.unprocessed.None? then 1 else 0)
    + (if seen.operation.None? then 1 else 0) + (if seen.entry.None? then 1 else 0)
    + (if seen.lastProcessed.None? then 1 else 0) + (if seen.nextAddress.None? then 1 else 0)
    + (if seen.transfer.None? then 1 else 0)
  }

  /** A handler never asks the same question twice. */
  lemma AsksSomethingNew(cfg: Config, db: Db, call: Call, seen: Seen)
    requires Next(cfg, call, seen).Read?
    ensures Unanswered(Answer(db, call, Next(cfg, call, seen).query, seen)) < Unanswered(seen)
  {
    hide ParsePost, PostScript, RespondScript, HasPendingOperation, HasUnprocessedOperation, GetOperationByIdx,
         GetEntry, GetLastProcessedOpIdx, GetTransferStatus, SeedFits;
    match call
    case PostOperation(_, _, _, _) =>
    case RespondToOperation(_, _, _) =>
    case MarkOperationProcessed(_, _, _) =>
    case BumpAddressIndices(_, _) =>
    case PutTransferStatus(_, _, _, _) =>
  }

  /** The turns of one task alone. */
  predicate TurnsOf(run: seq<Turn>, id: int) {
    forall i | 0 <= i < |run| :: run[i].id == id
  }

  lemma MoveToTwice(s: System, id: int, a: Pc, b: Pc)
    requires id in s.tasks
    ensures MoveTo(MoveTo(s, id, a), id, b) == MoveTo(s, id, b)
  {
  }

  lemma {:induction false} AsksOn(cfg: Config, s: System, id: int) returns (run: seq<Turn>, seen: Seen)
    requires id in s.tasks && s.tasks[id].pc.Checking? && UpToDate(s.db, s.tasks[id].call, s.tasks[id].pc.seen)
    ensures Possible(cfg, s, run) && TurnsOf(run, id) && After(cfg, s, run) == MoveTo(s, id, Checking(seen))
    ensures UpToDate(s.db, s.tasks[id].call, seen) && !Next(cfg, s.tasks[id].call, seen).Read?
    decreases Unanswered(s.tasks[id].pc.seen)
  {
    hide UpToDate, Next, Answer, Unanswered;
    var call, known := s.tasks[id].call, s.tasks[id].pc.seen;
    if Next(cfg, call, known).Read? {
      var query := Next(cfg, call, known).query;
      var next := MoveTo(s, id, Checking(Answer(s.db, call, query, known)));
      AnswerUpToDate(s.db, call, query, known);
      AsksSomethingNew(cfg, s.db, call, known);
      run, seen := AsksOn(cfg, next, id);
      MoveToTwice(s, id, Checking(Answer(s.db, call, query, known)), Checking(seen));
      FirstTurn(cfg, s, id, Ask, run);
      run := [Turn(id, Ask)] + run;
    } else {
      run, seen := [], known;
      assert MoveTo(s, id, Checking(seen)) == s;
    }
  }

  /** The state after the task has been told its reply. */
  ghost predicate IsSettled(cfg: Config, s: System, id: int, db: Db, reply: Reply, t: System)
    requires id in s.tasks
  {
    t == Settle(s, id, reply).(db := db, files := t.files) && FilesGrow(s.files, t.files)
  }

  lemma SettleAfterMove(s: System, id: int, pc: Pc, reply: Reply, files: map<FileId, Bytes>)
    requires id in s.tasks
    ensures Settle(MoveTo(s, id, pc).(files := files), id, reply) == Settle(s, id, reply).(files := files)
  {
  }

  lemma {:induction false} WritesOn(cfg: Config, s: System, id: int) returns (run: seq<Turn>)
    requires id in s.tasks && s.tasks[id].pc.Staging? && Integrity(cfg, s.files)
    ensures Possible(cfg, s, run) && TurnsOf(run, id)
    ensures var (db, reply) := Finish(cfg, s.db, s.tasks[id].pc.txn, s.tasks[id].pc.todo);
            IsSettled(cfg, s, id, db, reply, After(cfg, s, run))
    ensures StageAll(cfg, s.tasks[id].pc.txn, s.tasks[id].pc.todo).Some? ==>
              After(cfg, s, run).files == PersistAll(cfg, s.files, s.tasks[id].pc.todo)
    decreases |s.tasks[id].pc.todo|
  {
    hide Stage, Persist, Integrity, FilesGrow;
    var txn, todo := s.tasks[id].pc.txn, s.tasks[id].pc.todo;
    FilesGrowReflexive(s.files);
    if todo == [] {
      var t := Settle(s, id, txn.reply).(db := txn.db);
      FirstTurn(cfg, s, id, Label.Commit, []);
      run := [Turn(id, Label.Commit)] + [];
      assert After(cfg, s, run) == t;
    } else if Stage(cfg, txn, todo[0]).None? {
      FirstTurn(cfg, s, id, Write, []);
      run := [Turn(id, Write)] + [];
      assert After(cfg, s, run) == Settle(s, id, Refused(Panic));
    } else {
      var next := Stage(cfg, txn, todo[0]).value;
      var files := Persist(cfg, s.files, todo[0]);
      var t := MoveTo(s, id, Staging(next, todo[1..])).(files := files);
      PersistGrows(cfg, s.files, todo[0]);
      run := WritesOn(cfg, t, id);
      var (db, reply) := Finish(cfg, s.db, next, todo[1..]);
      SettleAfterMove(s, id, Staging(next, todo[1..]), reply, files);
      FilesGrowTransitive(s.files, files, After(cfg, t, run).files);
      FirstTurn(cfg, s, id, Write, run);
      run := [Turn(id, Write)] + run;
    }
  }

  /** A task that is checking, or has concluded its checks, is told the reply of an
      uninterrupted run. */
  lemma ConcludesAndWrites(cfg: Config, s: System, id: int) returns (run: seq<Turn>)
    requires id in s.tasks && s.tasks[id].pc.Checking? && Integrity(cfg, s.files)
    requires UpToDate(s.db, s.tasks[id].call, s.tasks[id].pc.seen)
    requires !Next(cfg, s.tasks[id].call, s.tasks[id].pc.seen).Read?
    ensures Possible(cfg, s, run) && TurnsOf(run, id)
    ensures var (db, reply) := Exec(cfg, s.db, s.tasks[id].call);
            IsSettled(cfg, s, id, db, reply, After(cfg, s, run))
    ensures var plan := Next(cfg, s.tasks[id].call, Observe(s.db, s.tasks[id].call));
            plan.Commit? && !Exec(cfg, s.db, s.tasks[id].call).1.Refused? ==>
              After(cfg, s, run).files == PersistAll(cfg, s.files, plan.script)
  {
    hide Next, Observe, UpToDate, StageAll, Integrity, FilesGrow, PersistAll;
    var call := s.tasks[id].call;
    PlanFromAnswers(cfg, s.db, call, s.tasks[id].pc.seen);
    FilesGrowReflexive(s.files);
    match Next(cfg, call, s.tasks[id].pc.seen)
    case Refuse(error) =>
      FirstTurn(cfg, s, id, Conclude, []);
      run := [Turn(id, Conclude)] + [];
      assert After(cfg, s, run) == Settle(s, id, Refused(error));
    case Commit(script, reply) =>
      var pc := Staging(Begin(s.db, call, reply), script);
      run := WritesOn(cfg, MoveTo(s, id, pc), id);
      FirstTurn(cfg, s, id, Conclude, run);
      var (db, answer) := Exec(cfg, s.db, call);
      SettleAfterMove(s, id, pc, answer, s.files);
      run := [Turn(id, Conclude)] + run;
  }

  /** The state after a request has run to its end: its effect and its reply are those of
      an uninterrupted run, the lock is free, and nobody else has moved. */
  ghost predicate IsServed(cfg: Config, s: System, id: int, db: Db, reply: Reply, t: System)
    requires id in s.tasks
  {
    && t.db == db && t.log == s.log + [Event(id, s.tasks[id].call, reply)]
    && t.tasks == s.tasks - {id} && t.lock.None?
    && t.started == s.started && t.released == s.released + {id}
    && FilesGrow(s.files, t.files)
  }

  lemma ReleasesAtLast(cfg: Config, s: System, id: int, db: Db, reply: Reply, run: seq<Turn>) returns (all: seq<Turn>)
    requires id in s.tasks && Possible(cfg, s, run) && TurnsOf(run, id)
    requires IsSettled(cfg, s, id, db, reply, After(cfg, s, run))
    ensures Possible(cfg, s, all) && TurnsOf(all, id) && IsServed(cfg, s, id, db, reply, After(cfg, s, all))
    ensures After(cfg, s, all).files == After(cfg, s, run).files
  {
    hide FilesGrow;
    var t := After(cfg, s, run);
    FirstTurn(cfg, t, id, Release, []);
    var last := [Turn(id, Release)] + [];
    ThenRun(cfg, s, run, last);
    all := run + last;
    assert t.tasks - {id} == s.tasks - {id};
    assert After(cfg, t, last) == t.(tasks := t.tasks - {id}, lock := None, released := t.released + {id});
  }

  /** Whoever holds the lock can run to its end, whatever it is doing. */
  lemma HolderCanFinish(cfg: Config, db0: Db, s: System, id: int) returns (run: seq<Turn>)
    requires Good(cfg, db0, s) && s.lock == Some(id)
    ensures Possible(cfg, s, run) && TurnsOf(run, id)
    ensures After(cfg, s, run).lock.None? && After(cfg, s, run).tasks == s.tasks - {id}
    ensures id in After(cfg, s, run).released
  {
    hide Linearized, FilesInv, Next, StageAll, UpToDate, WellFormed, Observe, Exec, Persist;
    FilesHaveIntegrity(cfg, s);
    assert OnTrack(cfg, s.db, s.tasks[id]);
    match s.tasks[id].pc
    case Checking(_) =>
      var asks, seen := AsksOn(cfg, s, id);
      var ready := MoveTo(s, id, Checking(seen));
      run := ConcludesAndWrites(cfg, ready, id);
      var (db, reply) := Exec(cfg, s.db, s.tasks[id].call);
      run := ReleasesAtLast(cfg, ready, id, db, reply, run);
      ThenRun(cfg, s, asks, run);
      run := asks + run;
      assert ready.tasks - {id} == s.tasks - {id};
    case Staging(txn, todo) =>
      run := WritesOn(cfg, s, id);
      var (db, reply) := Finish(cfg, s.db, txn, todo);
      run := ReleasesAtLast(cfg, s, id, db, reply, run);
    case Done =>
      FirstTurn(cfg, s, id, Release, []);
      run := [Turn(id, Release)] + [];
      assert After(cfg, s, run) == Move(cfg, s, id, Release);
  }

  lemma FilesHaveIntegrity(cfg: Config, s: System)
    requires FilesInv(cfg, s)
    ensures Integrity(cfg, s.files)
  {
  }

  /** From any state with a free lock, a waiting request can run to its end, with the effect
      and the reply of an uninterrupted run on the tables as they are. */
  lemma WaitingCanBeServed(cfg: Config, s: System, id: int) returns (run: seq<Turn>)
    requires id in s.tasks && s.tasks[id].pc.Waiting? && s.lock.None? && Integrity(cfg, s.files)
    ensures Possible(cfg, s, run) && TurnsOf(run, id)
    ensures var (db, reply) := Exec(cfg, s.db, s.tasks[id].call);
            IsServed(cfg, s, id, db, reply, After(cfg, s, run))
    ensures var plan := Next(cfg, s.tasks[id].call, Observe(s.db, s.tasks[id].call));
            plan.Commit? && !Exec(cfg, s.db, s.tasks[id].call).1.Refused? ==>
              After(cfg, s, run).files == PersistAll(cfg, s.files, plan.script)
  {
    hide Next, Observe, Exec, PersistAll, Integrity, FilesGrow;
    var call := s.tasks[id].call;
    var (db, reply) := Exec(cfg, s.db, call);
    var locked := Move(cfg, s, id, Acquire);
    NothingSeenUpToDate(s.db, call);
    hide UpToDate;
    var asks, seen := AsksOn(cfg, locked, id);
    var ready := MoveTo(locked, id, Checking(seen));
    run := ConcludesAndWrites(cfg, ready, id);
    run := ReleasesAtLast(cfg, ready, id, db, reply, run);
    ThenRun(cfg, locked, asks, run);
    FirstTurn(cfg, s, id, Acquire, asks + run);
    run := [Turn(id, Acquire)] + (asks + run);
    assert ready.tasks - {id} == s.tasks - {id};
  }

  lemma NothingSeenUpToDate(db: Db, call: Call)
    ensures UpToDate(db, call, NOTHING_SEEN)
  {
  }

  /** So no request is ever shut out: from any reachable state, after at most the turns of
      the task that holds the lock, any waiting request can be served. */
  lemma EveryWaitingCanBeServed(cfg: Config, db0: Db, s: System, id: int) returns (before: seq<Turn>, run: seq<Turn>)
    requires Good(cfg, db0, s) && id in s.tasks && s.tasks[id].pc.Waiting?
    ensures Possible(cfg, s, before) && (s.lock.None? ==> before == []) && id in After(cfg, s, before).tasks
    ensures s.lock.Some? ==> TurnsOf(before, s.lock.value)
    ensures Possible(cfg, After(cfg, s, before), run) && TurnsOf(run, id)
    ensures var middle := After(cfg, s, before);
            var (db, reply) := Exec(cfg, middle.db, s.tasks[id].call);
            middle.tasks[id] == s.tasks[id] && IsServed(cfg, middle, id, db, reply, After(cfg, middle, run))
  {
    hide Linearized, FilesInv, OnTrack, WellFormed, Exec, Next, Observe, IsServed;
    if s.lock.Some? {
      before := HolderCanFinish(cfg, db0, s, s.lock.value);
    } else {
      before := [];
    }
    RunsAreGood(cfg, db0, s, before);
    var middle := After(cfg, s, before);
    FilesHaveIntegrity(cfg, middle);
    run := WaitingCanBeServed(cfg, middle, id);
  }

  /** A request that arrives at an idle service runs to its end: it takes effect, is logged
      with its reply, and is released. */
  lemma ServedWhenIdle(cfg: Config, db: Db, files: map<FileId, Bytes>, id: int, call: Call) returns (run: seq<Turn>)
    requires WellFormed(cfg, call) && Integrity(cfg, files)
    ensures Possible(cfg, Idle(db, files), run)
    ensures var t, (after, reply) := After(cfg, Idle(db, files), run), Exec(cfg, db, call);
            && t.db == after && t.log == [Event(id, call, reply)]
            && t.released == {id} && t.tasks == map[] && t.lock.None?
            && (Next(cfg, call, Observe(db, call)).Commit? && !reply.Refused? ==>
                  t.files == PersistAll(cfg, files, Next(cfg, call, Observe(db, call)).script))
  {
    hide Next, Observe, Exec, PersistAll, Integrity, WellFormed, FilesGrow;
    var idle := Idle(db, files);
    var arrived := Move(cfg, idle, id, Spawn(call));
    run := WaitingCanBeServed(cfg, arrived, id);
    FirstTurn(cfg, idle, id, Spawn(call), run);
    run := [Turn(id, Spawn(call))] + run;
    assert arrived.tasks - {id} == map[];
  }

  /** A task that dies takes its lock and its transaction with it, and leaves no other trace:
      the committed tables, the files and everyone else stay as they are. */
  lemma AbortLeavesNoTrace(cfg: Config, s: System, id: int)
    requires LockHeld(s) && id in s.tasks
    ensures var t := Move(cfg, s, id, Abort);
            && t.db == s.db && t.files == s.files && t.log == s.log && t.tasks == s.tasks - {id}
            && t.lock == (if s.lock == Some(id) then None else s.lock)
            && t.started == s.started && t.released == s.released
  {
  }

  // ----- why the lock is needed -----

  /** The tables when `b` checks on `db` but commits after `a` has. */
  function CheckedTooEarly(cfg: Config, db: Db, a: Call, b: Call): Db
    requires Next(cfg, b, Observe(db, b)).Commit?
  {
    var plan, middle := Next(cfg, b, Observe(db, b)), Exec(cfg, db, a).0;
    Finish(cfg, middle, Begin(middle, b, plan.reply), plan.script).0
  }

  lemma PostedLast(cfg: Config, db: Db, call: Call, opType: OperationType)
    requires call.PostOperation?
    ensures var rows := PostedDb(cfg, db, call.c, opType, FormOf(call), call.now, call.keys).operations;
            |rows| == |db.operations| + 1 && rows[..|db.operations|] == db.operations
            && rows[|db.operations|].status == A.InitialStatus(opType)
  {
  }

  /** Two posts of voted operations, each allowed by itself: run one after the other, the
      second is refused; checked together and committed in turn, they would leave two
      pending operations. */
  lemma LockIsNeeded(cfg: Config, db: Db, a: Call, b: Call)
    requires Valid(cfg, db) && WellFormed(cfg, a) && WellFormed(cfg, b)
    requires a.PostOperation? && AsksFor(cfg, db, a) && cfg.Threshold(FormOf(a).opType.value).Some?
    requires b.PostOperation? && AsksFor(cfg, db, b) && cfg.Threshold(FormOf(b).opType.value).Some?
    ensures Exec(cfg, Exec(cfg, db, a).0, b).1 == Refused(AnotherOperationPending)
    ensures Next(cfg, b, Observe(db, b)).Commit?
    ensures var k, torn := |db.operations|, CheckedTooEarly(cfg, db, a, b);
            |torn.operations| == k + 2 && torn.operations[k].status == torn.operations[k + 1].status == Pending
  {
    hide A.Inv, Shaped, WellFormed, StageAll, PostScript, PostedDb;
    var middle := Exec(cfg, db, a).0;
    ValidIsSane(cfg, db);
    PostResult(cfg, db, a);
    ExecRefines(cfg, db, a);
    ValidIsSane(cfg, middle);
    PostedLast(cfg, db, a, FormOf(a).opType.value);
    assert middle.operations[|db.operations|] in middle.operations;
    PostPlan(cfg, db, b);
    NumbersOk(cfg, middle);
    PostEffect(cfg, middle, b, FormOf(b).opType.value);
    PostedLast(cfg, middle, b, FormOf(b).opType.value);
  }
}
