/** Starting the daemon: the first start fixes the configuration in three separate
    writes, every later start must agree with it. */
module Startup {
  import opened HubTypes
  import opened Tables
  import opened Requests
  import opened Scans
  import opened Refinement
  import Registers
  import opened FileStore
  import opened Ledger
  import A = Approval
  import L = Locking

  const MIN_COSIGNERS := 2

  /** The configuration file, as far as the hub's data depends on it. */
  datatype AppConfig = AppConfig(cosignerXpubs: seq<string>, thresholdColored: byte, thresholdVanilla: byte)

  /** The build of the daemon. */
  datatype Build = Build(overflowChecks: bool, digest: Bytes -> FileId)

  datatype ConfigRow = ConfigRow(thresholdColored: byte, thresholdVanilla: byte)

  datatype CosignerRow = CosignerRow(idx: int, xpub: string)

  /** What the data directory holds. */
  datatype Dir = Dir(config: Option<ConfigRow>, cosigners: seq<CosignerRow>, db: Db, files: map<FileId, Bytes>)

  const EMPTY_DIR := Dir(None, [], Db([], [], [], None, []), map[])

  datatype StartError =
    | InvalidCosignerNumber
    | InvalidThreshold
    | CannotChangeThreshold
    | CannotChangeCosigners
    | InconsistentState
    | DatabaseError   // the uniqueness of xpubs is violated
    | Died            // the process ends between two writes

  /** Exactly the configurations within the bounds are accepted. */
  function Validate(c: AppConfig): (r: Option<StartError>)
    ensures r.None? <==>
              && 2 <= |c.cosignerXpubs|
              && 1 <= c.thresholdVanilla <= |c.cosignerXpubs| && 1 <= c.thresholdColored <= |c.cosignerXpubs|
    ensures r == Some(InvalidCosignerNumber) <==> |c.cosignerXpubs| < 2
    ensures r.Some? ==> r.value in {InvalidCosignerNumber, InvalidThreshold}
  {
    var n := |c.cosignerXpubs|;
    if n < MIN_COSIGNERS then Some(InvalidCosignerNumber)
    else if c.thresholdColored == 0 || c.thresholdVanilla == 0 then Some(InvalidThreshold)
    else if c.thresholdColored > n || c.thresholdVanilla > n then Some(InvalidThreshold)
    else None
  }

  function XpubSet(xpubs: seq<string>): set<string> {
    set x | x in xpubs
  }

  function StoredXpubs(rows: seq<CosignerRow>): set<string> {
    set r | r in rows :: r.xpub
  }

  predicate Distinct(xpubs: seq<string>) {
    forall i, j | 0 <= i < j < |xpubs| :: xpubs[i] != xpubs[j]
  }

  function NewCosigners(xpubs: seq<string>): seq<CosignerRow> {
    seq(|xpubs|, i requires 0 <= i < |xpubs| => CosignerRow(i + 1, xpubs[i]))
  }

  /** The map from index to xpub that the running service keeps. */
  function ByIdx(rows: seq<CosignerRow>): map<int, string> {
    if rows == [] then map[]
    else ByIdx(rows[..|rows| - 1])[rows[|rows| - 1].idx := rows[|rows| - 1].xpub]
  }

  /** The map from xpub to index that authentication uses. */
  function ByXpub(rows: seq<CosignerRow>): map<string, int> {
    if rows == [] then map[]
    else ByXpub(rows[..|rows| - 1])[rows[|rows| - 1].xpub := rows[|rows| - 1].idx]
  }

  function Running(build: Build, c: AppConfig, rows: seq<CosignerRow>): Config {
    Config(ByIdx(rows), c.thresholdVanilla, c.thresholdColored, build.overflowChecks, build.digest)
  }

  /** A start with a validated configuration. `writes` is how many database writes the
      process lives to make: a first start needs three. */
  function Start(build: Build, dir: Dir, c: AppConfig, writes: nat): (Dir, Result<Config, StartError>) {
    match dir.config
    case Some(row) =>
      if row.thresholdColored != c.thresholdColored || row.thresholdVanilla != c.thresholdVanilla then
        (dir, Err(CannotChangeThreshold))
      else if StoredXpubs(dir.cosigners) != XpubSet(c.cosignerXpubs) then (dir, Err(CannotChangeCosigners))
      else (dir, Ok(Running(build, c, dir.cosigners)))
    case None =>
      if writes == 0 then (dir, Err(Died))
      else
        var configured := dir.(config := Some(ConfigRow(c.thresholdColored, c.thresholdVanilla)));
        if writes == 1 then (configured, Err(Died))
        else if !Distinct(c.cosignerXpubs) then (configured, Err(DatabaseError))
        else
          var populated := configured.(cosigners := NewCosigners(c.cosignerXpubs));
          if writes == 2 then (populated, Err(Died))
          else
            var completed := populated.(db := populated.db.(nextAddress := Some(NextAddressIndex(0, 0))));
            (completed, Ok(Running(build, c, completed.cosigners)))
  }

  /** The daemon's start, write by write. */
  class Daemon {
    var config: Option<ConfigRow>
    var cosigners: seq<CosignerRow>
    var db: Db
    var files: map<FileId, Bytes>

    function Contents(): Dir
      reads this
    {
      Dir(config, cosigners, db, files)
    }

    /** Nothing precedes the configuration row, as on a directory no start has touched. */
    ghost predicate Orderly()
      reads this
    {
      config.None? ==> cosigners == [] && db.nextAddress.None?
    }

    constructor ()
      ensures Contents() == EMPTY_DIR && Orderly()
    {
      config, cosigners, db, files := None, [], EMPTY_DIR.db, map[];
    }

    method StartDaemon(build: Build, c: AppConfig, writes: nat) returns (r: Result<Config, StartError>)
      requires Orderly()
      modifies this
      ensures Orderly() && (Contents(), r) == Start(build, old(Contents()), c, writes)
    {
      if config.Some? {
        if config.value.thresholdColored != c.thresholdColored || config.value.thresholdVanilla != c.thresholdVanilla {
          return Err(CannotChangeThreshold);
        }
        if StoredXpubs(cosigners) != XpubSet(c.cosignerXpubs) {
          return Err(CannotChangeCosigners);
        }
      } else {
        if writes == 0 {
          return Err(Died);
        }
        var configIdx := SetConfig(ConfigRow(c.thresholdColored, c.thresholdVanilla));
        if configIdx != 1 {
          return Err(InconsistentState);  // "there should not be a config entry"
        }
        if writes == 1 {
          return Err(Died);
        }
        var idx := SetCosigners(c.cosignerXpubs);
        if idx.None? {
          return Err(DatabaseError);
        }
        if idx.value != |c.cosignerXpubs| {
          return Err(InconsistentState);  // "there should not be cosigners entries"
        }
        if writes == 2 {
          return Err(Died);
        }
        var addressIdx := SetNextAddressIndex(NextAddressIndex(0, 0));
        if addressIdx != 1 {
          return Err(InconsistentState);  // "there should not be a next address entry"
        }
      }
      r := Ok(Running(build, c, cosigners));
    }

    /** An insert into an empty table is given the number 1. */
    method SetConfig(row: ConfigRow) returns (idx: int)
      requires config.None?
      modifies this`config
      ensures config == Some(row) && idx == 1
    {
      config := Some(row);
      idx := 1;
    }

    method SetNextAddressIndex(row: NextAddressIndex) returns (idx: int)
      requires db.nextAddress.None?
      modifies this`db
      ensures db == old(db).(nextAddress := Some(row)) && idx == 1
    {
      db := db.(nextAddress := Some(row));
      idx := 1;
    }

    /** Inserts all the cosigners, or none when an xpub repeats; the last key inserted. */
    method SetCosigners(xpubs: seq<string>) returns (last: Option<int>)
      requires cosigners == []
      modifies this`cosigners
      ensures last == if Distinct(xpubs) then Some(|xpubs|) else None
      ensures cosigners == if Distinct(xpubs) then NewCosigners(xpubs) else []
    {
      var rows := [];
      for i := 0 to |xpubs|
        invariant rows == NewCosigners(xpubs[..i])
        invariant Distinct(xpubs[..i])
      {
        if xpubs[i] in xpubs[..i] {
          return None;
        }
        rows := rows + [CosignerRow(i + 1, xpubs[i])];
      }
      assert xpubs[..|xpubs|] == xpubs;
      cosigners := rows;
      last := Some(|xpubs|);
    }
  }

  // ----- completed directories -----

  ghost predicate RowsOk(rows: seq<CosignerRow>) {
    && (forall i | 0 <= i < |rows| :: rows[i].idx == i + 1)
    && (forall i, j | 0 <= i < j < |rows| :: rows[i].xpub != rows[j].xpub)
  }

  /** A first start has made its three writes here. */
  ghost predicate Completed(dir: Dir) {
    && dir.config.Some?
    && RowsOk(dir.cosigners) && |dir.cosigners| >= MIN_COSIGNERS
    && 1 <= dir.config.value.thresholdColored <= |dir.cosigners|
    && 1 <= dir.config.value.thresholdVanilla <= |dir.cosigners|
    && dir.db.nextAddress.Some?
  }

  /** The configuration a completed directory stands for. */
  function Fixed(build: Build, dir: Dir): Config
    requires dir.config.Some?
  {
    Config(ByIdx(dir.cosigners), dir.config.value.thresholdVanilla, dir.config.value.thresholdColored,
           build.overflowChecks, build.digest)
  }

  lemma {:induction false} ByIdxAt(rows: seq<CosignerRow>, i: int)
    requires RowsOk(rows)
    ensures i in ByIdx(rows) <==> 1 <= i <= |rows|
    ensures 1 <= i <= |rows| ==> ByIdx(rows)[i] == rows[i - 1].xpub
    decreases |rows|
  {
    if rows != [] {
      var before, last := rows[..|rows| - 1], rows[|rows| - 1];
      ByIdxAt(before, i);
      assert ByIdx(rows) == ByIdx(before)[|rows| := last.xpub];
    }
  }

  lemma {:induction false} ByIdxSize(rows: seq<CosignerRow>)
    requires RowsOk(rows)
    ensures |ByIdx(rows)| == |rows|
    decreases |rows|
  {
    if rows != [] {
      var before, last := rows[..|rows| - 1], rows[|rows| - 1];
      ByIdxSize(before);
      ByIdxAt(before, |rows|);
      OneMoreKey(ByIdx(before), |rows|, last.xpub);
    }
  }

  lemma OneMoreKey(m: map<int, string>, k: int, x: string)
    requires k !in m
    ensures |m[k := x]| == |m| + 1
    ensures forall i :: i in m[k := x] <==> i in m || i == k
  {
  }

  /** The map holds exactly the pairs of xpub and number of the rows. */
  lemma {:induction false} ByXpubIs(rows: seq<CosignerRow>, x: string, i: int)
    requires RowsOk(rows)
    ensures x in ByXpub(rows) && ByXpub(rows)[x] == i <==> 1 <= i <= |rows| && rows[i - 1].xpub == x
    decreases |rows|
  {
    if rows != [] {
      var before, last := rows[..|rows| - 1], rows[|rows| - 1];
      ByXpubIs(before, x, i);
      assert ByXpub(rows) == ByXpub(before)[last.xpub := |rows|];
    }
  }

  /** The two maps are inverse to each other. */
  lemma MapsAreInverse(rows: seq<CosignerRow>, i: int, x: string)
    requires RowsOk(rows)
    ensures (i in ByIdx(rows) && ByIdx(rows)[i] == x) <==> (x in ByXpub(rows) && ByXpub(rows)[x] == i)
  {
    ByIdxAt(rows, i);
    ByXpubIs(rows, x, i);
  }

  lemma FixedIsSound(build: Build, dir: Dir)
    requires Completed(dir)
    ensures Fixed(build, dir).Sound()
  {
    hide ByIdx;
    var cfg, rows := Fixed(build, dir), dir.cosigners;
    ByIdxSize(rows);
    assert |cfg.Cosigners()| == |cfg.xpubs|;
    forall c, d | c in cfg.xpubs && d in cfg.xpubs && cfg.xpubs[c] == cfg.xpubs[d] ensures c == d {
      ByIdxAt(rows, c);
      ByIdxAt(rows, d);
    }
  }

  /** When the configuration file agrees with a completed directory. */
  predicate Agrees(dir: Dir, c: AppConfig) {
    && dir.config == Some(ConfigRow(c.thresholdColored, c.thresholdVanilla))
    && StoredXpubs(dir.cosigners) == XpubSet(c.cosignerXpubs)
  }

  /** A start on a completed directory changes nothing; it succeeds iff thresholds and xpub
      set agree, in any order of the xpubs, and then runs the configuration as fixed. */
  lemma RestartChangesNothing(build: Build, dir: Dir, c: AppConfig, writes: nat)
    requires Completed(dir)
    ensures Start(build, dir, c, writes).0 == dir
    ensures Start(build, dir, c, writes).1.Ok? <==> Agrees(dir, c)
    ensures Agrees(dir, c) ==> Start(build, dir, c, writes).1 == Ok(Fixed(build, dir))
    ensures !Agrees(dir, c) ==> Start(build, dir, c, writes).1 == Err(
              if dir.config.value == ConfigRow(c.thresholdColored, c.thresholdVanilla) then CannotChangeCosigners
              else CannotChangeThreshold)
  {
  }

  // ----- the first start -----

  /** Started once on an empty directory, and then again with the same configuration file:
      the second start serves requests, addresses included. */
  predicate Recovers(build: Build, c: AppConfig, writes: nat) {
    var dir := Start(build, EMPTY_DIR, c, writes).0;
    Start(build, dir, c, 3).1.Ok? && Start(build, dir, c, 3).0.db.nextAddress.Some?
  }

  /** A first start that dies after its first or second write leaves a directory that never
      serves fully, and so does one whose xpubs repeat once the first write is made. One
      that dies before writing anything, with distinct xpubs, can simply be repeated. */
  lemma FirstStartRecoversIff(build: Build, c: AppConfig, writes: nat)
    requires Validate(c).None?
    ensures Recovers(build, c, writes) <==> Distinct(c.cosignerXpubs) && (writes == 0 || writes >= 3)
    ensures Start(build, EMPTY_DIR, c, writes).1.Ok? <==> Distinct(c.cosignerXpubs) && writes >= 3
    ensures Start(build, EMPTY_DIR, c, writes).1 == Err(DatabaseError) <==>
              !Distinct(c.cosignerXpubs) && writes >= 2
    ensures Start(build, EMPTY_DIR, c, writes).1.Ok? ==>
              && Completed(Start(build, EMPTY_DIR, c, writes).0)
              && Start(build, EMPTY_DIR, c, writes).0.db == INITIAL_DB
              && Start(build, EMPTY_DIR, c, writes).1 == Ok(Fixed(build, Start(build, EMPTY_DIR, c, writes).0))
  {
    assert c.cosignerXpubs[0] in XpubSet(c.cosignerXpubs);
    XpubsStored(c.cosignerXpubs);
  }

  lemma XpubsStored(xpubs: seq<string>)
    ensures StoredXpubs(NewCosigners(xpubs)) == XpubSet(xpubs)
  {
    var rows := NewCosigners(xpubs);
    forall x ensures x in StoredXpubs(rows) <==> x in XpubSet(xpubs) {
      if x in XpubSet(xpubs) {
        var i :| 0 <= i < |xpubs| && xpubs[i] == x;
        assert rows[i] in rows;
      }
      if x in StoredXpubs(rows) {
        var r :| r in rows && r.xpub == x;
        var i :| 0 <= i < |rows| && rows[i] == r;
      }
    }
  }

  // ----- the life of a deployment -----

  datatype Event =
    | StartUp(c: AppConfig, writes: nat)   // with any configuration file
    | Serving(run: seq<L.Turn>)            // a period of service, at whose end the process is
                                           // gone, whatever its tasks were doing

  datatype Life = Life(dir: Dir, running: Option<Config>)

  ghost function Live(build: Build, life: Life, e: Event): Life {
    match e
    case StartUp(c, writes) =>
      if Validate(c).Some? then life.(running := None)
      else
        var (dir, result) := Start(build, life.dir, c, writes);
        Life(dir, if result.Ok? then Some(result.value) else None)
    case Serving(run) =>
      var idle := L.Idle(life.dir.db, life.dir.files);
      if life.running.None? || !L.Possible(life.running.value, idle, run) then life
      else
        var end := L.After(life.running.value, idle, run);
        Life(life.dir.(db := end.db, files := end.files), None)
  }

  ghost function LiveAll(build: Build, life: Life, events: seq<Event>): Life
    decreases |events|
  {
    if events == [] then life else LiveAll(build, Live(build, life, events[0]), events[1..])
  }

  /** A completed directory with valid tables and their files, and whoever runs on it runs
      the configuration it fixes. */
  ghost predicate Healthy(build: Build, cfg: Config, life: Life) {
    && Completed(life.dir) && Fixed(build, life.dir) == cfg
    && (life.running.Some? ==> life.running.value == cfg)
    && Valid(cfg, life.dir.db)
    && Integrity(cfg, life.dir.files) && Stored(life.dir.files, life.dir.db.opFiles)
  }

  /** What no event undoes. */
  ghost predicate Onwards(cfg: Config, before: Dir, after: Dir) {
    && after.config == before.config && after.cosigners == before.cosigners
    && Reaches(cfg, before.db, after.db) && FilesGrow(before.files, after.files)
  }

  lemma OnwardsTransitive(cfg: Config, a: Dir, b: Dir, c: Dir)
    requires Onwards(cfg, a, b) && Onwards(cfg, b, c)
    ensures Onwards(cfg, a, c)
  {
    hide Reaches;
    ReachesTransitive(cfg, a.db, b.db, c.db);
  }

  lemma ServingKeepsHealthy(build: Build, cfg: Config, life: Life, run: seq<L.Turn>)
    requires Healthy(build, cfg, life) && life.running == Some(cfg)
    requires L.Possible(cfg, L.Idle(life.dir.db, life.dir.files), run)
    ensures Healthy(build, cfg, Live(build, life, Serving(run)))
    ensures Onwards(cfg, life.dir, Live(build, life, Serving(run)).dir)
  {
    hide Valid, Reaches, L.After, L.Possible, L.Consistent, Integrity, Stored, RowsOk, ByIdx;
    var idle := L.Idle(life.dir.db, life.dir.files);
    L.StartsGood(cfg, life.dir.db, life.dir.files);
    L.RunsAreGood(cfg, life.dir.db, idle, run);
    L.CommittedTablesMoveOn(cfg, life.dir.db, idle, run);
    ReachesGrows(cfg, life.dir.db, L.After(cfg, idle, run).db);
    ValidIsSane(cfg, L.After(cfg, idle, run).db);
    AddressKnown(cfg, L.After(cfg, idle, run).db);
  }

  lemma LiveKeepsHealthy(build: Build, cfg: Config, life: Life, e: Event)
    requires Healthy(build, cfg, life)
    ensures Healthy(build, cfg, Live(build, life, e)) && Onwards(cfg, life.dir, Live(build, life, e).dir)
  {
    hide Valid, Reaches, Fixed, Start, Validate, Agrees, Integrity, Stored;
    ReachesReflexive(cfg, life.dir.db);
    match e
    case StartUp(c, writes) =>
      RestartChangesNothing(build, life.dir, c, writes);
    case Serving(run) =>
      if life.running.Some? && L.Possible(cfg, L.Idle(life.dir.db, life.dir.files), run) {
        ServingKeepsHealthy(build, cfg, life, run);
      }
  }

  /** After a completed first start: over any mix of restarts with arbitrary configuration
      files and periods of service, each cut short at any point of any interleaving, whenever
      the service runs it runs the thresholds and the numbered cosigners of the first start;
      the tables stay valid and move on by whole requests, and no file is lost. */
  lemma {:induction false} ConfigurationIsForLife(build: Build, cfg: Config, life: Life, events: seq<Event>)
    requires Healthy(build, cfg, life)
    ensures Healthy(build, cfg, LiveAll(build, life, events))
    ensures Onwards(cfg, life.dir, LiveAll(build, life, events).dir)
    decreases |events|
  {
    hide Healthy, Onwards, Live;
    if events != [] {
      var next := Live(build, life, events[0]);
      LiveKeepsHealthy(build, cfg, life, events[0]);
      ConfigurationIsForLife(build, cfg, next, events[1..]);
      OnwardsTransitive(cfg, life.dir, next.dir, LiveAll(build, life, events).dir);
    } else {
      OnwardsReflexive(cfg, life.dir);
    }
  }

  lemma OnwardsReflexive(cfg: Config, dir: Dir)
    ensures Onwards(cfg, dir, dir)
  {
    ReachesReflexive(cfg, dir.db);
  }

  /** The life that begins with one configuration file on an empty directory. */
  ghost function Deployed(build: Build, c: AppConfig): Life {
    Live(build, Life(EMPTY_DIR, None), StartUp(c, 3))
  }

  lemma DeployedIsHealthy(build: Build, c: AppConfig)
    requires Validate(c).None? && Distinct(c.cosignerXpubs)
    requires ConfigFits(Running(build, c, NewCosigners(c.cosignerXpubs)))
    ensures Healthy(build, Running(build, c, NewCosigners(c.cosignerXpubs)), Deployed(build, c))
    ensures Deployed(build, c).dir.db == INITIAL_DB
  {
    hide ByIdx, Shaped, A.Inv, Config.Sound;
    FirstStartRecoversIff(build, c, 3);
    FixedIsSound(build, Deployed(build, c).dir);
    InitialDbValid(Running(build, c, NewCosigners(c.cosignerXpubs)));
  }

  /** The xpub at position `k` of the configuration file belongs to cosigner `k + 1`. */
  predicate NumberedAs(byIdx: map<int, string>, xpubs: seq<string>, k: nat)
    requires k < |xpubs|
  {
    k + 1 in byIdx && byIdx[k + 1] == xpubs[k]
  }

  /** From the beginning: one configuration file starts an empty directory, and whatever
      follows, it alone decides the thresholds and the cosigner of each number. */
  lemma DeploymentIsForLife(build: Build, c: AppConfig, events: seq<Event>)
    requires Validate(c).None? && Distinct(c.cosignerXpubs)
    requires ConfigFits(Running(build, c, NewCosigners(c.cosignerXpubs)))
    ensures var cfg := Running(build, c, NewCosigners(c.cosignerXpubs));
            var after := LiveAll(build, Deployed(build, c), events);
            && cfg.Sound()
            && (after.running.Some? ==> after.running.value == cfg)
            && cfg.thresholdVanilla == c.thresholdVanilla && cfg.thresholdColored == c.thresholdColored
            && cfg.overflowChecks == build.overflowChecks && cfg.digest == build.digest
            && (forall i :: i in cfg.xpubs <==> 1 <= i <= |c.cosignerXpubs|)
            && Valid(cfg, after.dir.db) && Reaches(cfg, INITIAL_DB, after.dir.db)
            && (forall k | 0 <= k < |c.cosignerXpubs| :: NumberedAs(cfg.xpubs, c.cosignerXpubs, k))
  {
    var cfg := Running(build, c, NewCosigners(c.cosignerXpubs));
    DeployedIsHealthy(build, c);
    ConfigurationIsForLife(build, cfg, Deployed(build, c), events);
    hide Sane, Completed, Deployed, LiveAll, Reaches, ByIdx, Fixed, Validate, ConfigFits, Config.Sound, RowsOk;
    SoundWhenValid(cfg, Deployed(build, c).dir.db);
    Numbered(c.cosignerXpubs);
  }

  lemma SoundWhenValid(cfg: Config, db: Db)
    requires Valid(cfg, db)
    ensures cfg.Sound()
  {
  }

  lemma Numbered(xpubs: seq<string>)
    requires Distinct(xpubs)
    ensures forall k | 0 <= k < |xpubs| :: NumberedAs(ByIdx(NewCosigners(xpubs)), xpubs, k)
    ensures forall i :: i in ByIdx(NewCosigners(xpubs)) <==> 1 <= i <= |xpubs|
  {
    hide ByIdx;
    forall i ensures i in ByIdx(NewCosigners(xpubs)) <==> 1 <= i <= |xpubs| {
      ByIdxAt(NewCosigners(xpubs), i);
    }
    forall k | 0 <= k < |xpubs| ensures NumberedAs(ByIdx(NewCosigners(xpubs)), xpubs, k) {
      ByIdxAt(NewCosigners(xpubs), k + 1);
    }
  }

  // ----- directories whose first start was cut short -----

  /** Only the configuration row was written. */
  ghost predicate Bricked(dir: Dir) {
    dir.config.Some? && dir.cosigners == []
  }

  /** The cosigners were written too, but not the address row. */
  ghost predicate Addressless(life: Life) {
    life.dir.config.Some? && life.dir.db.nextAddress.None?
  }

  /** No configuration file that validates ever starts a bricked directory. */
  lemma BrickedForGood(build: Build, dir: Dir, c: AppConfig, writes: nat)
    requires Bricked(dir) && Validate(c).None?
    ensures Start(build, dir, c, writes).0 == dir && Start(build, dir, c, writes).1.Err?
  {
    assert c.cosignerXpubs[0] in XpubSet(c.cosignerXpubs);
    assert StoredXpubs([]) == {};
  }

  lemma {:induction false} AddresslessRun(cfg: Config, db: Db, calls: seq<Call>)
    requires db.nextAddress.None?
    ensures ExecAll(cfg, db, calls).nextAddress.None?
    decreases |calls|
  {
    hide Exec;
    if calls != [] {
      AddresslessStep(cfg, db, calls[0]);
      AddresslessRun(cfg, Exec(cfg, db, calls[0]).0, calls[1..]);
    }
  }

  lemma AddresslessServing(cfg: Config, db: Db, files: map<FileId, Bytes>, run: seq<L.Turn>)
    requires db.nextAddress.None? && L.Possible(cfg, L.Idle(db, files), run)
    ensures L.After(cfg, L.Idle(db, files), run).db.nextAddress.None?
  {
    L.RunsAreConsistent(cfg, db, L.Idle(db, files), run);
    hide L.After, L.Possible;
    AddresslessRun(cfg, db, L.Calls(L.After(cfg, L.Idle(db, files), run).log));
  }

  /** Without an address row, whatever happens, there is never one, and every bump of a
      nonzero count panics. */
  lemma {:induction false} AddresslessForGood(build: Build, life: Life, events: seq<Event>, call: Call)
    requires Addressless(life) && call.BumpAddressIndices? && call.count > 0
    ensures var after := LiveAll(build, life, events);
            && Addressless(after)
            && (after.running.Some? ==> Exec(after.running.value, after.dir.db, call).1 == Refused(Panic))
    decreases |events|
  {
    if events != [] {
      AddresslessLive(build, life, events[0]);
      AddresslessForGood(build, Live(build, life, events[0]), events[1..], call);
    }
  }

  lemma AddresslessLive(build: Build, life: Life, e: Event)
    requires Addressless(life)
    ensures Addressless(Live(build, life, e))
  {
    hide L.After, L.Possible;
    if e.Serving? && life.running.Some? && L.Possible(life.running.value, L.Idle(life.dir.db, life.dir.files), e.run) {
      AddresslessServing(life.running.value, life.dir.db, life.dir.files, e.run);
    }
  }

  lemma AddresslessStep(cfg: Config, db: Db, call: Call)
    requires db.nextAddress.None?
    ensures Exec(cfg, db, call).0.nextAddress.None?
  {
    match call
    case BumpAddressIndices(_, _) =>
    case PutTransferStatus(_, _, _, _) => TransferEffect(cfg, db, call);
    case _ => Registers.OperationsKeepRegisters(cfg, db, call);
  }
}
