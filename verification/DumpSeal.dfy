/**
 * The dump-and-seal protocol of one database workload.
 *
 * A database is exported, its export is stored (or found pristine or
 * unchanged), the server stops, and the dump state is sealed with the
 * fingerprint of pg_control. Scheduling, coverage and eviction then trust
 * DumpCurrent. This module gives the state, every step that the manager, the
 * clients and the host can take, and the invariant that makes the trust sound.
 */
module DumpSeal {
  import opened Common

  /** Logical contents of a database; contentHash is injective on it. */
  type Content = nat

  /** A fingerprint of pg_control: a new one after every rewrite of the file. */
  type Token = nat

  type BackupId = nat

  /** The stored exports of one workload by id; ids are times, so a larger id is newer. */
  type Archives = map<BackupId, Content>

  /** What the last dump left in the data dir (.orchd-dump.json). */
  datatype DumpState = DumpState(at: int, content: Content, pristine: bool,
                                 backupId: Option<BackupId>, pgControl: Option<Token>)

  /** Where the holder of the workload's lock is between two of its steps. */
  datatype Job =
    | Idle
    | Exported(man: Content, at: int, offline: bool, force: bool, reap: bool)
    | ToSeal(reap: bool)   // an offline dump is recorded, its seal comes next
    | ToSuspend            // the idle-time dump is recorded, the suspend comes next
    | Stopped              // suspended after its dump, the seal comes next

  /** seed: contents that hold only migrations and seed; empty: a new cluster; keep: BackupRetain. */
  datatype Config = Config(seed: set<Content>, empty: Content, keep: nat)

  /**
   * The box's view of one database. The last fields are history, read by no
   * step: deleted holds the backups removed by hand, tainted says that a client
   * wrote between an idle-time export and the stop, torn that a backup was
   * stored but its dump state could not be written, hist the contents at every
   * instant something happened (the present one last), and asOf the instant of
   * the export that the dump state records.
   */
  datatype Db = Db(
    content: Content, running: bool, pg: Option<Token>, nextPg: Token,
    pending: Option<Content>, dump: Option<DumpState>,
    archives: Archives, nextId: BackupId, job: Job, now: int,
    deleted: set<BackupId>, tainted: bool, torn: bool, hist: seq<Sample>, asOf: int)

  /** seen is the runtime's answer to Status, which reports a server it cannot ask about as stopped. */
  datatype Event =
    | Tick(later: int)
    | Write(c: Content)
    | Checkpoint
    | Crash
    | Wake(ran: bool, up: bool)
    | Suspend(err: bool, stopped: bool, rewrote: bool)
    | Export(seen: bool, force: bool, reap: bool, ok: bool, ran: bool, loaded: bool)
    | Store(now: int, listOk: bool, putOk: bool, retainOk: bool, writeOk: bool)
    | Seal(writeOk: bool)
    | Wipe
    | PlaceRestore(c: Content)
    | RestoreTar(c: Content, archived: Token)
    | DeleteBackup(id: BackupId)
    | RestartOrchd

  predicate DumpCurrent(db: Db) {
    && db.dump.Some? && db.dump.value.pgControl.Some?
    && db.pg == db.dump.value.pgControl
  }

  /** The archives of a newer than id. */
  function Newer(a: Archives, id: BackupId): set<BackupId> {
    set j | j in a && j > id
  }

  /** Retention: the newest keep archives. */
  function Retain(a: Archives, keep: nat): Archives {
    map id | id in a && |Newer(a, id)| < keep :: a[id]
  }

  /** kept holds archives of a, the newest of them, and n of them or all. */
  ghost predicate IsNewest(a: Archives, kept: Archives, n: nat) {
    && (forall id :: id in kept ==> id in a && kept[id] == a[id])
    && (forall id, j :: id in kept && j in a && j !in kept ==> j < id)
    && |kept| == if |a| <= n then |a| else n
  }

  /** Retention leaves the newest archives, keep of them if there are as many. */
  lemma {:induction false} RetainKeepsTheNewest(a: Archives, keep: nat)
    ensures IsNewest(a, Retain(a, keep), keep)
    decreases |a|
  {
    if |a| <= keep {
      forall id | id in a ensures |Newer(a, id)| < keep {
        FewerThan(Newer(a, id), a.Keys, id);
      }
      assert Retain(a, keep) == a;
    } else {
      var m := Oldest(a);
      var rest := a - {m};
      assert rest.Keys == a.Keys - {m} && |rest.Keys| == |a.Keys| - 1 && |rest| == |rest.Keys|;
      assert Newer(a, m) == rest.Keys;
      forall id | id in rest ensures Newer(a, id) == Newer(rest, id) {}
      assert Retain(a, keep) == Retain(rest, keep);
      RetainKeepsTheNewest(rest, keep);
    }
  }

  lemma FewerThan(s: set<BackupId>, all: set<BackupId>, x: BackupId)
    requires s <= all && x in all && x !in s
    ensures |s| < |all|
  {
    assert all == s + (all - s) && x in all - s;
  }

  lemma {:induction false} Oldest(a: Archives) returns (m: BackupId)
    requires |a| > 0
    ensures m in a && forall id :: id in a ==> m <= id
    decreases |a|
  {
    assert a.Keys != {};
    m :| m in a;
    if j :| j in a && j < m {
      var rest := a - {m};
      assert rest.Keys == a.Keys - {m} && |rest.Keys| == |a.Keys| - 1 && |rest| == |rest.Keys|;
      assert j in rest;
      var m0 := m;
      m := Oldest(rest);
      assert m <= j < m0 && forall id :: id in a ==> id == m0 || id in rest;
    }
  }

  /** The server starts on the data dir: pg_control is rewritten, a pending restore may be loaded. */
  function ServerRan(cfg: Config, db: Db, loaded: bool): Db {
    var c := if loaded && db.pending.Some? then db.pending.value
             else if db.pg.None? then cfg.empty else db.content;
    db.(content := c, pending := if loaded then None else db.pending,
        pg := Some(db.nextPg), nextPg := db.nextPg + 1)
  }

  /** The export thinks a running server is stopped. */
  predicate Missed(db: Db, e: Event) { e.Export? && !e.seen && db.running }

  /**
   * A server seen running is exported in place. Else one is started on the data
   * dir; if another runs there already, the best that can happen is that the
   * export reads its contents and both go on.
   */
  function AfterExport(cfg: Config, db: Db, e: Event): Db
    requires e.Export?
  {
    if e.seen then
      if db.running && e.ok then
        db.(job := Exported(db.content, db.now, false, e.force, e.reap), tainted := false)
      else db
    else
      var d := if !e.ok && !e.ran then db
               else if db.running then db.(pg := Some(db.nextPg), nextPg := db.nextPg + 1)
               else ServerRan(cfg, db, e.loaded);
      if e.ok then d.(job := Exported(d.content, db.now, true, e.force, e.reap), tainted := false) else d
  }

  predicate Unchanged(db: Db, man: Content, listOk: bool) {
    && db.dump.Some? && db.dump.value.content == man && db.dump.value.backupId.Some?
    && listOk && db.dump.value.backupId.value in db.archives
  }

  /** The export must be stored: forced, or neither pristine nor what the last stored backup holds. */
  predicate PutNeeded(cfg: Config, db: Db, listOk: bool)
    requires db.job.Exported?
  {
    db.job.force || !(db.job.man in cfg.seed || Unchanged(db, db.job.man, listOk))
  }

  function JobAfterStore(j: Job): Job
    requires j.Exported?
  {
    if j.offline then ToSeal(j.reap) else if j.reap then ToSuspend else Idle
  }

  /** writeDumpState, after a Put or not. */
  function Recorded(db: Db, st: DumpState, put: bool, writeOk: bool): Db
    requires db.job.Exported?
  {
    if writeOk then db.(dump := Some(st), asOf := db.job.at, job := JobAfterStore(db.job),
                        torn := db.torn && !put && st.backupId.Some?)
    else db.(job := Idle, torn := db.torn || put)
  }

  function AfterStore(cfg: Config, db: Db, e: Event): Db
    requires e.Store? && db.job.Exported?
  {
    StoreNow(cfg, Stamped(db, e.now), e)
  }

  /** The clock read, with the history of that instant. */
  function Stamped(db: Db, now: int): Db {
    if now == db.now then db else db.(now := now, hist := db.hist + [Sample(now, db.content)])
  }

  /** storeDump, from the instant it stamps the dump with. */
  function StoreNow(cfg: Config, db: Db, e: Event): Db
    requires e.Store? && db.job.Exported?
  {
    var man := db.job.man;
    var st := DumpState(e.now, man, man in cfg.seed, None, None);
    if st.pristine && !db.job.force then
      Recorded(db, st, false, e.writeOk)
    else if !db.job.force && Unchanged(db, man, e.listOk) then
      Recorded(db, st.(backupId := db.dump.value.backupId), false, e.writeOk)
    else if !e.putOk then db.(job := Idle)
    else Recorded(WithBackup(cfg, db, man, e.retainOk), st.(backupId := Some(db.nextId)), true, e.writeOk)
  }

  /** A new archive is put, and retention applied. */
  function WithBackup(cfg: Config, db: Db, man: Content, retainOk: bool): Db {
    var all := db.archives[db.nextId := man];
    db.(archives := if retainOk then Retain(all, cfg.keep) else all, nextId := db.nextId + 1)
  }

  /** The new archive is the newest, and it stays unless retention keeps none. */
  lemma NewBackup(cfg: Config, db: Db, man: Content, retainOk: bool)
    requires IdsUsed(db)
    ensures var d := WithBackup(cfg, db, man, retainOk);
      && IdsUsed(d) && Newer(d.archives, db.nextId) == {}
      && (db.nextId in d.archives <==> cfg.keep >= 1 || !retainOk)
      && (forall id :: id in d.archives && id != db.nextId ==> id in db.archives && d.archives[id] == db.archives[id])
      && (db.nextId in d.archives ==> d.archives[db.nextId] == man)
  {
    assert Newer(db.archives[db.nextId := man], db.nextId) == {};
  }

  function AfterSeal(db: Db, writeOk: bool): Db
    requires db.job.ToSeal? || db.job.Stopped?
  {
    if db.dump.None? || db.pg.None? || !writeOk then db.(job := Idle)
    else db.(dump := Some(db.dump.value.(pgControl := db.pg)),
             job := if db.job.ToSeal? && db.job.reap then ToSuspend else Idle)
  }

  function AfterSuspend(db: Db, e: Event): Db
    requires e.Suspend?
  {
    var d := if !db.running || (e.err && !e.stopped) then db
             else if e.rewrote then db.(running := false, pg := Some(db.nextPg), nextPg := db.nextPg + 1)
             else db.(running := false);
    if db.job.ToSuspend? then d.(job := if e.err then Idle else Stopped) else d
  }

  /** Client writes between an idle-time export and the stop are what the seal cannot see. */
  predicate InWindow(db: Db) {
    (db.job.Exported? && db.job.reap) || db.job.ToSuspend?
  }

  predicate Enabled(db: Db, e: Event) {
    match e
    case Tick(later) => later >= db.now
    case Write(_) => db.running
    case Checkpoint => db.running
    case Crash => db.running
    case Wake(_, _) => db.job.Idle?
    case Suspend(_, _, _) => db.job.Idle? || db.job.ToSuspend?
    case Export(_, _, _, _, _, _) => db.job.Idle?
    case Store(now, _, _, _, _) => db.job.Exported? && now >= db.now
    case Seal(_) => db.job.ToSeal? || db.job.Stopped?
    case Wipe => db.job.Idle?
    case PlaceRestore(_) => db.job.Idle? && db.dump.None? && db.pg.None? && !db.running
    case RestoreTar(_, t) => db.job.Idle? && db.dump.None? && db.pg.None? && !db.running && t < db.nextPg
    case DeleteBackup(id) => id in db.archives
    case RestartOrchd => true
  }

  function Do(cfg: Config, db: Db, e: Event): Db
    requires Enabled(db, e)
  {
    match e
    case Tick(later) => db.(now := later)
    case Write(c) => db.(content := c, tainted := db.tainted || (InWindow(db) && c != db.content))
    case Checkpoint => db.(pg := Some(db.nextPg), nextPg := db.nextPg + 1)
    case Crash => db.(running := false)
    case Wake(ran, up) => if db.running || !ran then db else ServerRan(cfg, db, true).(running := up)
    case Suspend(_, _, _) => AfterSuspend(db, e)
    case Export(_, _, _, _, _, _) => AfterExport(cfg, db, e)
    case Store(_, _, _, _, _) => AfterStore(cfg, db, e)
    case Seal(writeOk) => AfterSeal(db, writeOk)
    case Wipe => db.(content := cfg.empty, running := false, pg := None, dump := None, pending := None,
                     tainted := false, torn := false)
    case PlaceRestore(c) => db.(pending := Some(c))
    case RestoreTar(c, t) => db.(content := c, pg := Some(t))
    case DeleteBackup(id) => db.(archives := db.archives - {id}, deleted := db.deleted + {id})
    case RestartOrchd => db.(job := Idle)
  }

  /** One step, with the history it leaves; an event that cannot happen here changes nothing. */
  function Next(cfg: Config, db: Db, e: Event): Db {
    if !Enabled(db, e) then db
    else
      var d := Do(cfg, db, e);
      if e.Store? || (d.now == db.now && d.content == db.content) then d else d.(hist := d.hist + [Sample(d.now, d.content)])
  }

  function Run(cfg: Config, db: Db, es: seq<Event>): Db
    decreases |es|
  {
    if es == [] then db else Run(cfg, Next(cfg, db, es[0]), es[1..])
  }

  /** No client write changes the database inside the window of an idle-time dump. */
  predicate Quiet(cfg: Config, db: Db, es: seq<Event>)
    decreases |es|
  {
    es == [] ||
    (&& !(es[0].Write? && Enabled(db, es[0]) && InWindow(db) && es[0].c != db.content)
     && Quiet(cfg, Next(cfg, db, es[0]), es[1..]))
  }

  /** No export misses a running server. */
  predicate Honest(cfg: Config, db: Db, es: seq<Event>)
    decreases |es|
  {
    es == [] || (!Missed(db, es[0]) && Honest(cfg, Next(cfg, db, es[0]), es[1..]))
  }

  // ---------------------------------------------------------------- invariant

  ghost predicate IdsUsed(db: Db) {
    (forall id :: id in db.archives ==> id < db.nextId) && (forall id :: id in db.deleted ==> id < db.nextId)
  }

  ghost predicate TokensUsed(db: Db) {
    && (db.pg.Some? ==> db.pg.value < db.nextPg)
    && (db.dump.Some? && db.dump.value.pgControl.Some? ==> db.dump.value.pgControl.value < db.nextPg)
  }

  /** The recorded dump speaks the truth about seeds and about the backup it names. */
  ghost predicate Truthful(cfg: Config, db: Db) {
    db.dump.Some? ==>
      var d := db.dump.value;
      && d.pristine == (d.content in cfg.seed)
      && (d.backupId.None? ==> d.pristine)
      && (d.backupId.Some? ==>
        && d.backupId.value < db.nextId
        && (d.backupId.value in db.archives ==> db.archives[d.backupId.value] == d.content))
  }

  /** The dump needs no backup, or its backup is in the store, or someone deleted it by hand. */
  ghost predicate Backed(db: Db) {
    && db.dump.Some?
    && match db.dump.value.backupId
       case None => db.dump.value.pristine
       case Some(id) => id in db.archives || id in db.deleted
  }

  ghost predicate NewestNamed(db: Db) {
    db.dump.Some? && db.dump.value.backupId.Some? && !db.torn ==>
      var id := db.dump.value.backupId.value;
      id in db.deleted || (id in db.archives && Newer(db.archives, id) == {})
  }

  ghost predicate JobTruth(db: Db) {
    match db.job
    case Idle => true
    case Exported(man, _, offline, _, reap) =>
      !DumpCurrent(db) && (offline ==> !db.running) && (offline || (reap && !db.tainted) ==> db.content == man)
    case ToSeal(_) => Backed(db) && !db.running && db.content == db.dump.value.content
    case ToSuspend => Backed(db) && (!db.tainted ==> db.content == db.dump.value.content)
    case Stopped => Backed(db) && !db.running && (!db.tainted ==> db.content == db.dump.value.content)
  }

  ghost predicate Inv(cfg: Config, db: Db) {
    && IdsUsed(db) && TokensUsed(db) && Truthful(cfg, db) && NewestNamed(db) && JobTruth(db)
    && (db.dump.Some? ==> Backed(db) || db.torn)
    && (db.running ==> db.pg.Some? && !DumpCurrent(db))
    && (DumpCurrent(db) ==> Backed(db) && (!db.tainted ==> db.content == db.dump.value.content))
  }

  /** A box that has never dumped this database, with whatever older archives it already has. */
  ghost predicate Init(db: Db) {
    && db.job.Idle? && db.dump.None? && db.deleted == {} && !db.tainted && !db.torn
    && IdsUsed(db) && TokensUsed(db) && (db.running ==> db.pg.Some?) && db.hist == [Sample(db.now, db.content)]
  }

  /** A dump state that tells the truth about the export and its backup can be recorded. */
  lemma InvRecorded(cfg: Config, db: Db, st: DumpState, writeOk: bool)
    requires Inv(cfg, db) && db.job.Exported?
    requires st.content == db.job.man && st.pristine == (st.content in cfg.seed) && st.pgControl.None?
    requires match st.backupId
             case None => st.pristine
             case Some(id) =>
               && id in db.archives && db.archives[id] == st.content
               && db.dump.Some? && db.dump.value.backupId == st.backupId
    ensures Inv(cfg, Recorded(db, st, false, writeOk))
  {}

  lemma InvStorePut(cfg: Config, db: Db, e: Event)
    requires cfg.keep >= 1 && Inv(cfg, db) && e.Store? && Enabled(db, e) && e.putOk
    requires PutNeeded(cfg, db, e.listOk)
    ensures Inv(cfg, Do(cfg, db, e))
  {
    var t := Stamped(db, e.now);
    InvStamped(cfg, db, e.now);
    NewBackup(cfg, t, db.job.man, e.retainOk);
    var st := DumpState(e.now, db.job.man, db.job.man in cfg.seed, Some(db.nextId), None);
    InvRecordedPut(cfg, t, WithBackup(cfg, t, db.job.man, e.retainOk), st, e.writeOk);
  }

  /** If the write fails, the dump state still names an older backup, which retention may drop: torn says so. */
  lemma InvRecordedPut(cfg: Config, db: Db, d: Db, st: DumpState, writeOk: bool)
    requires Inv(cfg, db) && db.job.Exported? && d == db.(archives := d.archives, nextId := db.nextId + 1)
    requires IdsUsed(d) && st.backupId == Some(db.nextId) && st.content == db.job.man
    requires st.pristine == (st.content in cfg.seed) && st.pgControl.None?
    requires db.nextId in d.archives && d.archives[db.nextId] == st.content && Newer(d.archives, db.nextId) == {}
    requires forall id :: id in d.archives && id != db.nextId ==> id in db.archives && d.archives[id] == db.archives[id]
    ensures Inv(cfg, Recorded(d, st, true, writeOk))
  {}

  lemma InvStoreKept(cfg: Config, db: Db, e: Event)
    requires Inv(cfg, db) && e.Store? && Enabled(db, e)
    requires !PutNeeded(cfg, db, e.listOk) || !e.putOk
    ensures Inv(cfg, Do(cfg, db, e))
  {
    var t := Stamped(db, e.now);
    InvStamped(cfg, db, e.now);
    var st := DumpState(e.now, db.job.man, db.job.man in cfg.seed, None, None);
    if PutNeeded(cfg, db, e.listOk) {
      InvGivenUp(cfg, t);
    } else if st.pristine {
      InvRecorded(cfg, t, st, e.writeOk);
    } else {
      InvRecorded(cfg, t, st.(backupId := db.dump.value.backupId), e.writeOk);
    }
  }

  lemma InvStamped(cfg: Config, db: Db, now: int)
    requires Inv(cfg, db)
    ensures Inv(cfg, Stamped(db, now))
  {}

  lemma InvGivenUp(cfg: Config, db: Db)
    requires Inv(cfg, db)
    ensures Inv(cfg, db.(job := Idle))
  {}

  lemma InvDelete(cfg: Config, db: Db, e: Event)
    requires Inv(cfg, db) && e.DeleteBackup? && Enabled(db, e)
    ensures Inv(cfg, Do(cfg, db, e))
  {
    if db.dump.Some? && db.dump.value.backupId.Some? {
      var id := db.dump.value.backupId.value;
      assert Newer(db.archives - {e.id}, id) <= Newer(db.archives, id);
    }
  }

  lemma InvSuspend(cfg: Config, db: Db, e: Event)
    requires Inv(cfg, db) && e.Suspend? && Enabled(db, e)
    ensures Inv(cfg, Do(cfg, db, e))
  {}

  lemma InvExport(cfg: Config, db: Db, e: Event)
    requires Inv(cfg, db) && e.Export? && Enabled(db, e) && !Missed(db, e)
    ensures Inv(cfg, Do(cfg, db, e))
  {}

  lemma InvSeal(cfg: Config, db: Db, e: Event)
    requires Inv(cfg, db) && e.Seal? && Enabled(db, e)
    ensures Inv(cfg, Do(cfg, db, e))
  {}

  lemma InvOther(cfg: Config, db: Db, e: Event)
    requires Inv(cfg, db) && !(e.Store? || e.DeleteBackup? || e.Suspend? || e.Export? || e.Seal?) && Enabled(db, e)
    ensures Inv(cfg, Do(cfg, db, e))
  {}

  lemma InvIgnoresHistory(cfg: Config, db: Db, hist: seq<Sample>)
    requires Inv(cfg, db)
    ensures Inv(cfg, db.(hist := hist))
  {}

  /** Every step but the export of a missed server keeps the invariant. */
  lemma InvStep(cfg: Config, db: Db, e: Event)
    requires cfg.keep >= 1 && Inv(cfg, db) && !Missed(db, e)
    ensures Inv(cfg, Next(cfg, db, e))
  {
    if Enabled(db, e) {
      match e {
        case Store(_, listOk, putOk, _, _) =>
          if PutNeeded(cfg, db, listOk) && putOk { InvStorePut(cfg, db, e); } else { InvStoreKept(cfg, db, e); }
        case DeleteBackup(_) => InvDelete(cfg, db, e);
        case Suspend(_, _, _) => InvSuspend(cfg, db, e);
        case Export(_, _, _, _, _, _) => InvExport(cfg, db, e);
        case Seal(_) => InvSeal(cfg, db, e);
        case _ => InvOther(cfg, db, e);
      }
      var d := Do(cfg, db, e);
      InvIgnoresHistory(cfg, d, d.hist + [Sample(d.now, d.content)]);
    }
  }

  // ------------------------------------------------------------ main results

  lemma {:induction false} InvRun(cfg: Config, db: Db, es: seq<Event>)
    requires cfg.keep >= 1 && Inv(cfg, db) && Honest(cfg, db, es)
    ensures Inv(cfg, Run(cfg, db, es))
    decreases |es|
  {
    if es != [] {
      InvStep(cfg, db, es[0]);
      InvRun(cfg, Next(cfg, db, es[0]), es[1..]);
    }
  }

  lemma {:induction false} QuietRunsStayUntainted(cfg: Config, db: Db, es: seq<Event>)
    requires !db.tainted && Quiet(cfg, db, es)
    ensures !Run(cfg, db, es).tainted
    decreases |es|
  {
    if es != [] {
      QuietStep(cfg, db, es[0]);
      QuietRunsStayUntainted(cfg, Next(cfg, db, es[0]), es[1..]);
    }
  }

  lemma QuietStep(cfg: Config, db: Db, e: Event)
    requires !db.tainted && !(e.Write? && Enabled(db, e) && InWindow(db) && e.c != db.content)
    ensures !Next(cfg, db, e).tainted
  {
    if e.Store? && Enabled(db, e) { StoreRecords(cfg, db, e); }
  }

  /** The recorded contents can be rebuilt: from the seed, or from the backup the dump names. */
  ghost predicate Rebuildable(cfg: Config, db: Db) {
    && db.dump.Some?
    && match db.dump.value.backupId
       case None => db.dump.value.content in cfg.seed
       case Some(id) => id in db.archives && db.archives[id] == db.dump.value.content
  }

  /** The same, where a backup that someone removed by hand is their loss. */
  ghost predicate Recoverable(cfg: Config, db: Db) {
    Rebuildable(cfg, db) || NamedDeleted(db)
  }

  predicate NamedDeleted(db: Db) {
    db.dump.Some? && db.dump.value.backupId.Some? && db.dump.value.backupId.value in db.deleted
  }

  /**
   * In every run in which no export misses a running server, a current dump
   * records contents that are recoverable, and they are the database's contents
   * unless a client wrote inside the window.
   */
  lemma SealIsSound(cfg: Config, start: Db, es: seq<Event>)
    requires cfg.keep >= 1 && Init(start) && Honest(cfg, start, es)
    ensures var db := Run(cfg, start, es);
      DumpCurrent(db) ==> Recoverable(cfg, db) && (db.content == db.dump.value.content || db.tainted)
  {
    InvRun(cfg, start, es);
  }

  /** With no write inside a window either, a current dump is the database's exact present contents. */
  lemma QuietSealIsExact(cfg: Config, start: Db, es: seq<Event>)
    requires cfg.keep >= 1 && Init(start) && Honest(cfg, start, es) && Quiet(cfg, start, es)
    ensures var db := Run(cfg, start, es);
      DumpCurrent(db) ==> db.content == db.dump.value.content && Recoverable(cfg, db)
  {
    SealIsSound(cfg, start, es);
    QuietRunsStayUntainted(cfg, start, es);
  }

  /** The idle-time sequence of one workload with the client writes ws inside its window. */
  function ReapEvents(now: int, ws: seq<Content>): seq<Event> {
    [Export(true, false, true, true, true, false), Store(now, true, true, true, true)]
    + Writes(ws) + [Suspend(false, true, true), Seal(true)]
  }

  function Writes(ws: seq<Content>): seq<Event> { seq(|ws|, i requires 0 <= i < |ws| => Write(ws[i])) }

  lemma {:induction false} RunAppend(cfg: Config, db: Db, a: seq<Event>, b: seq<Event>)
    ensures Run(cfg, db, a + b) == Run(cfg, Run(cfg, db, a), b)
    decreases |a|
  {
    if a == [] {
      assert a + b == b;
    } else {
      assert (a + b)[1..] == a[1..] + b;
      RunAppend(cfg, Next(cfg, db, a[0]), a[1..], b);
    }
  }

  lemma RunTwo(cfg: Config, db: Db, a: Event, b: Event)
    ensures Run(cfg, db, [a, b]) == Next(cfg, Next(cfg, db, a), b)
  {
    assert [a, b][1..] == [b];
    assert [b][1..] == [];
    assert Run(cfg, db, [a, b]) == Run(cfg, Next(cfg, db, a), [b]);
  }

  lemma RunThree(cfg: Config, db: Db, a: Event, b: Event, c: Event)
    ensures Run(cfg, db, [a, b, c]) == Next(cfg, Next(cfg, Next(cfg, db, a), b), c)
  {
    assert [a, b, c][1..] == [b, c];
    RunTwo(cfg, Next(cfg, db, a), b, c);
  }

  function LastOr(ws: seq<Content>, c: Content): Content {
    if ws == [] then c else ws[|ws| - 1]
  }

  /** Equal in everything a step reads, and in whether the window was written to. */
  predicate SameBut(d: Db, db: Db, c: Content) {
    d.(tainted := false, hist := []) == db.(content := c, tainted := false, hist := [])
  }

  lemma {:induction false} RunWrites(cfg: Config, db: Db, ws: seq<Content>)
    requires db.running && db.job.ToSuspend?
    ensures SameBut(Run(cfg, db, Writes(ws)), db, LastOr(ws, db.content))
    decreases |ws|
  {
    if ws != [] {
      assert Writes(ws)[1..] == Writes(ws[1..]);
      RunWrites(cfg, Next(cfg, db, Write(ws[0])), ws[1..]);
    }
  }

  /** The first two steps of a reap record the exported contents. */
  lemma ReapRecords(cfg: Config, db: Db, now: int)
    requires Inv(cfg, db) && cfg.keep >= 1 && db.running && db.job.Idle? && now >= db.now
    ensures var d := Run(cfg, db, [Export(true, false, true, true, true, false), Store(now, true, true, true, true)]);
      d.running && d.job.ToSuspend? && d.content == db.content && d.dump.Some? && d.dump.value.content == db.content
  {
    RunTwo(cfg, db, Export(true, false, true, true, true, false), Store(now, true, true, true, true));
  }

  /** The last two seal them, whatever the database holds by then. */
  lemma ReapSeals(cfg: Config, db: Db)
    requires db.running && db.job.ToSuspend? && db.dump.Some?
    ensures var d := Run(cfg, db, [Suspend(false, true, true), Seal(true)]);
      DumpCurrent(d) && d.content == db.content && d.dump.value.content == db.dump.value.content
  {
    RunTwo(cfg, db, Suspend(false, true, true), Seal(true));
  }

  /**
   * The exact condition: after an idle-time dump, suspend and seal that all
   * succeed, the dump is current, and it holds the database's contents if and
   * only if the last write in the window left what was exported.
   */
  lemma ReapIsExactIffWindowQuiet(cfg: Config, db: Db, now: int, ws: seq<Content>)
    requires Inv(cfg, db) && cfg.keep >= 1 && db.running && db.job.Idle? && now >= db.now
    ensures var d := Run(cfg, db, ReapEvents(now, ws));
      && DumpCurrent(d) && d.content == LastOr(ws, db.content) && d.dump.value.content == db.content
      && (d.content == d.dump.value.content <==> ws == [] || ws[|ws| - 1] == db.content)
  {
    var pre := [Export(true, false, true, true, true, false), Store(now, true, true, true, true)];
    var post := [Suspend(false, true, true), Seal(true)];
    RunAppend(cfg, db, pre + Writes(ws), post);
    RunAppend(cfg, db, pre, Writes(ws));
    ReapRecords(cfg, db, now);
    RunWrites(cfg, Run(cfg, db, pre), ws);
    ReapSeals(cfg, Run(cfg, Run(cfg, db, pre), Writes(ws)));
  }

  /**
   * A dump whose export was stored and recorded can be rebuilt, if and only if
   * BackupRetain is at least 1 or retention failed: with 0 the archive just
   * made is the first to go.
   */
  lemma StoredIsKeptIff(cfg: Config, db: Db, s: Event)
    requires Inv(cfg, db) && s.Store? && Enabled(db, s) && PutNeeded(cfg, db, s.listOk) && s.putOk && s.writeOk
    ensures Rebuildable(cfg, Next(cfg, db, s)) <==> cfg.keep >= 1 || !s.retainOk
  {
    PutIsKeptIff(cfg, Stamped(db, s.now), s);
  }

  lemma PutIsKeptIff(cfg: Config, db: Db, s: Event)
    requires IdsUsed(db) && db.job.Exported? && s.Store? && PutNeeded(cfg, db, s.listOk) && s.putOk && s.writeOk
    ensures Rebuildable(cfg, StoreNow(cfg, db, s)) <==> cfg.keep >= 1 || !s.retainOk
  {
    NewBackup(cfg, db, db.job.man, s.retainOk);
    var st := DumpState(s.now, db.job.man, db.job.man in cfg.seed, Some(db.nextId), None);
    assert StoreNow(cfg, db, s) == Recorded(WithBackup(cfg, db, db.job.man, s.retainOk), st, true, true);
  }

  // ------------------------------------------------ one whole dump, uninterrupted

  predicate StoreSucceeds(cfg: Config, db: Db, s: Event)
    requires db.job.Exported? && s.Store?
  {
    s.writeOk && (PutNeeded(cfg, db, s.listOk) ==> s.putOk)
  }

  /** backupDumpOnce under the lock: the state it leaves and whether it returned no error. */
  function BackupDump(cfg: Config, db: Db, x: Event, s: Event, sealOk: bool): (Db, bool)
    requires x.Export? && s.Store? && db.job.Idle? && s.now >= db.now
  {
    var d1 := Next(cfg, db, x);
    if !d1.job.Exported? then (d1, false)
    else
      var d2 := Next(cfg, d1, s);
      if !StoreSucceeds(cfg, d1, s) then (d2, false)
      else if d2.job.ToSeal? then (Next(cfg, d2, Seal(sealOk)), sealOk)
      else (d2, true)
  }

  /**
   * dailyDump: a database seen stopped with a current dump is covered, any
   * other one is dumped. It asks for the status once more than the dump does.
   */
  function DailyDump(cfg: Config, db: Db, seen: bool, x: Event, s: Event, sealOk: bool): (Db, bool)
    requires x.Export? && s.Store? && db.job.Idle? && s.now >= db.now
  {
    if !seen && DumpCurrent(db) then (db, true) else BackupDump(cfg, db, x, s, sealOk)
  }

  /** What a dump that went through guarantees: exact when stopped, dated at its store when running. */
  ghost predicate Covered(db: Db, now: int) {
    && Backed(db) && db.job.Idle?
    && (db.content == db.dump.value.content || db.tainted)
    && (if db.running then db.dump.value.at == now else DumpCurrent(db))
  }

  lemma StoreRecords(cfg: Config, db: Db, s: Event)
    requires db.job.Exported? && s.Store? && Enabled(db, s)
    ensures var d := Next(cfg, db, s);
      && d.running == db.running && d.content == db.content && d.pg == db.pg && d.nextPg == db.nextPg && d.tainted == db.tainted
      && if StoreSucceeds(cfg, db, s)
         then d.dump.Some? && d.dump.value.at == s.now && d.dump.value.content == db.job.man && d.dump.value.pgControl.None?
              && d.job == JobAfterStore(db.job)
         else d.dump == db.dump && d.job.Idle?
  {
    StoreNowRecords(cfg, Stamped(db, s.now), s);
    var d := StoreNow(cfg, Stamped(db, s.now), s);
    assert Do(cfg, db, s) == d;
  }

  lemma StoreNowRecords(cfg: Config, db: Db, s: Event)
    requires db.job.Exported? && s.Store?
    ensures var d := StoreNow(cfg, db, s);
      && d.running == db.running && d.content == db.content && d.pg == db.pg && d.nextPg == db.nextPg && d.tainted == db.tainted
      && if StoreSucceeds(cfg, db, s)
         then d.dump.Some? && d.dump.value.at == s.now && d.dump.value.content == db.job.man && d.dump.value.pgControl.None?
              && d.job == JobAfterStore(db.job)
         else d.dump == db.dump && d.job.Idle?
  {
    var man := db.job.man;
    var st := DumpState(s.now, man, man in cfg.seed, None, None);
    RecordedIs(db, st, false, s.writeOk);
    RecordedIs(db, st.(backupId := if db.dump.Some? then db.dump.value.backupId else None), false, s.writeOk);
    RecordedIs(WithBackup(cfg, db, man, s.retainOk), st.(backupId := Some(db.nextId)), true, s.writeOk);
  }

  lemma RecordedIs(db: Db, st: DumpState, put: bool, writeOk: bool)
    requires db.job.Exported?
    ensures var d := Recorded(db, st, put, writeOk);
      && d.running == db.running && d.content == db.content && d.pg == db.pg && d.nextPg == db.nextPg && d.tainted == db.tainted
      && (if writeOk then d.dump == Some(st) && d.job == JobAfterStore(db.job) else d.dump == db.dump && d.job.Idle?)
  {}

  /** The dump recorded for a running database names its export and a backup that holds it. */
  lemma StoreBacks(cfg: Config, db: Db, s: Event)
    requires cfg.keep >= 1 && Inv(cfg, db) && db.job.Exported? && s.Store? && Enabled(db, s) && StoreSucceeds(cfg, db, s)
    ensures var d := Next(cfg, db, s); Backed(d) && d.dump.value.content == db.job.man
  {
    StoreRecords(cfg, db, s);
    if PutNeeded(cfg, db, s.listOk) { PutBacks(cfg, Stamped(db, s.now), s); }
  }

  lemma PutBacks(cfg: Config, db: Db, s: Event)
    requires cfg.keep >= 1 && IdsUsed(db) && db.job.Exported? && s.Store? && s.putOk && s.writeOk
    requires PutNeeded(cfg, db, s.listOk)
    ensures Backed(StoreNow(cfg, db, s))
  {
    NewBackup(cfg, db, db.job.man, s.retainOk);
  }

  /** A step is what it does, and its history. */
  lemma NextIs(cfg: Config, db: Db, e: Event)
    requires Enabled(db, e)
    ensures Next(cfg, db, e) == Do(cfg, db, e).(hist := Next(cfg, db, e).hist)
  {}

  lemma ExportOutcome(cfg: Config, db: Db, x: Event)
    requires Inv(cfg, db) && db.job.Idle? && x.Export? && !Missed(db, x)
    ensures var d := Next(cfg, db, x);
      && d.running == db.running && d.now == db.now
      && (if d.job.Exported? then d.job.man == d.content && d.job.reap == x.reap && d.job.offline == !d.running && d.pg.Some?
          else d.job.Idle?)
  {
    NextIs(cfg, db, x);
    ExportJobs(cfg, db, x);
  }

  lemma ExportJobs(cfg: Config, db: Db, x: Event)
    requires db.job.Idle? && x.Export?
    ensures var d := Next(cfg, db, x);
      && d.running == db.running && d.now == db.now
      && (d.job.Exported? ==> d.job.reap == x.reap && d.job.force == x.force && d.job.offline == !x.seen && d.job.man == d.content)
      && (d.job.Exported? && !d.job.offline ==> d.running && d.pg == db.pg)
      && (d.job.Exported? && d.job.offline ==> d.pg.Some?)
      && (d.job.Exported? || d.job.Idle?)
  {
    NextIs(cfg, db, x);
    AfterExportJobs(cfg, db, x);
  }

  lemma AfterExportJobs(cfg: Config, db: Db, x: Event)
    requires db.job.Idle? && x.Export?
    ensures var d := AfterExport(cfg, db, x);
      && d.running == db.running && d.now == db.now
      && (d.job.Exported? ==> d.job.reap == x.reap && d.job.force == x.force && d.job.offline == !x.seen && d.job.man == d.content)
      && (d.job.Exported? && !d.job.offline ==> d.running && d.pg == db.pg)
      && (d.job.Exported? && d.job.offline ==> d.pg.Some?)
      && (d.job.Exported? || d.job.Idle?)
  {}

  lemma BackupDumpCovers(cfg: Config, db: Db, x: Event, s: Event, sealOk: bool)
    requires cfg.keep >= 1 && Inv(cfg, db) && db.job.Idle?
    requires x.Export? && s.Store? && !x.reap && !Missed(db, x) && s.now >= db.now
    ensures var (d, ok) := BackupDump(cfg, db, x, s, sealOk);
      Inv(cfg, d) && d.running == db.running && (ok ==> Covered(d, s.now))
  {
    var d1 := Next(cfg, db, x);
    InvStep(cfg, db, x);
    ExportOutcome(cfg, db, x);
    if d1.job.Exported? {
      StoreRecords(cfg, d1, s);
      InvStep(cfg, d1, s);
      var d2 := Next(cfg, d1, s);
      if StoreSucceeds(cfg, d1, s) {
        StoreBacks(cfg, d1, s);
        if d2.job.ToSeal? { SealCovers(cfg, d2, s.now, sealOk); }
      }
    }
  }

  lemma BackupDumpIdles(cfg: Config, db: Db, x: Event, s: Event, sealOk: bool)
    requires db.job.Idle? && x.Export? && s.Store? && !x.reap && s.now >= db.now
    ensures BackupDump(cfg, db, x, s, sealOk).0.job.Idle?
  {
    ExportJobs(cfg, db, x);
    var d1 := Next(cfg, db, x);
    if d1.job.Exported? {
      StoreRecords(cfg, d1, s);
      SealIdles(cfg, Next(cfg, d1, s), sealOk);
    }
  }

  lemma SealIdles(cfg: Config, db: Db, sealOk: bool)
    requires db.job == ToSeal(false) || db.job.Idle?
    ensures Next(cfg, db, Seal(sealOk)).job.Idle?
  {}

  lemma SealCovers(cfg: Config, db: Db, now: int, sealOk: bool)
    requires cfg.keep >= 1 && Inv(cfg, db) && db.job == ToSeal(false)
    requires db.pg.Some?
    ensures var d := Next(cfg, db, Seal(sealOk));
      Inv(cfg, d) && d.running == db.running && (sealOk ==> Covered(d, now))
  {
    InvStep(cfg, db, Seal(sealOk));
  }

  /** A daily dump that returns no error leaves the database covered; a failed one loses nothing. */
  lemma DailyDumpCovers(cfg: Config, db: Db, seen: bool, x: Event, s: Event, sealOk: bool)
    requires cfg.keep >= 1 && Inv(cfg, db) && db.job.Idle?
    requires x.Export? && s.Store? && !x.reap && !Missed(db, x) && s.now >= db.now
    ensures var (d, ok) := DailyDump(cfg, db, seen, x, s, sealOk);
      Inv(cfg, d) && d.running == db.running && (ok ==> Covered(d, s.now))
  {
    if seen || !DumpCurrent(db) { BackupDumpCovers(cfg, db, x, s, sealOk); }
  }

  // ----------------------------------------------------- a server that was missed

  /** No future that keeps the windows quiet and misses no server makes a current dump wrong. */
  ghost predicate StaysExact(cfg: Config, db: Db) {
    forall es :: Quiet(cfg, db, es) && Honest(cfg, db, es) ==>
      var d := Run(cfg, db, es); DumpCurrent(d) ==> d.content == d.dump.value.content
  }

  /** Nothing stops the dump of a missed server: it goes through when its commands do. */
  lemma MissedDumpGoesThrough(cfg: Config, db: Db, x: Event, s: Event)
    requires db.job.Idle? && x.Export? && s.Store? && s.now >= db.now && Missed(db, x)
    requires x.ok && s.putOk && s.writeOk
    ensures BackupDump(cfg, db, x, s, true).1
  {
    MissedExport(cfg, db, x);
    StoreRecords(cfg, Next(cfg, db, x), s);
  }

  /** The dump of a missed server seals the pg_control of a database that goes on running. */
  lemma MissedServerIsSealed(cfg: Config, db: Db, x: Event, s: Event)
    requires db.job.Idle? && x.Export? && s.Store? && s.now >= db.now && Missed(db, x)
    requires BackupDump(cfg, db, x, s, true).1
    ensures var d := BackupDump(cfg, db, x, s, true).0;
      && DumpCurrent(d) && d.running && !d.tainted && d.dump.value.content == d.content == db.content
      && d.job == if x.reap then ToSuspend else Idle
  {
    var d1 := Next(cfg, db, x);
    MissedExport(cfg, db, x);
    StoreRecords(cfg, d1, s);
    MissedSeal(cfg, Next(cfg, d1, s), x.reap);
  }

  lemma MissedExport(cfg: Config, db: Db, x: Event)
    requires db.job.Idle? && x.Export? && Missed(db, x)
    ensures var d := Next(cfg, db, x);
      && d.running && d.content == db.content && d.now == db.now
      && (if x.ok then d.job == Exported(db.content, db.now, true, x.force, x.reap) && d.pg.Some? && !d.tainted else d.job.Idle?)
  {}

  lemma MissedSeal(cfg: Config, db: Db, reap: bool)
    requires db.job == ToSeal(reap) && db.running && db.dump.Some? && db.pg.Some?
    ensures var d := Next(cfg, db, Seal(true));
      DumpCurrent(d) && d.running && d.job == (if reap then ToSuspend else Idle) && d.tainted == db.tainted
      && d.content == db.content && d.dump.value.content == db.dump.value.content
  {}

  lemma WriteBreaksTheSeal(cfg: Config, d: Db)
    requires DumpCurrent(d) && d.running && d.job.Idle? && d.dump.value.content == d.content
    ensures !StaysExact(cfg, d)
  {
    var es := [Write(d.content + 1)];
    assert es[1..] == [];
    var r := Next(cfg, d, es[0]);
    assert Run(cfg, d, es) == r && DumpCurrent(r) && r.content != r.dump.value.content;
    assert Quiet(cfg, r, es[1..]) && Honest(cfg, r, es[1..]);
    assert Quiet(cfg, d, es) && Honest(cfg, d, es);
  }

  lemma UntaintedStaysExact(cfg: Config, d: Db)
    requires cfg.keep >= 1 && Inv(cfg, d) && !d.tainted
    ensures StaysExact(cfg, d)
  {
    forall es | Quiet(cfg, d, es) && Honest(cfg, d, es)
      ensures var r := Run(cfg, d, es); DumpCurrent(r) ==> r.content == r.dump.value.content
    {
      InvRun(cfg, d, es);
      QuietRunsStayUntainted(cfg, d, es);
    }
  }

  /**
   * The exact condition: the seal of a dump that went through stays sound if and
   * only if the runtime's answer did not miss a running server.
   */
  lemma DumpIsSoundIff(cfg: Config, db: Db, x: Event, s: Event)
    requires cfg.keep >= 1 && Inv(cfg, db) && db.job.Idle? && x.Export? && !x.reap && s.Store? && s.now >= db.now
    requires BackupDump(cfg, db, x, s, true).1
    ensures StaysExact(cfg, BackupDump(cfg, db, x, s, true).0) <==> x.seen == db.running
  {
    var d := BackupDump(cfg, db, x, s, true).0;
    var d1 := Next(cfg, db, x);
    if Missed(db, x) {
      MissedServerIsSealed(cfg, db, x, s);
      WriteBreaksTheSeal(cfg, d);
    } else {
      ExportOutcome(cfg, db, x);
      StoreRecords(cfg, d1, s);
      BackupDumpCovers(cfg, db, x, s, true);
      UntaintedStaysExact(cfg, d);
    }
  }

  // -------------------------------------------------------------------- the reap

  /**
   * The idle reaper's work on one workload: dump it, suspend it whether or not
   * the dump went through, and seal the dump only when both did.
   */
  function Reap(cfg: Config, db: Db, x: Event, s: Event, sealOk: bool, e: Event, lastOk: bool): (Db, bool)
    requires x.Export? && x.reap && s.Store? && e.Suspend? && db.job.Idle? && s.now >= db.now
  {
    var (d1, ok) := BackupDump(cfg, db, x, s, sealOk);
    var d2 := Next(cfg, d1, e);
    if ok && !e.err then (Next(cfg, d2, Seal(lastOk)), lastOk && d2.pg.Some?) else (d2, false)
  }

  /** Where the dump of a reap leaves the lock's holder. */
  lemma ReapJobs(cfg: Config, db: Db, x: Event, s: Event, sealOk: bool)
    requires Inv(cfg, db) && db.job.Idle? && x.Export? && x.reap && s.Store? && s.now >= db.now
    ensures var (d, ok) := BackupDump(cfg, db, x, s, sealOk);
      (if ok then d.job.ToSuspend? && d.dump.Some? else d.job.Idle?) && d.running == db.running
  {
    ExportJobs(cfg, db, x);
    var d1 := Next(cfg, db, x);
    if d1.job.Exported? {
      StoreRecords(cfg, d1, s);
      var d2 := Next(cfg, d1, s);
      if d2.job.ToSeal? { SealJobs(cfg, d2, sealOk); }
    }
  }

  lemma SealJobs(cfg: Config, db: Db, sealOk: bool)
    requires db.job == ToSeal(true) && db.dump.Some? && db.pg.Some?
    ensures var d := Next(cfg, db, Seal(sealOk));
      d.running == db.running && d.dump.Some? && (if sealOk then d.job.ToSuspend? else d.job.Idle?)
  {}

  lemma BackupDumpKeeps(cfg: Config, db: Db, x: Event, s: Event, sealOk: bool)
    requires cfg.keep >= 1 && Inv(cfg, db) && db.job.Idle? && x.Export? && s.Store? && s.now >= db.now && !Missed(db, x)
    ensures Inv(cfg, BackupDump(cfg, db, x, s, sealOk).0)
  {
    var d1 := Next(cfg, db, x);
    InvStep(cfg, db, x);
    if d1.job.Exported? {
      InvStep(cfg, d1, s);
      InvStep(cfg, Next(cfg, d1, s), Seal(sealOk));
    }
  }

  lemma SuspendOutcome(cfg: Config, db: Db, e: Event)
    requires cfg.keep >= 1 && Inv(cfg, db) && e.Suspend? && (db.job.Idle? || db.job.ToSuspend?)
    ensures var d := Next(cfg, db, e);
      && Inv(cfg, d) && (!e.err ==> !d.running) && d.dump == db.dump
      && (if db.job.ToSuspend? && !e.err then d.job.Stopped? else d.job.Idle?)
  {
    InvStep(cfg, db, e);
  }

  lemma LastSeal(cfg: Config, db: Db, lastOk: bool)
    requires cfg.keep >= 1 && Inv(cfg, db) && db.job.Stopped?
    ensures var d := Next(cfg, db, Seal(lastOk));
      && Inv(cfg, d) && d.job.Idle? && !d.running
      && (lastOk && db.pg.Some? ==> DumpCurrent(d) && Backed(d) && (d.tainted || d.content == d.dump.value.content))
  {
    InvStep(cfg, db, Seal(lastOk));
  }

  /**
   * A sealed reap leaves a current dump whose contents are backed, and exact if
   * no client wrote meanwhile; a failed dump never keeps a workload running, and
   * a failed suspend is never followed by a seal.
   */
  lemma ReapSealsOnlyTheTruth(cfg: Config, db: Db, x: Event, s: Event, sealOk: bool, e: Event, lastOk: bool)
    requires cfg.keep >= 1 && Inv(cfg, db) && db.job.Idle?
    requires x.Export? && x.reap && s.Store? && e.Suspend? && s.now >= db.now && !Missed(db, x)
    ensures var (d, sealed) := Reap(cfg, db, x, s, sealOk, e, lastOk);
      && Inv(cfg, d) && d.job.Idle?
      && (sealed ==> DumpCurrent(d) && Backed(d) && !d.running && (d.tainted || d.content == d.dump.value.content))
      && (!e.err ==> !d.running)
      && (e.err ==> !sealed)
  {
    var (d1, ok) := BackupDump(cfg, db, x, s, sealOk);
    BackupDumpKeeps(cfg, db, x, s, sealOk);
    ReapJobs(cfg, db, x, s, sealOk);
    SuspendOutcome(cfg, d1, e);
    if ok && !e.err { LastSeal(cfg, Next(cfg, d1, e), lastOk); }
  }

  /** A dump that went through begins its window clean. */
  lemma DumpUntaints(cfg: Config, db: Db, x: Event, s: Event, sealOk: bool)
    requires db.job.Idle? && x.Export? && s.Store? && s.now >= db.now && BackupDump(cfg, db, x, s, sealOk).1
    ensures !BackupDump(cfg, db, x, s, sealOk).0.tainted
  {
    ExportUntaints(cfg, db, x);
    ExportJobs(cfg, db, x);
    var d1 := Next(cfg, db, x);
    StoreRecords(cfg, d1, s);
    StepsStayUntainted(cfg, Next(cfg, d1, s), Seal(sealOk));
  }

  lemma ExportUntaints(cfg: Config, db: Db, x: Event)
    requires db.job.Idle? && x.Export?
    ensures Next(cfg, db, x).job.Exported? ==> !Next(cfg, db, x).tainted
  {
    NextIs(cfg, db, x);
  }

  lemma StepsStayUntainted(cfg: Config, db: Db, e: Event)
    requires !db.tainted && (e.Suspend? || e.Seal?)
    ensures !Next(cfg, db, e).tainted
  {}

  /**
   * A missed server's export, dump and seal are those of the same database,
   * stopped: only the server itself makes the invariant fail.
   */
  lemma MissedReapButRunning(cfg: Config, db: Db, x: Event, s: Event)
    requires cfg.keep >= 1 && Inv(cfg, db) && db.job.Idle? && x.Export? && x.reap && s.Store? && s.now >= db.now && Missed(db, x)
    requires BackupDump(cfg, db, x, s, true).1
    ensures Inv(cfg, BackupDump(cfg, db, x, s, true).0.(running := false))
  {
    var d1 := Next(cfg, db, x);
    MissedExport(cfg, db, x);
    MissedExportInv(cfg, db, x);
    var o1 := d1.(running := false);
    StoreRecords(cfg, d1, s);
    StoreIgnoresRunning(cfg, d1, s);
    InvStep(cfg, o1, s);
    var d2 := Next(cfg, d1, s);
    var o2 := d2.(running := false);
    InvStep(cfg, o2, Seal(true));
    SealIgnoresRunning(cfg, d2);
  }

  lemma MissedExportInv(cfg: Config, db: Db, x: Event)
    requires Inv(cfg, db) && db.job.Idle? && x.Export? && Missed(db, x) && x.ok
    ensures Inv(cfg, Next(cfg, db, x).(running := false))
  {}

  lemma StoreIgnoresRunning(cfg: Config, db: Db, s: Event)
    requires s.Store? && Enabled(db, s)
    ensures Next(cfg, db.(running := false), s) == Next(cfg, db, s).(running := false)
  {
    var t := Stamped(db, s.now);
    assert Stamped(db.(running := false), s.now) == t.(running := false);
    StoreNowIgnoresRunning(cfg, t, s);
    assert Do(cfg, db, s) == StoreNow(cfg, t, s);
    assert Do(cfg, db.(running := false), s) == StoreNow(cfg, t.(running := false), s);
  }

  lemma StoreNowIgnoresRunning(cfg: Config, db: Db, s: Event)
    requires s.Store? && db.job.Exported?
    ensures StoreNow(cfg, db.(running := false), s) == StoreNow(cfg, db, s).(running := false)
  {
    var st := DumpState(s.now, db.job.man, db.job.man in cfg.seed, None, None);
    if PutNeeded(cfg, db, s.listOk) {
      PutNowIgnoresRunning(cfg, db, s);
    } else if st.pristine {
      RecordIgnoresRunning(db, st, false, s.writeOk);
    } else {
      RecordIgnoresRunning(db, st.(backupId := db.dump.value.backupId), false, s.writeOk);
    }
  }

  lemma PutNowIgnoresRunning(cfg: Config, db: Db, s: Event)
    requires s.Store? && db.job.Exported? && PutNeeded(cfg, db, s.listOk)
    ensures StoreNow(cfg, db.(running := false), s) == StoreNow(cfg, db, s).(running := false)
  {
    var man := db.job.man;
    PutIgnoresRunning(cfg, db, man, s.retainOk);
    RecordIgnoresRunning(WithBackup(cfg, db, man, s.retainOk), DumpState(s.now, man, man in cfg.seed, Some(db.nextId), None), true, s.writeOk);
  }

  lemma PutIgnoresRunning(cfg: Config, db: Db, man: Content, retainOk: bool)
    ensures WithBackup(cfg, db.(running := false), man, retainOk) == WithBackup(cfg, db, man, retainOk).(running := false)
  {}

  lemma RecordIgnoresRunning(db: Db, st: DumpState, put: bool, writeOk: bool)
    requires db.job.Exported?
    ensures Recorded(db.(running := false), st, put, writeOk) == Recorded(db, st, put, writeOk).(running := false)
  {}

  lemma SealIgnoresRunning(cfg: Config, db: Db)
    requires db.job.ToSeal?
    ensures Next(cfg, db.(running := false), Seal(true)) == Next(cfg, db, Seal(true)).(running := false)
  {
    AfterSealIgnoresRunning(db);
    SealIs(cfg, db);
    SealIs(cfg, db.(running := false));
  }

  lemma SealIs(cfg: Config, db: Db)
    requires db.job.ToSeal?
    ensures Next(cfg, db, Seal(true)) == AfterSeal(db, true)
  {}

  lemma AfterSealIgnoresRunning(db: Db)
    requires db.job.ToSeal?
    ensures AfterSeal(db.(running := false), true) == AfterSeal(db, true).(running := false)
  {}

  /** The suspend of a sealed, missed server: it is down and the seal true, or it goes on under its seal. */
  lemma MissedSuspend(cfg: Config, db: Db, e: Event)
    requires db.running && db.job.ToSuspend? && e.Suspend? && DumpCurrent(db) && !db.tainted
    requires Inv(cfg, db.(running := false)) && db.content == db.dump.value.content
    ensures var d := Next(cfg, db, e);
      && !d.tainted && (d.running <==> e.err && !e.stopped)
      && (if d.running then DumpCurrent(d) && d.job.Idle? && d.dump.value.content == d.content else Inv(cfg, d))
  {}

  /**
   * The exact condition for the reaper: once the dump of a reap went through, and
   * with no write in between, what it leaves is trusted rightly in every quiet
   * future if and only if Status did not miss a running server, or the suspend
   * stopped it, whether or not it reported an error.
   */
  lemma ReapIsSoundIff(cfg: Config, db: Db, x: Event, s: Event, sealOk: bool, e: Event, lastOk: bool)
    requires cfg.keep >= 1 && Inv(cfg, db) && db.job.Idle? && x.Export? && x.reap && s.Store? && e.Suspend? && s.now >= db.now
    requires BackupDump(cfg, db, x, s, sealOk).1
    ensures StaysExact(cfg, Reap(cfg, db, x, s, sealOk, e, lastOk).0) <==> !Missed(db, x) || !e.err || e.stopped
  {
    var d1 := BackupDump(cfg, db, x, s, sealOk).0;
    var d := Reap(cfg, db, x, s, sealOk, e, lastOk).0;
    if Missed(db, x) {
      MissedSealed(cfg, db, x, s, sealOk);
      MissedServerIsSealed(cfg, db, x, s);
      MissedReapButRunning(cfg, db, x, s);
      MissedSuspend(cfg, d1, e);
      if e.err && !e.stopped {
        WriteBreaksTheSeal(cfg, d);
      } else {
        if !e.err { InvStep(cfg, Next(cfg, d1, e), Seal(lastOk)); }
        StepsStayUntainted(cfg, Next(cfg, d1, e), Seal(lastOk));
        UntaintedStaysExact(cfg, d);
      }
    } else {
      ReapSealsOnlyTheTruth(cfg, db, x, s, sealOk, e, lastOk);
      DumpUntaints(cfg, db, x, s, sealOk);
      StepsStayUntainted(cfg, d1, e);
      StepsStayUntainted(cfg, Next(cfg, d1, e), Seal(lastOk));
      UntaintedStaysExact(cfg, d);
    }
  }

  /** A dump thought offline goes through only with its seal. */
  lemma MissedSealed(cfg: Config, db: Db, x: Event, s: Event, sealOk: bool)
    requires db.job.Idle? && x.Export? && s.Store? && s.now >= db.now && Missed(db, x) && BackupDump(cfg, db, x, s, sealOk).1
    ensures sealOk
  {
    MissedExport(cfg, db, x);
    StoreRecords(cfg, Next(cfg, db, x), s);
  }

  // ------------------------------------------------- by the answers alone

  /** What an export reads: a stopped database may first be restored, or made, by the server that exports it. */
  function ReadBy(cfg: Config, db: Db, x: Event): Content
    requires x.Export?
  {
    if x.seen || db.running then db.content
    else if x.loaded && db.pending.Some? then db.pending.value
    else if db.pg.None? then cfg.empty
    else db.content
  }

  /** It goes to the store: forced, or more than the seed and not what the last stored backup holds. */
  predicate GoesToStore(cfg: Config, db: Db, x: Event, s: Event)
    requires x.Export? && s.Store?
  {
    var c := ReadBy(cfg, db, x);
    x.force || (c !in cfg.seed && !(db.dump.Some? && db.dump.value.content == c && db.dump.value.backupId.Some?
                                    && s.listOk && db.dump.value.backupId.value in db.archives))
  }

  /** Every answer that a dump needs: the export's, the put's if there is one, the dump state's, and the seal's if the server is down. */
  predicate Answered(cfg: Config, db: Db, x: Event, s: Event, sealOk: bool)
    requires x.Export? && s.Store?
  {
    x.ok && (x.seen ==> db.running) && (GoesToStore(cfg, db, x, s) ==> s.putOk) && s.writeOk && (x.seen || sealOk)
  }

  lemma ExportIs(cfg: Config, db: Db, x: Event)
    requires db.job.Idle? && x.Export?
    ensures var d := Next(cfg, db, x);
      && (d.job.Exported? <==> x.ok && (x.seen ==> db.running))
      && (d.job.Exported? ==> d.job.man == ReadBy(cfg, db, x) && d.job.offline == !x.seen && d.job.force == x.force && d.job.reap == x.reap)
      && d.dump == db.dump && d.archives == db.archives && d.nextId == db.nextId && d.running == db.running
      && d.pending == (if !x.seen && !db.running && x.loaded && (x.ok || x.ran) then None else db.pending)
      && (x.seen ==> d.pg == db.pg) && (!x.seen && x.ok ==> d.pg == Some(db.nextPg)) && (x.seen ==> d.nextPg == db.nextPg)
  {
    NextIs(cfg, db, x);
  }

  /** A restore placed in an empty data dir is what the database holds once its server has run. */
  lemma RestoreArrives(cfg: Config, db: Db, c: Content, up: bool)
    requires db.job.Idle? && db.dump.None? && db.pg.None? && !db.running
    ensures var d := Next(cfg, Next(cfg, db, PlaceRestore(c)), Wake(true, up));
      d.content == c && d.pending.None? && d.running == up && d.pg.Some?
  {}

  /** A start rewrites pg_control, so that no dump is current of a database that has run since. */
  lemma WakeUnseals(cfg: Config, db: Db, up: bool)
    requires Inv(cfg, db) && db.job.Idle?
    ensures var d := Next(cfg, db, Wake(true, up));
      !DumpCurrent(d) && d.running == (db.running || up) && d.archives == db.archives && d.dump == db.dump
  {}

  /** A dump goes through exactly on those answers, and then records what was read, at the instant it is stored. */
  lemma DumpGoesThroughIff(cfg: Config, db: Db, x: Event, s: Event, sealOk: bool)
    requires db.job.Idle? && x.Export? && s.Store? && s.now >= db.now
    ensures var (d, ok) := BackupDump(cfg, db, x, s, sealOk);
      && (ok <==> Answered(cfg, db, x, s, sealOk))
      && (ok ==> d.dump.Some? && d.dump.value.content == ReadBy(cfg, db, x) && d.dump.value.at == s.now
                 && d.dump.value.pgControl == if x.seen then None else Some(db.nextPg))
      && (ok ==> d.running == db.running && d.pg == if x.seen then db.pg else Some(db.nextPg))
      && (ok ==> d.job == if x.reap then ToSuspend else Idle)
      && (ok && x.seen ==> d.nextPg == db.nextPg)
  {
    ExportIs(cfg, db, x);
    var d1 := Next(cfg, db, x);
    if d1.job.Exported? {
      StoreRecords(cfg, d1, s);
      var d2 := Next(cfg, d1, s);
      if d2.job.ToSeal? { SealNowIs(cfg, d2, sealOk); }
    }
  }

  lemma SealNowIs(cfg: Config, db: Db, sealOk: bool)
    requires (db.job.ToSeal? || db.job.Stopped?) && db.dump.Some? && db.pg.Some?
    ensures var d := Next(cfg, db, Seal(sealOk));
      if sealOk then d.dump == Some(db.dump.value.(pgControl := db.pg)) && d.job == (if db.job == ToSeal(true) then ToSuspend else Idle)
                     && d.running == db.running && d.pg == db.pg && d.content == db.content && d.nextPg == db.nextPg
      else d == db.(job := Idle)
  {}

  /** And of a daily dump: no error exactly for a database found stopped under a current dump, or on those answers. */
  lemma DailyDumpIff(cfg: Config, db: Db, seen: bool, x: Event, s: Event, sealOk: bool)
    requires db.job.Idle? && x.Export? && s.Store? && s.now >= db.now
    ensures var (d, ok) := DailyDump(cfg, db, seen, x, s, sealOk);
      && (ok <==> (!seen && DumpCurrent(db)) || Answered(cfg, db, x, s, sealOk))
      && (!seen && DumpCurrent(db) ==> d == db)
      && (ok && (seen || !DumpCurrent(db)) ==> d.dump.Some? && d.dump.value.content == ReadBy(cfg, db, x) && d.dump.value.at == s.now)
  {
    if seen || !DumpCurrent(db) { DumpGoesThroughIff(cfg, db, x, s, sealOk); }
  }

  /** The fingerprint that the stop leaves: a new one if the server rewrote pg_control on its way down. */
  function AfterStop(db: Db, e: Event): Option<Token>
    requires e.Suspend?
  {
    if db.running && e.rewrote then Some(db.nextPg) else db.pg
  }

  /**
   * When a reap seals: exactly when its dump had every answer it needs, the
   * suspend reported no error, and the last seal could be written. The seal is of
   * pg_control as the stop left it, over a dump of what was read before it.
   */
  lemma ReapSealsIff(cfg: Config, db: Db, x: Event, s: Event, sealOk: bool, e: Event, lastOk: bool)
    requires Inv(cfg, db) && db.job.Idle? && x.Export? && x.reap && s.Store? && e.Suspend? && s.now >= db.now
    ensures var (d, sealed) := Reap(cfg, db, x, s, sealOk, e, lastOk);
      && (sealed <==> Answered(cfg, db, x, s, sealOk) && !e.err && lastOk)
      && (sealed ==> DumpCurrent(d) && !d.running && d.pg.Some?
                     && d.dump.value.content == ReadBy(cfg, db, x) && d.dump.value.at == s.now)
      && (sealed && x.seen ==> d.dump.value.pgControl == AfterStop(db, e))
  {
    DumpGoesThroughIff(cfg, db, x, s, sealOk);
    var (d1, ok) := BackupDump(cfg, db, x, s, sealOk);
    ReapJobs(cfg, db, x, s, sealOk);
    SuspendIs(cfg, d1, e);
    if ok && !e.err { SealNowIs(cfg, Next(cfg, d1, e), lastOk); }
  }

  lemma SuspendIs(cfg: Config, db: Db, e: Event)
    requires e.Suspend? && (db.job.Idle? || db.job.ToSuspend?)
    ensures var d := Next(cfg, db, e);
      && d.dump == db.dump && d.content == db.content
      && (d.running <==> db.running && e.err && !e.stopped)
      && d.pg == (if db.running && !d.running && e.rewrote then Some(db.nextPg) else db.pg)
      && d.job == if db.job.ToSuspend? && !e.err then Stopped else Idle
  {}

  /** Of a database seen running, the reap leaves a current dump exactly when it seals. */
  lemma ReapCoversIff(cfg: Config, db: Db, x: Event, s: Event, sealOk: bool, e: Event, lastOk: bool)
    requires Inv(cfg, db) && db.job.Idle? && x.Export? && x.reap && s.Store? && e.Suspend? && s.now >= db.now
    requires db.running && x.seen
    ensures DumpCurrent(Reap(cfg, db, x, s, sealOk, e, lastOk).0) <==> Answered(cfg, db, x, s, sealOk) && !e.err && lastOk
  {
    ReapSealsIff(cfg, db, x, s, sealOk, e, lastOk);
    DumpGoesThroughIff(cfg, db, x, s, sealOk);
    var (d1, ok) := BackupDump(cfg, db, x, s, sealOk);
    ReapJobs(cfg, db, x, s, sealOk);
    SuspendIs(cfg, d1, e);
    if ok {
      if !e.err { SealNowIs(cfg, Next(cfg, d1, e), lastOk); }
    } else {
      FailedDumpIsNotCurrent(cfg, db, x, s, sealOk);
      assert d1.job.Idle?;
    }
  }

  lemma FailedDumpIsNotCurrent(cfg: Config, db: Db, x: Event, s: Event, sealOk: bool)
    requires Inv(cfg, db) && db.job.Idle? && x.Export? && x.seen && s.Store? && s.now >= db.now && db.running
    requires !BackupDump(cfg, db, x, s, sealOk).1
    ensures var d := BackupDump(cfg, db, x, s, sealOk).0;
      d.pg == db.pg && d.nextPg == db.nextPg && d.running && (d.dump == db.dump || (d.dump.Some? && d.dump.value.pgControl.None?))
  {
    ExportIs(cfg, db, x);
    var d1 := Next(cfg, db, x);
    if d1.job.Exported? {
      StoreRecords(cfg, d1, s);
    }
  }
}
