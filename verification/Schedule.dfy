/**
 * The backup scheduler and the coverage report: when a workload is due, what a
 * sweep does, how many sweeps clear a backlog, and what SafeToWipe is worth.
 */
module Schedule {
  import opened Common
  import D = DumpSeal
  import H = DumpHistory
  import T = TarLag

  /** dumpRetryAfter, in nanoseconds. */
  const RETRY_AFTER: int := 3600 * SECOND

  datatype Config = Config(seed: set<D.Content>, empty: D.Content, keep: nat, interval: int, batch: int) {
    function Dump(): D.Config { D.Config(seed, empty, keep) }

    function Tar(): T.Config { T.Config(interval, keep) }

    /** BackupSweepBatch, 20 when it is not positive. */
    function Batch(): (b: nat)
      ensures b >= 1 && (batch >= 1 ==> b == batch) && (batch < 1 ==> b == 20)
    {
      if batch <= 0 then 20 else batch
    }
  }

  /** A workload as the store lists it; failedAt is its last dump, while that failed. */
  datatype Workload =
    | NotBackedUp
    | DumpBacked(db: D.Db, failedAt: Option<int>)
    | TarBacked(tar: T.Tar)

  /**
   * What the environment does to one workload during one sweep or report. The
   * runtime is asked up to three times whether a database runs: by dumpDue or
   * coverDump (saw), by dailyDump (again), and by the dump (x.seen).
   */
  datatype Env = Env(cancelled: bool, busy: bool, gone: bool, saw: bool, again: bool,
                     x: D.Event, s: D.Event, sealOk: bool, failTime: int,
                     listOk: bool, walkOk: bool, backing: T.Backing)
  {
    predicate Fits(now: int) {
      x.Export? && !x.force && !x.reap && s.Store? && s.now >= now && backing.Fits()
    }

    /** Nothing fails, the disk is idle, and nobody cancels. */
    predicate Good() {
      && !cancelled && !busy && !gone && x.Export? && x.ok && s.Store? && s.listOk && s.putOk && s.writeOk && sealOk
      && listOk && walkOk && backing.createOk
    }

    /** Every answer of the runtime is true of this workload. */
    predicate Honest(w: Workload) {
      w.DumpBacked? ==> x.Export? && saw == again == x.seen == w.db.running
    }
  }

  // -------------------------------------------------------- due and covered

  /** The last dump failed within the hour. */
  predicate Waits(failedAt: Option<int>, now: int) {
    failedAt.Some? && now - failedAt.value < RETRY_AFTER
  }

  predicate DumpDue(cfg: Config, db: D.Db, saw: bool, failedAt: Option<int>, now: int) {
    if D.DumpCurrent(db) then false
    else if Waits(failedAt, now) then false
    else if db.dump.None? then true
    else if !saw then true
    else now - db.dump.value.at >= cfg.interval
  }

  datatype Status = Current | Recent | Stale | Failed

  function CoverDump(cfg: Config, db: D.Db, saw: bool, failedAt: Option<int>, now: int): Status {
    if D.DumpCurrent(db) then Current
    else if saw && db.dump.Some? && now - db.dump.value.at < cfg.interval then Recent
    else if failedAt.Some? then Failed
    else Stale
  }

  /**
   * The scheduler and the report agree on databases: one is due exactly when the
   * report calls it stale or failed and it did not fail within the last hour.
   * Each asks the runtime for itself, and the answers matter only for a database
   * with a young dump that is not current and does not wait.
   */
  lemma DueIffUncovered(cfg: Config, db: D.Db, saw: bool, reported: bool, failedAt: Option<int>, now: int)
    ensures (DumpDue(cfg, db, saw, failedAt, now) <==>
        CoverDump(cfg, db, reported, failedAt, now) in {Stale, Failed} && !Waits(failedAt, now))
      <==> || saw == reported || D.DumpCurrent(db) || Waits(failedAt, now)
           || db.dump.None? || now - db.dump.value.at >= cfg.interval
  {}

  /** When a database is due, by the dump it has, its answer and the last hour's failures. */
  lemma DumpDueIff(cfg: Config, db: D.Db, saw: bool, failedAt: Option<int>, now: int)
    ensures DumpDue(cfg, db, saw, failedAt, now) <==>
      && !D.DumpCurrent(db) && (failedAt.Some? ==> now - failedAt.value >= 3600 * SECOND)
      && (db.dump.None? || !saw || now - db.dump.value.at >= cfg.interval)
  {}

  /** Which status each database has: exactly one, by the same facts. */
  lemma StatusIff(cfg: Config, db: D.Db, saw: bool, failedAt: Option<int>, now: int)
    ensures var st, young := CoverDump(cfg, db, saw, failedAt, now), saw && db.dump.Some? && now - db.dump.value.at < cfg.interval;
      && (st.Current? <==> D.DumpCurrent(db))
      && (st.Recent? <==> !D.DumpCurrent(db) && young)
      && (st.Failed? <==> !D.DumpCurrent(db) && !young && failedAt.Some?)
      && (st.Stale? <==> !D.DumpCurrent(db) && !young && failedAt.None?)
  {}

  predicate Due(cfg: Config, w: Workload, now: int, e: Env) {
    match w
    case NotBackedUp => false
    case DumpBacked(db, failedAt) => DumpDue(cfg, db, e.saw, failedAt, now)
    case TarBacked(tar) => T.TarDue(cfg.Tar(), tar, T.Due(now, e.listOk, e.walkOk))
  }

  /** Asking whether a tar is due also updates the scheduler's cache. */
  function Asked(cfg: Config, w: Workload, now: int, e: Env): Workload {
    if w.TarBacked? then TarBacked(T.Next(cfg.Tar(), w.tar, T.Due(now, e.listOk, e.walkOk))) else w
  }

  /** The environment meets the workload unlocked, and no clock runs back. */
  predicate Meets(w: Workload, e: Env, now: int) {
    && e.Fits(now)
    && match w
       case NotBackedUp => true
       case DumpBacked(db, _) => db.job.Idle? && db.now <= e.s.now
       case TarBacked(tar) => tar.reading.None? && now <= tar.now
  }

  /** The scheduled backup of a due workload, and whether it went through. */
  function Attempt(cfg: Config, w: Workload, now: int, e: Env): (Workload, bool)
    requires Meets(w, e, now)
  {
    if e.gone then (w, false) else
    match w
    case NotBackedUp => (w, false)
    case DumpBacked(db, failedAt) =>
      var (d, ok) := D.DailyDump(cfg.Dump(), db, e.again, e.x, e.s, e.sealOk);
      var skipped := !e.again && D.DumpCurrent(db);
      (DumpBacked(d, if skipped then failedAt else if ok then None else Some(e.failTime)), ok)
    case TarBacked(tar) => (TarBacked(T.Archive(cfg.Tar(), tar, true, e.backing)), e.backing.createOk)
  }

  /** When a backup goes through, and the memory of a failure that it leaves. */
  lemma AttemptWorksIff(cfg: Config, w: Workload, now: int, e: Env)
    requires Meets(w, e, now)
    ensures var (d, ok) := Attempt(cfg, w, now, e);
      match w
      case NotBackedUp => d == w && !ok
      case TarBacked(tar) => d.TarBacked? && (ok <==> !e.gone && e.backing.createOk) && (e.gone ==> d == w)
      case DumpBacked(db, failedAt) =>
        var covered := !e.again && D.DumpCurrent(db);
        && d.DumpBacked?
        && (ok <==> !e.gone && (covered || D.Answered(cfg.Dump(), db, e.x, e.s, e.sealOk)))
        && (if e.gone || covered then d == w else d.failedAt == if ok then None else Some(e.failTime))
  {
    if w.DumpBacked? && !e.gone { D.DailyDumpIff(cfg.Dump(), w.db, e.again, e.x, e.s, e.sealOk); }
  }

  predicate Ready(ws: seq<Workload>, es: seq<Env>, now: int) {
    |ws| == |es| && forall i :: 0 <= i < |ws| ==> Meets(ws[i], es[i], now)
  }

  /** One sweep over the rest of the list, n backups into its batch, and whether it was cut short. */
  function Sweep(cfg: Config, ws: seq<Workload>, es: seq<Env>, now: int, n: nat): (r: (seq<Workload>, nat, bool))
    requires Ready(ws, es, now)
    ensures |r.0| == |ws| && n <= r.1 && (n <= cfg.Batch() ==> r.1 <= cfg.Batch())
    decreases |ws|
  {
    if ws == [] then (ws, n, false)
    else if es[0].cancelled then (ws, n, true)
    else if n >= cfg.Batch() then (ws, n, false)
    else
      var w, e := ws[0], es[0];
      if Due(cfg, w, now, e) && e.busy then ([Asked(cfg, w, now, e)] + ws[1..], n, true)
      else
        var (d, ok) := Swept(cfg, w, now, e);
        var (rest, m, cut) := Sweep(cfg, ws[1..], es[1..], now, if ok then n + 1 else n);
        ([d] + rest, m, cut)
  }

  /** What a sweep that is not cut short makes of one workload, and whether it was backed up. */
  function Swept(cfg: Config, w: Workload, now: int, e: Env): (Workload, bool)
    requires Meets(w, e, now)
  {
    AskingKeepsMeets(cfg, w, now, e);
    if Due(cfg, w, now, e) then Attempt(cfg, Asked(cfg, w, now, e), now, e) else (Asked(cfg, w, now, e), false)
  }

  lemma AskingKeepsMeets(cfg: Config, w: Workload, now: int, e: Env)
    requires Meets(w, e, now)
    ensures Meets(Asked(cfg, w, now, e), e, now)
  {}

  /**
   * What one workload's turn in a sweep would come to: a cancel, a stop because
   * it is due and the disk is busy, or else what it becomes and whether it was
   * backed up. was and asked are the workload before, and once it was asked about.
   */
  datatype Turn = Turn(cancelled: bool, diskStops: bool, was: Workload, asked: Workload, after: Workload, ok: bool)

  function TurnOf(cfg: Config, w: Workload, now: int, e: Env): Turn
    requires Meets(w, e, now)
  {
    var (d, ok) := Swept(cfg, w, now, e);
    Turn(e.cancelled, Due(cfg, w, now, e) && e.busy, w, Asked(cfg, w, now, e), d, ok)
  }

  function Turns(cfg: Config, ws: seq<Workload>, es: seq<Env>, now: int): (ts: seq<Turn>)
    requires Ready(ws, es, now)
    ensures |ts| == |ws| && forall i :: 0 <= i < |ws| ==> ts[i] == TurnOf(cfg, ws[i], now, es[i])
  {
    seq(|ws|, i requires 0 <= i < |ws| => TurnOf(cfg, ws[i], now, es[i]))
  }

  /** How many of the turns back their workload up. */
  function BackedUp(ts: seq<Turn>): nat {
    if ts == [] then 0 else (if ts[0].ok then 1 else 0) + BackedUp(ts[1..])
  }

  /** Turn j is one that a sweep goes on from, with n backups made before the first. */
  predicate GoesOn(ts: seq<Turn>, batch: nat, n: nat, j: nat)
    requires j < |ts|
  {
    !ts[j].cancelled && n + BackedUp(ts[..j]) < batch && !ts[j].diskStops
  }

  /** The sweep took the first i turns, stopped there, and touched nothing past them. */
  ghost predicate StoppedAt(ts: seq<Turn>, batch: nat, n: nat, i: nat, ds: seq<Workload>, m: nat, cut: bool) {
    && i <= |ts| == |ds|
    && (forall j :: 0 <= j < i ==> GoesOn(ts, batch, n, j) && ds[j] == ts[j].after)
    && (forall j :: i < j < |ts| ==> ds[j] == ts[j].was)
    && m == n + BackedUp(ts[..i])
    && (cut <==> i < |ts| && (ts[i].cancelled || m < batch))
    && (i < |ts| ==> !GoesOn(ts, batch, n, i) && ds[i] == if ts[i].cancelled || m >= batch then ts[i].was else ts[i].asked)
  }

  lemma StopsOneOn(t: Turn, ts: seq<Turn>, batch: nat, n: nat, i: nat, ds: seq<Workload>, m: nat, cut: bool)
    requires GoesOn([t] + ts, batch, n, 0) && StoppedAt(ts, batch, if t.ok then n + 1 else n, i, ds, m, cut)
    ensures StoppedAt([t] + ts, batch, n, i + 1, [t.after] + ds, m, cut)
  {
    var all, n1 := [t] + ts, if t.ok then n + 1 else n;
    OneTurnOn(t, ts, batch, n, i);
    forall j | 0 <= j < i + 1 ensures GoesOn(all, batch, n, j) && ([t.after] + ds)[j] == all[j].after {
      if j > 0 {
        assert GoesOn(ts, batch, n1, j - 1) && ds[j - 1] == ts[j - 1].after;
        OneTurnOn(t, ts, batch, n, j - 1);
      }
    }
    forall j | i + 1 < j < |all| ensures ([t.after] + ds)[j] == all[j].was {
      assert ds[j - 1] == ts[j - 1].was;
    }
  }

  lemma OneTurnOn(t: Turn, ts: seq<Turn>, batch: nat, n: nat, j: nat)
    requires j <= |ts|
    ensures var n1 := if t.ok then n + 1 else n;
      && n + BackedUp(([t] + ts)[..j + 1]) == n1 + BackedUp(ts[..j])
      && (j < |ts| ==> GoesOn([t] + ts, batch, n, j + 1) == GoesOn(ts, batch, n1, j))
  {
    assert ([t] + ts)[..j + 1] == [t] + ts[..j];
  }

  /** A sweep over turns. */
  function Taken(ts: seq<Turn>, batch: nat, n: nat): (seq<Workload>, nat, bool) {
    if ts == [] then ([], n, false)
    else if ts[0].cancelled then (Befores(ts), n, true)
    else if n >= batch then (Befores(ts), n, false)
    else if ts[0].diskStops then ([ts[0].asked] + Befores(ts[1..]), n, true)
    else
      var (rest, m, cut) := Taken(ts[1..], batch, if ts[0].ok then n + 1 else n);
      ([ts[0].after] + rest, m, cut)
  }

  function Befores(ts: seq<Turn>): (ws: seq<Workload>)
    ensures |ws| == |ts| && forall i :: 0 <= i < |ts| ==> ws[i] == ts[i].was
  {
    seq(|ts|, i requires 0 <= i < |ts| => ts[i].was)
  }

  lemma StopsAtOnce(ts: seq<Turn>, batch: nat, n: nat)
    requires ts == [] || !GoesOn(ts, batch, n, 0)
    ensures var (ds, m, cut) := Taken(ts, batch, n); StoppedAt(ts, batch, n, 0, ds, m, cut)
  {
    assert ts[..0] == [];
  }

  lemma {:induction false} TakenStopsAt(ts: seq<Turn>, batch: nat, n: nat) returns (i: nat)
    ensures var (ds, m, cut) := Taken(ts, batch, n); StoppedAt(ts, batch, n, i, ds, m, cut)
    decreases |ts|
  {
    if ts == [] || !GoesOn(ts, batch, n, 0) {
      StopsAtOnce(ts, batch, n);
      i := 0;
    } else {
      var n1 := if ts[0].ok then n + 1 else n;
      assert ts[..0] == [];
      var k := TakenStopsAt(ts[1..], batch, n1);
      var (rest, m, cut) := Taken(ts[1..], batch, n1);
      assert ts == [ts[0]] + ts[1..];
      StopsOneOn(ts[0], ts[1..], batch, n, k, rest, m, cut);
      i := k + 1;
    }
  }

  /** The sweep takes its workloads' turns. */
  lemma {:induction false} SweepTakesTurns(cfg: Config, ws: seq<Workload>, es: seq<Env>, now: int, n: nat)
    requires Ready(ws, es, now)
    ensures Sweep(cfg, ws, es, now, n) == Taken(Turns(cfg, ws, es, now), cfg.Batch(), n)
    decreases |ws|
  {
    var ts := Turns(cfg, ws, es, now);
    if ws != [] {
      assert ts[1..] == Turns(cfg, ws[1..], es[1..], now) && ts[0] == TurnOf(cfg, ws[0], now, es[0]);
      assert Befores(ts) == ws && Befores(ts[1..]) == ws[1..];
      SweepTakesTurns(cfg, ws[1..], es[1..], now, if ts[0].ok then n + 1 else n);
    }
  }

  /**
   * What a sweep does, whatever its environment: there is one place, i, where it
   * stops. Before it every workload was asked about and, if due, tried; past it
   * none was touched. It stops at the end of the list, a cancel, a full batch, or
   * a due workload under a busy disk, and only a cancel or the disk cuts it short.
   */
  lemma SweepStopsAt(cfg: Config, ws: seq<Workload>, es: seq<Env>, now: int, n: nat) returns (i: nat)
    requires Ready(ws, es, now)
    ensures var (ds, m, cut) := Sweep(cfg, ws, es, now, n);
      StoppedAt(Turns(cfg, ws, es, now), cfg.Batch(), n, i, ds, m, cut)
  {
    SweepTakesTurns(cfg, ws, es, now, n);
    i := TakenStopsAt(Turns(cfg, ws, es, now), cfg.Batch(), n);
  }

  // ------------------------------------------------- the control plane's state

  /** noted is the scheduler's memory of the newest snapshot; snapshots are the stored ones' times, newest first. */
  datatype Plane = Plane(noted: Option<int>, snapshots: seq<int>)

  datatype PlaneEnv = PlaneEnv(listOk: bool, at: int, createOk: bool, retainOk: bool)

  function NewestSnapshot(p: Plane, listOk: bool): Option<int> {
    if listOk && p.snapshots != [] then Some(T.Listed(p.snapshots[0])) else None
  }

  /** stateBackupAt looks the newest snapshot up as long as it knows of none. */
  function StateBackupAt(p: Plane, listOk: bool): Option<int> {
    if p.noted.Some? then p.noted else NewestSnapshot(p, listOk)
  }

  /** stateBackup: one made within the second of the newest replaces it. */
  function StateBackup(cfg: Config, p: Plane, e: PlaneEnv): Plane {
    if !e.createOk then p
    else
      var older := if p.snapshots != [] && T.Listed(p.snapshots[0]) == T.Listed(e.at) then p.snapshots[1..] else p.snapshots;
      var all := [e.at] + older;
      Plane(Some(e.at), if e.retainOk && cfg.keep < |all| then all[..cfg.keep] else all)
  }

  /** The end of a sweep that was not cut short: the state is snapshotted when its last snapshot is old. */
  function AfterSweep(cfg: Config, p: Plane, now: int, e: PlaneEnv, cut: bool): Plane {
    if cut then p
    else
      var at := StateBackupAt(p, e.listOk);
      if at.Some? && now - at.value < cfg.interval then p.(noted := at)
      else StateBackup(cfg, p.(noted := at), e)
  }

  /** After a sweep that was not cut short the state has a stored snapshot younger than the interval, unless making it failed. */
  lemma SweepKeepsTheStateYoung(cfg: Config, p: Plane, now: int, e: PlaneEnv)
    requires cfg.interval > 0 && cfg.keep >= 1 && e.at >= now && (p.noted.Some? ==> p.snapshots != [] && p.noted.value <= p.snapshots[0])
    ensures var d := AfterSweep(cfg, p, now, e, false);
      && (d.noted.Some? ==> d.snapshots != [] && d.noted.value <= d.snapshots[0])
      && (e.createOk ==> d.snapshots != [] && now - d.snapshots[0] < cfg.interval)
  {}

  /**
   * When a sweep, or a drain, snapshots the state: never when it was cut short,
   * and else when the newest snapshot it knows of, or finds, is old. The snapshot
   * is the newest then, and retention may drop old ones.
   */
  lemma StateIsSnapshotIff(cfg: Config, p: Plane, now: int, e: PlaneEnv, cut: bool)
    ensures var known := if p.noted.Some? then p.noted
                         else if e.listOk && p.snapshots != [] then Some(T.Listed(p.snapshots[0])) else None;
      var d := AfterSweep(cfg, p, now, e, cut);
      if cut then d == p
      else if e.createOk && (known.Some? ==> now - known.value >= cfg.interval) then
        && d.noted == Some(e.at)
        && (cfg.keep >= 1 || !e.retainOk ==> d.snapshots != [] && d.snapshots[0] == e.at)
        && (e.retainOk ==> |d.snapshots| <= cfg.keep)
        && (!e.retainOk ==> |d.snapshots| >= |p.snapshots| && forall i :: 1 <= i < |p.snapshots| ==> p.snapshots[i] in d.snapshots)
      else d.noted == known && d.snapshots == p.snapshots
  {
    var older := if p.snapshots != [] && T.Listed(p.snapshots[0]) == T.Listed(e.at) then p.snapshots[1..] else p.snapshots;
    assert forall i :: 1 <= i < |p.snapshots| ==> p.snapshots[i] == older[if |older| == |p.snapshots| then i else i - 1];
    assert forall x :: x in older ==> x in [e.at] + older;
  }

  lemma MoveOver<T>(done: seq<T>, d: T, rest: seq<T>)
    ensures done + ([d] + rest) == (done + [d]) + rest
  {}

  /** One workload of a sweep: what it becomes, whether it was backed up, whether the disk stopped the sweep. */
  method SweepOne(cfg: Config, ws: seq<Workload>, es: seq<Env>, now: int, n: nat)
      returns (d: Workload, ok: bool, busy: bool)
    requires Ready(ws, es, now) && ws != [] && !es[0].cancelled && n < cfg.Batch()
    ensures busy ==> !ok && Sweep(cfg, ws, es, now, n) == ([d] + ws[1..], n, true)
    ensures !busy ==> var r := Sweep(cfg, ws[1..], es[1..], now, if ok then n + 1 else n);
      Sweep(cfg, ws, es, now, n) == ([d] + r.0, r.1, r.2)
  {
    var due := Due(cfg, ws[0], now, es[0]);
    d, ok, busy := Asked(cfg, ws[0], now, es[0]), false, false;
    if !due { return; }
    if es[0].busy { return d, false, true; }
    AskingKeepsMeets(cfg, ws[0], now, es[0]);
    var r := Attempt(cfg, d, now, es[0]);
    d, ok := r.0, r.1;
  }

  /** The sweep as the scheduler runs it: it is cut short by a cancel or a busy disk, and ends at a full batch. */
  method SweepBackups(cfg: Config, ws: seq<Workload>, es: seq<Env>, now: int, p: Plane, pe: PlaneEnv)
      returns (ds: seq<Workload>, n: nat, q: Plane)
    requires Ready(ws, es, now)
    ensures var r := Sweep(cfg, ws, es, now, 0); ds == r.0 && n == r.1 && q == AfterSweep(cfg, p, now, pe, r.2)
  {
    ds, n, q := [], 0, p;
    var todo, etodo := ws, es;
    assert ds + Sweep(cfg, ws, es, now, 0).0 == Sweep(cfg, ws, es, now, 0).0;
    while todo != []
      invariant Ready(todo, etodo, now) && q == p
      invariant var r := Sweep(cfg, todo, etodo, now, n); Sweep(cfg, ws, es, now, 0) == (ds + r.0, r.1, r.2)
      decreases |todo|
    {
      if etodo[0].cancelled { return ds + todo, n, q; }
      if n >= cfg.Batch() { break; }
      var d, ok, busy := SweepOne(cfg, todo, etodo, now, n);
      if busy {
        ds := ds + ([d] + todo[1..]);
        return ds, n, q;
      }
      var m := if ok then n + 1 else n;
      MoveOver(ds, d, Sweep(cfg, todo[1..], etodo[1..], now, m).0);
      ds, n, todo, etodo := ds + [d], m, todo[1..], etodo[1..];
    }
    ds := ds + todo;
    var at := StateBackupAt(q, pe.listOk);
    q := q.(noted := at);
    if at.None? || now - at.value >= cfg.interval { q := StateBackup(cfg, q, pe); }
  }

  // ------------------------------------------------------------------ progress

  ghost predicate Sound(cfg: Config, w: Workload) {
    match w
    case NotBackedUp => true
    case DumpBacked(db, _) => D.Inv(cfg.Dump(), db) && H.Dated(db) && db.job.Idle?
    case TarBacked(tar) => T.Inv(tar) && tar.reading.None?
  }

  ghost predicate AllSound(cfg: Config, ws: seq<Workload>) {
    forall i :: 0 <= i < |ws| ==> Sound(cfg, ws[i])
  }

  function DueCount(cfg: Config, ws: seq<Workload>, es: seq<Env>, now: int): nat
    requires |ws| == |es|
    decreases |ws|
  {
    if ws == [] then 0
    else (if Due(cfg, ws[0], now, es[0]) then 1 else 0) + DueCount(cfg, ws[1..], es[1..], now)
  }

  lemma AskingChangesNothing(cfg: Config, w: Workload, now: int, e: Env)
    requires cfg.interval > 0 && cfg.keep >= 1 && Sound(cfg, w) && Meets(w, e, now)
    ensures var a := Asked(cfg, w, now, e);
      && Sound(cfg, a) && Meets(a, e, now) && Due(cfg, a, now, e) == Due(cfg, w, now, e)
      && (e.Honest(w) ==> e.Honest(a))
  {
    if w.TarBacked? { T.InvStep(cfg.Tar(), w.tar, T.Due(now, e.listOk, e.walkOk)); }
  }

  /** Less than the interval passes between a backup of w and t. */
  predicate Soon(cfg: Config, w: Workload, e: Env, t: int)
    requires e.s.Store?
  {
    match w
    case NotBackedUp => true
    case DumpBacked(_, _) => t - e.s.now < cfg.interval
    case TarBacked(tar) => t - tar.now < cfg.interval
  }

  /** The runtime does not say of a running database that it is stopped. */
  predicate Seen(w: Workload, e: Env) { w.DumpBacked? && w.db.running ==> e.saw }

  /** A backup that goes through leaves its workload not due, for the interval; one that fails keeps it sound. */
  lemma SuccessCovers(cfg: Config, w: Workload, now: int, e: Env, later: Env, t: int)
    requires cfg.interval > 0 && cfg.keep >= 1 && Sound(cfg, w) && Meets(w, e, now)
    requires w.DumpBacked? ==> !D.Missed(w.db, e.x)
    ensures var (d, ok) := Attempt(cfg, w, now, e);
      && Sound(cfg, d) && (e.Good() && e.Honest(w) && Due(cfg, w, now, e) ==> ok)
      && (ok && Seen(w, later) && Soon(cfg, w, e, t) ==> !Due(cfg, d, t, later))
  {
    match w {
      case NotBackedUp =>
      case DumpBacked(db, failedAt) => DumpSuccess(cfg, db, failedAt, now, e, later, t);
      case TarBacked(tar) => T.ArchiveKeeps(cfg.Tar(), tar, true, e.backing);
    }
  }

  lemma DumpSuccess(cfg: Config, db: D.Db, failedAt: Option<int>, now: int, e: Env, later: Env, t: int)
    requires cfg.keep >= 1 && D.Inv(cfg.Dump(), db) && H.Dated(db) && Meets(DumpBacked(db, failedAt), e, now)
    requires !D.Missed(db, e.x)
    ensures var w := DumpBacked(db, failedAt);
      var (d, ok) := Attempt(cfg, w, now, e);
      && Sound(cfg, d) && (e.Good() && e.Honest(w) ==> ok)
      && (ok && Seen(w, later) && t - e.s.now < cfg.interval ==> !Due(cfg, d, t, later))
  {
    if !e.gone && (e.again || !D.DumpCurrent(db)) {
      D.DailyDumpCovers(cfg.Dump(), db, e.again, e.x, e.s, e.sealOk);
      H.DailyDumpDates(cfg.Dump(), db, e.again, e.x, e.s, e.sealOk);
      D.BackupDumpIdles(cfg.Dump(), db, e.x, e.s, e.sealOk);
      if e.Good() && e.Honest(DumpBacked(db, failedAt)) { GoodDumpSucceeds(cfg.Dump(), db, e); }
    }
  }

  lemma GoodDumpSucceeds(cfg: D.Config, db: D.Db, e: Env)
    requires e.Good() && db.job.Idle? && !e.x.reap && e.s.now >= db.now && e.x.seen == db.running
    ensures D.BackupDump(cfg, db, e.x, e.s, e.sealOk).1
  {
    D.ExportJobs(cfg, db, e.x);
    var d1 := D.Next(cfg, db, e.x);
    D.StoreRecords(cfg, d1, e.s);
  }

  predicate AllGood(ws: seq<Workload>, es: seq<Env>)
    requires |ws| == |es|
  {
    forall i :: 0 <= i < |es| ==> es[i].Good() && es[i].Honest(ws[i])
  }

  /** With nothing failing, one sweep takes the due count down by the batch, or to zero. */
  lemma {:induction false} GoodSweepTakesABatch(cfg: Config, ws: seq<Workload>, es: seq<Env>, now: int, n: nat)
    requires Ready(ws, es, now) && AllSound(cfg, ws) && cfg.interval > 0 && cfg.keep >= 1 && n <= cfg.Batch()
    requires AllGood(ws, es)
    ensures var (ds, m, cut) := Sweep(cfg, ws, es, now, n);
      && AllSound(cfg, ds) && !cut
      && m - n == Min(cfg.Batch() - n, DueCount(cfg, ws, es, now))
      && DueCount(cfg, ds, es, now) == DueCount(cfg, ws, es, now) - (m - n)
    decreases |ws|
  {
    if ws != [] && n < cfg.Batch() {
      var w, e := ws[0], es[0];
      assert Sound(cfg, w) && Meets(w, e, now);
      GoodOne(cfg, w, now, e);
      var (d, ok) := Swept(cfg, w, now, e);
      var n' := if ok then n + 1 else n;
      GoodSweepTakesABatch(cfg, ws[1..], es[1..], now, n');
      var (rest, m, cut) := Sweep(cfg, ws[1..], es[1..], now, n');
      var ds := [d] + rest;
      assert ds[0] == d && ds[1..] == rest;
      assert Sweep(cfg, ws, es, now, n) == (ds, m, cut);
    }
  }

  /**
   * A dump that fails is not tried again within the hour, and is tried then if
   * the database has no dump or is down without a current one; until it goes
   * through the report never calls it stale, and once it does never failed.
   */
  lemma FailureWaitsAnHour(cfg: Config, db: D.Db, failedAt: Option<int>, now: int, e: Env, later: Env, t: int)
    requires Meets(DumpBacked(db, failedAt), e, now) && !e.gone
    ensures var (d, ok) := Attempt(cfg, DumpBacked(db, failedAt), now, e);
      && d.DumpBacked?
      && (!ok ==> Cover(cfg, d, t, later) != Stale)
      && (!ok && t - e.failTime < 3600 * SECOND ==> !Due(cfg, d, t, later))
      && (!ok && t - e.failTime >= 3600 * SECOND && !D.DumpCurrent(d.db) && (d.db.dump.None? || !later.saw) ==> Due(cfg, d, t, later))
      && (ok && (e.again || !D.DumpCurrent(db)) ==> Cover(cfg, d, t, later) != Failed)
  {}

  /** When nothing fails, a workload is backed up if it was due, and then it is not due. */
  lemma GoodOne(cfg: Config, w: Workload, now: int, e: Env)
    requires cfg.interval > 0 && cfg.keep >= 1 && Sound(cfg, w) && Meets(w, e, now) && e.Good() && e.Honest(w)
    ensures var (d, ok) := Swept(cfg, w, now, e);
      Sound(cfg, d) && ok == Due(cfg, w, now, e) && !Due(cfg, d, now, e)
  {
    AskingChangesNothing(cfg, w, now, e);
    var a := Asked(cfg, w, now, e);
    if Due(cfg, w, now, e) { SuccessCovers(cfg, a, now, e, e, now); }
  }

  /** States before each sweep; between sweeps anything may change that makes no more workloads due. */
  ghost predicate NoNewDues(cfg: Config, states: seq<seq<Workload>>, ess: seq<seq<Env>>, nows: seq<int>) {
    && |states| == |ess| == |nows| > 0
    && (forall k :: 0 <= k < |states| ==>
      Ready(states[k], ess[k], nows[k]) && AllSound(cfg, states[k]) && AllGood(states[k], ess[k]))
    && (forall k :: 0 <= k < |states| - 1 ==>
      DueCount(cfg, states[k + 1], ess[k + 1], nows[k + 1])
        <= DueCount(cfg, Sweep(cfg, states[k], ess[k], nows[k], 0).0, ess[k], nows[k]))
  }

  function CeilDiv(n: nat, d: nat): nat
    requires d > 0
  {
    (n + d - 1) / d
  }

  lemma CeilCovers(n: nat, d: nat)
    requires d > 0
    ensures CeilDiv(n, d) * d >= n
  {
    var k := CeilDiv(n, d);
    assert n + d - 1 == k * d + (n + d - 1) % d;
  }

  lemma OneMoreBatch(n: nat, k: nat, batch: nat)
    ensures n - k * batch - batch == n - (k + 1) * batch
  {}

  lemma {:induction false} SweepsTakeBatches(cfg: Config, states: seq<seq<Workload>>, ess: seq<seq<Env>>, nows: seq<int>, k: nat)
    requires cfg.interval > 0 && cfg.keep >= 1 && NoNewDues(cfg, states, ess, nows) && k < |states|
    ensures DueCount(cfg, states[k], ess[k], nows[k]) <= Max(0, DueCount(cfg, states[0], ess[0], nows[0]) - k * cfg.Batch())
  {
    if k > 0 {
      SweepsTakeBatches(cfg, states, ess, nows, k - 1);
      var due := DueCount(cfg, states[k - 1], ess[k - 1], nows[k - 1]);
      GoodSweepTakesABatch(cfg, states[k - 1], ess[k - 1], nows[k - 1], 0);
      assert DueCount(cfg, states[k], ess[k], nows[k]) <= due - Min(cfg.Batch(), due) by {
        assert DueCount(cfg, states[k - 1 + 1], ess[k - 1 + 1], nows[k - 1 + 1])
            <= DueCount(cfg, Sweep(cfg, states[k - 1], ess[k - 1], nows[k - 1], 0).0, ess[k - 1], nows[k - 1]);
      }
      OneMoreBatch(DueCount(cfg, states[0], ess[0], nows[0]), k - 1, cfg.Batch());
    }
  }

  /** N due workloads are none after ceil(N / batch) sweeps, if nothing fails and nothing new falls due. */
  lemma BacklogClears(cfg: Config, states: seq<seq<Workload>>, ess: seq<seq<Env>>, nows: seq<int>)
    requires cfg.interval > 0 && cfg.keep >= 1 && NoNewDues(cfg, states, ess, nows)
    requires |states| > CeilDiv(DueCount(cfg, states[0], ess[0], nows[0]), cfg.Batch())
    ensures var k := CeilDiv(DueCount(cfg, states[0], ess[0], nows[0]), cfg.Batch());
      DueCount(cfg, states[k], ess[k], nows[k]) == 0
  {
    var n := DueCount(cfg, states[0], ess[0], nows[0]);
    var k := CeilDiv(n, cfg.Batch());
    CeilCovers(n, cfg.Batch());
    SweepsTakeBatches(cfg, states, ess, nows, k);
  }

  // ------------------------------------------------------------------ coverage

  function Cover(cfg: Config, w: Workload, now: int, e: Env): Status
    requires !w.NotBackedUp?
  {
    match w
    case DumpBacked(db, failedAt) => CoverDump(cfg, db, e.saw, failedAt, now)
    case TarBacked(tar) =>
      match T.CoverTar(cfg.Tar(), tar, now, e.listOk, e.walkOk) {
        case Current => Current
        case RecentBackup => Recent
        case Stale => Stale
      }
  }

  /** The verdict behind safe_to_wipe: the control-plane state is backed up and nothing is stale or failed. */
  ghost predicate SafeToWipe(cfg: Config, ws: seq<Workload>, es: seq<Env>, now: int, stateBackupAt: Option<int>)
    requires |ws| == |es|
  {
    && stateBackupAt.Some?
    && forall i :: 0 <= i < |ws| && !ws[i].NotBackedUp? ==> Cover(cfg, ws[i], now, es[i]) in {Current, Recent}
  }

  /** The report's line of each workload; None for one that is not backed up. */
  function Lines(cfg: Config, ws: seq<Workload>, es: seq<Env>, now: int): seq<Option<Status>>
    requires |ws| == |es|
  {
    seq(|ws|, i requires 0 <= i < |ws| => if ws[i].NotBackedUp? then None else Some(Cover(cfg, ws[i], now, es[i])))
  }

  /** Which of the first n lines read st. */
  function Having(lines: seq<Option<Status>>, n: nat, st: Option<Status>): set<int>
    requires n <= |lines|
  {
    set i | 0 <= i < n && lines[i] == st
  }

  lemma OneMore(lines: seq<Option<Status>>, n: nat, st: Option<Status>)
    requires n < |lines|
    ensures |Having(lines, n + 1, st)| == |Having(lines, n, st)| + if lines[n] == st then 1 else 0
  {
    assert Having(lines, n + 1, st) == Having(lines, n, st) + if lines[n] == st then {n} else {};
  }

  lemma NoneHas(lines: seq<Option<Status>>, st: Option<Status>)
    ensures |Having(lines, |lines|, st)| == 0 <==> st !in lines
  {
    if st in lines {
      var i :| 0 <= i < |lines| && lines[i] == st;
      assert i in Having(lines, |lines|, st);
    } else {
      assert Having(lines, |lines|, st) == {};
    }
  }

  /** Coverage's totals and verdict, counted in one pass over the list. */
  method Coverage(cfg: Config, ws: seq<Workload>, es: seq<Env>, now: int, p: Plane, listOk: bool)
      returns (notBackedUp: nat, totals: map<Status, nat>, safeToWipe: bool)
    requires |ws| == |es|
    ensures notBackedUp == |Having(Lines(cfg, ws, es, now), |ws|, None)|
    ensures totals.Keys == {Current, Recent, Stale, Failed}
    ensures forall st :: st in totals ==> totals[st] == |Having(Lines(cfg, ws, es, now), |ws|, Some(st))|
    ensures safeToWipe <==> SafeToWipe(cfg, ws, es, now, NewestSnapshot(p, listOk))
  {
    ghost var lines := Lines(cfg, ws, es, now);
    notBackedUp := 0;
    totals := map[Current := 0, Recent := 0, Stale := 0, Failed := 0];
    for i := 0 to |ws|
      invariant totals.Keys == {Current, Recent, Stale, Failed} && notBackedUp == |Having(lines, i, None)|
      invariant forall st :: st in totals ==> totals[st] == |Having(lines, i, Some(st))|
    {
      forall st ensures |Having(lines, i + 1, st)| == |Having(lines, i, st)| + if lines[i] == st then 1 else 0 {
        OneMore(lines, i, st);
      }
      if ws[i].NotBackedUp? {
        notBackedUp := notBackedUp + 1;
      } else {
        var st := Cover(cfg, ws[i], now, es[i]);
        totals := totals[st := totals[st] + 1];
      }
    }
    var at := NewestSnapshot(p, listOk);
    safeToWipe := at.Some? && totals[Stale] == 0 && totals[Failed] == 0;
    NoneHas(lines, Some(Stale));
    NoneHas(lines, Some(Failed));
    SafeIffNoneBad(cfg, ws, es, now, at);
  }

  lemma SafeIffNoneBad(cfg: Config, ws: seq<Workload>, es: seq<Env>, now: int, at: Option<int>)
    requires |ws| == |es|
    ensures var lines := Lines(cfg, ws, es, now);
      SafeToWipe(cfg, ws, es, now, at) <==> at.Some? && Some(Stale) !in lines && Some(Failed) !in lines
  {
    var lines := Lines(cfg, ws, es, now);
    if Some(Stale) !in lines && Some(Failed) !in lines {
      forall i | 0 <= i < |ws| && !ws[i].NotBackedUp? ensures Cover(cfg, ws[i], now, es[i]) in {Current, Recent} {
        assert lines[i] == Some(Cover(cfg, ws[i], now, es[i]));
      }
    }
  }

  // -------------------------------------------------------------------- drains

  /** backupAll's part for one workload, whatever its age, and whether an error was left. */
  function DrainOne(cfg: Config, w: Workload, now: int, e: Env): (Workload, bool)
    requires Meets(w, e, now)
  {
    if w.NotBackedUp? || (w.TarBacked? && T.UnchangedSinceBackup(w.tar, e.walkOk)) then (w, true)
    else Attempt(cfg, w, now, e)
  }

  /** A drain passes over what is not backed up, or has not changed since it was, and backs up the rest whatever its age. */
  lemma DrainSparesTheUnchanged(cfg: Config, w: Workload, now: int, e: Env)
    requires Meets(w, e, now)
    ensures var (d, ok) := DrainOne(cfg, w, now, e);
      var spared := w.NotBackedUp?
        || (w.TarBacked? && e.walkOk && w.tar.backups != [] && w.tar.lastWrite <= T.Listed(w.tar.backups[0].createdAt));
      if spared then d == w && ok else (d, ok) == Attempt(cfg, w, now, e)
  {}

  method DrainNext(cfg: Config, w: Workload, now: int, e: Env) returns (d: Workload)
    requires Meets(w, e, now)
    ensures d == DrainOne(cfg, w, now, e).0
  {
    if w.NotBackedUp? { return w; }
    if w.TarBacked? && T.UnchangedSinceBackup(w.tar, e.walkOk) { return w; }
    var r := Attempt(cfg, w, now, e);
    return r.0;
  }

  /** The drain reaches workload i. */
  predicate Reached(es: seq<Env>, i: nat)
    requires i < |es|
  {
    forall j :: 0 <= j <= i ==> !es[j].cancelled
  }

  /** backupAll: every workload that is reached; one that fails is left as it is and the rest go on. */
  predicate Drained(cfg: Config, ws: seq<Workload>, es: seq<Env>, now: int, ds: seq<Workload>)
    requires Ready(ws, es, now)
  {
    |ds| == |ws| && forall i :: 0 <= i < |ws| ==> ds[i] == if Reached(es, i) then DrainOne(cfg, ws[i], now, es[i]).0 else ws[i]
  }

  /** The first n workloads were drained, to ds, and nobody had cancelled. */
  predicate DrainedSoFar(cfg: Config, ws: seq<Workload>, es: seq<Env>, now: int, n: nat, ds: seq<Workload>)
    requires Ready(ws, es, now) && n <= |ws|
  {
    |ds| == n && forall j :: 0 <= j < n ==> !es[j].cancelled && ds[j] == DrainOne(cfg, ws[j], now, es[j]).0
  }

  lemma DrainedTo(cfg: Config, ws: seq<Workload>, es: seq<Env>, now: int, n: nat, ds: seq<Workload>)
    requires Ready(ws, es, now) && n <= |ws| && DrainedSoFar(cfg, ws, es, now, n, ds) && (n < |ws| ==> es[n].cancelled)
    ensures Drained(cfg, ws, es, now, ds + ws[n..])
  {
    var all := ds + ws[n..];
    forall i | 0 <= i < |ws| ensures all[i] == if Reached(es, i) then DrainOne(cfg, ws[i], now, es[i]).0 else ws[i] {
      if i >= n { assert !Reached(es, i); }
    }
  }

  /** Every workload in turn, then the state; a cancel ends both. */
  method DrainAll(cfg: Config, ws: seq<Workload>, es: seq<Env>, now: int, p: Plane, pe: PlaneEnv)
      returns (ds: seq<Workload>, q: Plane)
    requires Ready(ws, es, now)
    ensures Drained(cfg, ws, es, now, ds)
    ensures q == if (exists i :: 0 <= i < |es| && es[i].cancelled) then p else StateBackup(cfg, p, pe)
  {
    ds := [];
    for i := 0 to |ws|
      invariant DrainedSoFar(cfg, ws, es, now, i, ds)
    {
      if es[i].cancelled {
        DrainedTo(cfg, ws, es, now, i, ds);
        return ds + ws[i..], p;
      }
      var d := DrainNext(cfg, ws[i], now, es[i]);
      ds := ds + [d];
    }
    DrainedTo(cfg, ws, es, now, |ws|, ds);
    assert ds + ws[|ws|..] == ds;
    q := StateBackup(cfg, p, pe);
  }

  /** The report of a drain comes less than the interval after the backup it shows, counted as the report counts. */
  predicate ReportedSoon(cfg: Config, w: Workload, e: Env, t: int)
    requires e.s.Store?
  {
    Soon(cfg, w, e, t) && (w.TarBacked? ==> t - T.Listed(w.tar.now) < cfg.interval)
  }

  /**
   * A drain leaves what it went through with current or recent in the report,
   * whatever failed beside it; later is the environment of the report, at t.
   */
  lemma DrainCovers(cfg: Config, w: Workload, now: int, e: Env, later: Env, t: int)
    requires cfg.interval > 0 && cfg.keep >= 1 && Sound(cfg, w) && Meets(w, e, now) && !w.NotBackedUp?
    requires ReportedSoon(cfg, w, e, t) && Seen(w, later) && (w.DumpBacked? ==> !D.Missed(w.db, e.x))
    requires w.TarBacked? ==> later.listOk && (later.walkOk || !e.walkOk)
    ensures var (d, ok) := DrainOne(cfg, w, now, e);
      ok ==> !d.NotBackedUp? && Cover(cfg, d, t, later) in {Current, Recent}
  {
    var (d, ok) := DrainOne(cfg, w, now, e);
    if w.DumpBacked? {
      SuccessCovers(cfg, w, now, e, later, t);
      if ok { DueIffUncovered(cfg, d.db, later.saw, later.saw, d.failedAt, t); }
    } else if ok && !T.UnchangedSinceBackup(w.tar, e.walkOk) {
      T.ArchiveKeeps(cfg.Tar(), w.tar, true, e.backing);
      T.ListedInOrder(w.tar.now, d.tar.backups[0].createdAt);
    }
  }

  /** With nothing failing and no false answer, a drain makes the box safe to wipe. */
  lemma DrainIsSafe(cfg: Config, ws: seq<Workload>, es: seq<Env>, now: int, ds: seq<Workload>,
                    p: Plane, pe: PlaneEnv, laters: seq<Env>, t: int)
    requires cfg.interval > 0 && cfg.keep >= 1 && Ready(ws, es, now) && AllSound(cfg, ws) && Drained(cfg, ws, es, now, ds)
    requires AllGood(ws, es) && pe.createOk && |laters| == |ws|
    requires forall i :: 0 <= i < |ws| ==>
      ReportedSoon(cfg, ws[i], es[i], t) && Seen(ws[i], laters[i]) && laters[i].listOk && laters[i].walkOk
    ensures SafeToWipe(cfg, ds, laters, t, NewestSnapshot(StateBackup(cfg, p, pe), true))
  {
    forall i | 0 <= i < |ds| && !ds[i].NotBackedUp?
      ensures Cover(cfg, ds[i], t, laters[i]) in {Current, Recent}
    {
      assert Sound(cfg, ws[i]) && Meets(ws[i], es[i], now) && es[i].Good();
      assert Reached(es, i) && ds[i] == DrainOne(cfg, ws[i], now, es[i]).0;
      DrainGoesThrough(cfg, ws[i], now, es[i]);
      DrainCovers(cfg, ws[i], now, es[i], laters[i], t);
    }
  }

  lemma DrainGoesThrough(cfg: Config, w: Workload, now: int, e: Env)
    requires Meets(w, e, now) && e.Good() && e.Honest(w)
    ensures DrainOne(cfg, w, now, e).1
  {
    if w.DumpBacked? { GoodDumpSucceeds(cfg.Dump(), w.db, e); }
  }

  // --------------------------------------------------- what the report is worth

  /**
   * A dump is dated when it is stored, so what the report calls recent is less
   * than the interval old if and only if no time passed since its export.
   */
  lemma RecentIsYoungIff(cfg: Config, db: D.Db, x: D.Event, s: D.Event, sealOk: bool)
    requires db.job.Idle? && x.Export? && s.Store? && s.now >= db.now && D.BackupDump(cfg.Dump(), db, x, s, sealOk).1
    ensures var d := D.BackupDump(cfg.Dump(), db, x, s, sealOk).0;
      d.dump.Some? && ((forall t :: Young(cfg, d.dump.value.at, t) ==> Young(cfg, d.asOf, t)) <==> s.now == db.now)
  {
    H.DumpIsOlderThanItsStamp(cfg.Dump(), db, x, s, sealOk);
    var last := s.now + cfg.interval - 1;
    assert Young(cfg, s.now, last) && (Young(cfg, db.now, last) <==> s.now == db.now);
  }

  predicate Young(cfg: Config, at: int, now: int) { now - at < cfg.interval }

  /** The recorded contents are those of an instant less than the interval and the export before now. */
  ghost predicate YoungDump(cfg: Config, db: D.Db, now: int) {
    && db.dump.Some?
    && exists i :: H.HeldAsOf(db, i) && db.hist[i].time <= db.dump.value.at
                   && now - db.hist[i].time < cfg.interval + (db.dump.value.at - db.hist[i].time)
  }

  /** The backup the dump names is still there, if it names one; it is unless someone removed it, or a dump state was lost. */
  ghost predicate StillStored(cfg: Config, db: D.Db) {
    && db.dump.Some?
    && (D.Rebuildable(cfg.Dump(), db) <==> db.dump.value.backupId.None? || db.dump.value.backupId.value in db.archives)
    && (!db.torn && !D.NamedDeleted(db) ==> D.Rebuildable(cfg.Dump(), db))
  }

  /** What the store can give back of one workload. */
  ghost predicate Kept(cfg: Config, w: Workload, now: int) {
    match w
    case NotBackedUp => true
    case DumpBacked(db, _) =>
      && StillStored(cfg, db)
      && (if D.DumpCurrent(db) then D.Recoverable(cfg.Dump(), db) && (db.tainted || db.content == db.dump.value.content)
          else YoungDump(cfg, db, now))
    case TarBacked(tar) =>
      && tar.backups != []
      && (if tar.lastWrite <= T.Listed(tar.backups[0].createdAt) then T.Hidden(tar) || tar.backups[0].content == tar.content
          else tar.backups[0].whole ==> T.LagBounded(cfg.Tar(), tar, now))
  }

  /**
   * When the report says the box is safe to wipe, every database with a current
   * dump can be rebuilt exactly, every other one with the contents it held at an
   * instant less than the interval and its export ago, and every tar-backed data
   * dir exactly, if nothing was written since its newest archive was made, or with
   * a bounded lag: each under the condition that can fail.
   */
  lemma SafeToWipeKeepsEverything(cfg: Config, ws: seq<Workload>, es: seq<Env>, now: int, stateBackupAt: Option<int>)
    requires |ws| == |es| && AllSound(cfg, ws) && SafeToWipe(cfg, ws, es, now, stateBackupAt)
    ensures forall i :: 0 <= i < |ws| ==> Kept(cfg, ws[i], now)
  {
    forall i | 0 <= i < |ws| ensures Kept(cfg, ws[i], now) {
      assert Sound(cfg, ws[i]);
      if !ws[i].NotBackedUp? {
        assert Cover(cfg, ws[i], now, es[i]) in {Current, Recent};
        CoveredIsKept(cfg, ws[i], now, es[i]);
      }
    }
  }

  lemma CoveredIsKept(cfg: Config, w: Workload, now: int, e: Env)
    requires Sound(cfg, w) && !w.NotBackedUp? && Cover(cfg, w, now, e) in {Current, Recent}
    ensures Kept(cfg, w, now)
  {
    match w {
      case DumpBacked(db, _) =>
        H.RebuildableIff(cfg.Dump(), db);
        if !D.DumpCurrent(db) {
          H.InstantOf(db);
          var i :| H.HeldAsOf(db, i);
          assert H.HeldAsOf(db, i) && db.hist[i].time <= db.dump.value.at;
        }
      case TarBacked(tar) => TarIsKept(cfg, tar, now, e);
    }
  }

  lemma TarIsKept(cfg: Config, tar: T.Tar, now: int, e: Env)
    requires T.Inv(tar) && tar.reading.None? && !T.CoverTar(cfg.Tar(), tar, now, e.listOk, e.walkOk).Stale?
    ensures Kept(cfg, TarBacked(tar), now)
  {
    T.CoverIsHonest(cfg.Tar(), tar, now, e.listOk, e.walkOk);
  }

  /** The instants of later sweeps, and what they make of the workload whose archive hides a write. */
  function Hiding(c: T.Content, later: seq<int>): T.Tar {
    T.Run(T.DAILY, T.Run(T.DAILY, T.Started(c), T.LateRun(c)), T.Sweeps(later))
  }

  /**
   * What the condition is for: with a store that stamps an archive after it was
   * read, a box with one workload is safe to wipe by its report, at every later
   * time, while no archive holds the last write. The scheduler does not find it
   * due and a drain passes it over.
   */
  lemma SafeToWipeLosesAWrite(cfg: Config, c: T.Content, later: seq<int>, e: Env, t: int, stateBackupAt: Option<int>)
    requires cfg.Tar() == T.DAILY && t >= 2 * SECOND && (forall i :: 0 <= i < |later| ==> 2 * SECOND <= later[i])
    requires e.listOk && e.walkOk && stateBackupAt.Some?
    ensures var w := TarBacked(Hiding(c, later));
      && SafeToWipe(cfg, [w], [e], t, stateBackupAt) && !Due(cfg, w, t, e)
      && (Meets(w, e, t) ==> DrainOne(cfg, w, t, e) == (w, true))
      && forall i :: 0 <= i < |w.tar.backups| ==> w.tar.backups[i].content != w.tar.content
  {
    T.LateStampHidesAWrite(c, t, later);
  }
}
