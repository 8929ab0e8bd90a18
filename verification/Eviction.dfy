/**
 * Evicting a project: back up every workload that is backed up, then delete
 * the project and prune what its workloads keep in the store.
 */
module Eviction {
  import opened Common
  import D = DumpSeal
  import T = TarLag
  import S = Schedule

  /** BackupBeforeEvict and BackupRetainDeleted. */
  datatype Policy = Policy(backupFirst: bool, keepDeleted: int)

  /** What DeleteProject meets: whether the project is found, its row is deleted, and its backups are pruned. */
  datatype Deletion = Deletion(found: bool, rowOk: bool, pruneOk: bool)

  /** One workload's part of backupBeforeEvict: what it becomes, and whether eviction may go on. */
  function BackupOne(cfg: S.Config, w: S.Workload, now: int, e: S.Env): (S.Workload, bool)
    requires S.Meets(w, e, now)
  {
    match w
    case NotBackedUp => (w, true)
    case DumpBacked(_, _) => S.Attempt(cfg, w, now, e)
    case TarBacked(tar) =>
      if T.UnchangedSinceBackup(tar, e.walkOk) then (w, true)
      else if e.gone then (w, false)
      else (S.TarBacked(T.Archive(cfg.Tar(), tar, false, e.backing)), e.backing.createOk)
  }

  /** backupBeforeEvict stops at the first workload whose backup fails. */
  function BackupAll(cfg: S.Config, ws: seq<S.Workload>, es: seq<S.Env>, now: int): (seq<S.Workload>, bool)
    requires S.Ready(ws, es, now)
    decreases |ws|
  {
    if ws == [] then ([], true)
    else
      var (d, ok) := BackupOne(cfg, ws[0], now, es[0]);
      if !ok then ([d] + ws[1..], false)
      else
        var (rest, allOk) := BackupAll(cfg, ws[1..], es[1..], now);
        ([d] + rest, allOk)
  }

  /** pruneDeletedBackups: types that are not backed up keep none, a negative setting prunes nothing. */
  function Prune(w: S.Workload, keepDeleted: int): S.Workload {
    match w
    case NotBackedUp => w
    case DumpBacked(db, f) =>
      if keepDeleted < 0 then w else S.DumpBacked(db.(archives := D.Retain(db.archives, keepDeleted)), f)
    case TarBacked(tar) =>
      if keepDeleted < 0 || |tar.backups| <= keepDeleted then w
      else S.TarBacked(tar.(backups := tar.backups[..keepDeleted]))
  }

  /** The instance is stopped for good; a database that ran is not shut down. */
  function Stop(w: S.Workload): S.Workload {
    match w
    case NotBackedUp => w
    case DumpBacked(db, f) => S.DumpBacked(db.(running := false), f)
    case TarBacked(tar) => S.TarBacked(tar.(running := false))
  }

  /** DeleteProject's part for one workload: stopped; then, if the row is gone, pruned, unless the store refuses. */
  function DeleteOne(w: S.Workload, keepDeleted: int, d: Deletion): S.Workload {
    if !d.found then w else if d.rowOk && d.pruneOk then Prune(Stop(w), keepDeleted) else Stop(w)
  }

  /** DeleteProject: every workload is stopped, then the project's row goes, then its files and what is beyond retention. */
  function Delete(ws: seq<S.Workload>, keepDeleted: int, d: Deletion): (r: seq<S.Workload>)
    ensures |r| == |ws|
    ensures forall i :: 0 <= i < |ws| ==> r[i] == DeleteOne(ws[i], keepDeleted, d)
  {
    seq(|ws|, i requires 0 <= i < |ws| => DeleteOne(ws[i], keepDeleted, d))
  }

  /** No server or workload of w runs. */
  predicate IsDown(w: S.Workload) {
    match w
    case NotBackedUp => true
    case DumpBacked(db, _) => !db.running
    case TarBacked(tar) => !tar.running
  }

  /** What the store holds of w in was and in now: the newest n archives, or with None all. */
  ghost predicate StoreHolds(was: S.Workload, now: S.Workload, n: Option<nat>) {
    match was
    case NotBackedUp => now.NotBackedUp?
    case DumpBacked(db, _) =>
      && now.DumpBacked? && now.db.content == db.content
      && (if n.Some? then D.IsNewest(db.archives, now.db.archives, n.value) else now.db.archives == db.archives)
    case TarBacked(tar) =>
      && now.TarBacked? && now.tar.content == tar.content
      && now.tar.backups <= tar.backups
      && |now.tar.backups| == if n.Some? && n.value <= |tar.backups| then n.value else |tar.backups|
  }

  /**
   * A workload of a project that was found is down afterwards; the store keeps
   * its newest keepDeleted archives if the row went, the setting is not
   * negative and the store let them be pruned, and else keeps them all.
   */
  lemma DeletionStopsAndPrunes(w: S.Workload, keepDeleted: int, d: Deletion)
    ensures var r := DeleteOne(w, keepDeleted, d);
      && (if d.found then IsDown(r) else r == w)
      && StoreHolds(w, r, if d.found && d.rowOk && d.pruneOk && keepDeleted >= 0 then Some(keepDeleted) else None)
  {
    if w.DumpBacked? && keepDeleted >= 0 { D.RetainKeepsTheNewest(w.db.archives, keepDeleted); }
  }

  /** DeleteProject's way through: mounts, driver volumes and microVM clones go before the row does. */
  function DeletionSteps(d: Deletion): seq<Step> {
    if !d.found then [] else if d.rowOk then [StopAndRelease, DeleteRow, Reclaim] else [StopAndRelease]
  }

  datatype Step = StopAndRelease | DeleteRow | Reclaim

  /**
   * The eviction of one project: the deletion's steps that were done, whether
   * the project is gone, and its workloads (or what the store keeps of them).
   */
  method EvictProject(cfg: S.Config, p: Policy, ws: seq<S.Workload>, es: seq<S.Env>, now: int, d: Deletion)
      returns (evicted: bool, after: seq<S.Workload>, steps: seq<Step>)
    requires S.Ready(ws, es, now)
    ensures var (ds, ok) := if p.backupFirst then BackupAll(cfg, ws, es, now) else (ws, true);
      && evicted == (ok && d.found && d.rowOk)
      && (ok <==> (p.backupFirst ==> forall i :: 0 <= i < |ws| ==> StepWorks(cfg, ws[i], es[i])))
      && after == (if ok then Delete(ds, p.keepDeleted, d) else ds)
      && steps == (if ok then DeletionSteps(d) else [])
      && (DeleteRow in steps <==> evicted) && (Reclaim in steps <==> evicted) && (StopAndRelease in steps <==> ok && d.found)
      && (ok ==> |after| == |ds| && forall i :: 0 <= i < |ds| ==>
            && (d.found ==> IsDown(after[i]))
            && StoreHolds(ds[i], after[i], if evicted && d.pruneOk && p.keepDeleted >= 0 then Some(p.keepDeleted) else None))
  {
    var done, ok := ws, true;
    GoesOnIff(cfg, ws, es, now);
    steps := [];
    if p.backupFirst { done, ok := BackupProject(cfg, ws, es, now); }
    if !ok { return false, done, steps; }
    after := Delete(done, p.keepDeleted, d);
    forall i | 0 <= i < |done| { DeletionStopsAndPrunes(done[i], p.keepDeleted, d); }
    if !d.found { return false, after, steps; }
    steps := steps + [StopAndRelease];
    if !d.rowOk { return false, after, steps; }
    return true, after, steps + [DeleteRow, Reclaim];
  }

  /** One workload's step works: it has nothing to back up, or its dump, or its archive, goes through. */
  predicate StepWorks(cfg: S.Config, w: S.Workload, e: S.Env)
    requires e.x.Export? && e.s.Store?
  {
    match w
    case NotBackedUp => true
    case DumpBacked(db, _) => !e.gone && ((!e.again && D.DumpCurrent(db)) || D.Answered(cfg.Dump(), db, e.x, e.s, e.sealOk))
    case TarBacked(tar) => T.UnchangedSinceBackup(tar, e.walkOk) || (!e.gone && e.backing.createOk)
  }

  lemma StepWorksIff(cfg: S.Config, w: S.Workload, now: int, e: S.Env)
    requires S.Meets(w, e, now)
    ensures BackupOne(cfg, w, now, e).1 <==> StepWorks(cfg, w, e)
  {
    if w.DumpBacked? { D.DailyDumpIff(cfg.Dump(), w.db, e.again, e.x, e.s, e.sealOk); }
  }

  /** The backup lets the eviction go on exactly if every workload's step works. */
  lemma {:induction false} GoesOnIff(cfg: S.Config, ws: seq<S.Workload>, es: seq<S.Env>, now: int)
    requires S.Ready(ws, es, now)
    ensures BackupAll(cfg, ws, es, now).1 <==> forall i :: 0 <= i < |ws| ==> StepWorks(cfg, ws[i], es[i])
    decreases |ws|
  {
    if ws != [] {
      StepWorksIff(cfg, ws[0], now, es[0]);
      GoesOnIff(cfg, ws[1..], es[1..], now);
      assert (forall i :: 0 <= i < |ws| ==> StepWorks(cfg, ws[i], es[i]))
        <==> StepWorks(cfg, ws[0], es[0]) && forall i :: 0 <= i < |ws[1..]| ==> StepWorks(cfg, ws[1..][i], es[1..][i])
      by {
        if StepWorks(cfg, ws[0], es[0]) && forall i :: 0 <= i < |ws[1..]| ==> StepWorks(cfg, ws[1..][i], es[1..][i]) {
          forall i | 0 <= i < |ws| ensures StepWorks(cfg, ws[i], es[i]) {
            if i > 0 { assert ws[1..][i - 1] == ws[i] && es[1..][i - 1] == es[i]; }
          }
        }
      }
    }
  }

  method BackupProject(cfg: S.Config, ws: seq<S.Workload>, es: seq<S.Env>, now: int) returns (ds: seq<S.Workload>, ok: bool)
    requires S.Ready(ws, es, now)
    ensures (ds, ok) == BackupAll(cfg, ws, es, now)
  {
    var todo, etodo := ws, es;
    ds, ok := [], true;
    ghost var goal := BackupAll(cfg, ws, es, now);
    assert [] + goal.0 == goal.0;
    while todo != []
      invariant S.Ready(todo, etodo, now) && ok
      invariant var r := BackupAll(cfg, todo, etodo, now); goal == (ds + r.0, r.1)
      decreases |todo|
    {
      var r := BackupOne(cfg, todo[0], now, etodo[0]);
      if !r.1 {
        return ds + ([r.0] + todo[1..]), false;
      }
      S.MoveOver(ds, r.0, BackupAll(cfg, todo[1..], etodo[1..], now).0);
      ds, todo, etodo := ds + [r.0], todo[1..], etodo[1..];
    }
    assert ds + [] == ds;
  }

  // ------------------------------------------------------------ main results

  /** The workload holds nothing, or its contents can be rebuilt from the seed or from the kept archives. */
  ghost predicate Survives(cfg: S.Config, w: S.Workload, kept: S.Workload) {
    match w
    case NotBackedUp => true
    case DumpBacked(db, _) =>
      kept.DumpBacked? && (db.content in cfg.seed || db.content in kept.db.archives.Values)
    case TarBacked(tar) =>
      kept.TarBacked? && kept.tar.backups != [] && kept.tar.backups[0].content == tar.content
  }

  /**
   * The histories that can cost an evicted workload its last contents: a write
   * in a dump's window, the named backup deleted by hand, or a stored backup
   * whose dump state could not be written; a write since the newest archive was
   * begun, or before it was stamped.
   */
  ghost predicate CleanHistory(w: S.Workload) {
    match w
    case NotBackedUp => true
    case DumpBacked(db, _) => !db.tainted && !D.NamedDeleted(db) && !db.torn
    case TarBacked(tar) => tar.backups != [] ==> tar.backups[0].whole && tar.lastWrite <= tar.backups[0].createdAt
  }

  /** No answer of the runtime hides a running database. */
  predicate Truthful(w: S.Workload, e: S.Env) { w.DumpBacked? ==> !D.Missed(w.db, e.x) }

  lemma BackupOneCovers(cfg: S.Config, w: S.Workload, now: int, e: S.Env, keepDeleted: int)
    requires cfg.keep >= 1 && S.Sound(cfg, w) && S.Meets(w, e, now) && keepDeleted != 0 && Truthful(w, e)
    ensures var (d, ok) := BackupOne(cfg, w, now, e);
      && S.Sound(cfg, d)
      && (ok && CleanHistory(d) ==> Survives(cfg, d, Prune(Stop(d), keepDeleted)))
      && (ok && w.TarBacked? && e.backing.Quiet() && !T.Hidden(w.tar) ==> CleanHistory(d))
  {
    match w {
      case NotBackedUp =>
      case DumpBacked(db, failedAt) => DumpOneCovers(cfg, db, failedAt, now, e, keepDeleted);
      case TarBacked(tar) => TarOneCovers(cfg, tar, now, e, keepDeleted);
    }
  }

  lemma DumpOneCovers(cfg: S.Config, db: D.Db, failedAt: Option<int>, now: int, e: S.Env, keepDeleted: int)
    requires var w := S.DumpBacked(db, failedAt);
      cfg.keep >= 1 && S.Sound(cfg, w) && S.Meets(w, e, now) && keepDeleted != 0 && Truthful(w, e)
    ensures var (d, ok) := BackupOne(cfg, S.DumpBacked(db, failedAt), now, e);
      S.Sound(cfg, d) && (ok && CleanHistory(d) ==> Survives(cfg, d, Prune(Stop(d), keepDeleted)))
  {
    S.DumpSuccess(cfg, db, failedAt, now, e, e, now);
    if !e.gone { D.DailyDumpCovers(cfg.Dump(), db, e.again, e.x, e.s, e.sealOk); }
    var (d, ok) := BackupOne(cfg, S.DumpBacked(db, failedAt), now, e);
    if ok && CleanHistory(d) { CoveredSurvivesPruning(cfg, d, keepDeleted); }
  }

  lemma TarOneCovers(cfg: S.Config, tar: T.Tar, now: int, e: S.Env, keepDeleted: int)
    requires cfg.keep >= 1 && S.Sound(cfg, S.TarBacked(tar)) && S.Meets(S.TarBacked(tar), e, now) && keepDeleted != 0
    ensures var (d, ok) := BackupOne(cfg, S.TarBacked(tar), now, e);
      && S.Sound(cfg, d)
      && (ok && CleanHistory(d) ==> Survives(cfg, d, Prune(Stop(d), keepDeleted)))
      && (ok && e.backing.Quiet() && !T.Hidden(tar) ==> CleanHistory(d))
  {
    T.ArchiveKeeps(cfg.Tar(), tar, false, e.backing);
  }

  /**
   * The exact condition for an archive made before an eviction: whatever it may
   * hold, the data dir survives if and only if nothing was written before it was
   * both read and stamped, and its contents are still those that were read.
   */
  lemma TarSurvivesIff(cfg: S.Config, tar: T.Tar, now: int, e: S.Env, keepDeleted: int)
    requires cfg.keep >= 1 && S.Sound(cfg, S.TarBacked(tar)) && S.Meets(S.TarBacked(tar), e, now) && keepDeleted != 0
    requires !e.gone && e.backing.createOk && !T.UnchangedSinceBackup(tar, e.walkOk)
    ensures var u := T.Underway(cfg.Tar(), tar, false, e.backing);
      u.reading.Some?
      && ((forall read: T.Content :: Survives(cfg, Evicted(cfg, tar, now, e, read), Prune(Stop(Evicted(cfg, tar, now, e, read)), keepDeleted)))
          <==> !u.reading.value.wrote && u.content == u.reading.value.content)
  {
    var u := T.Underway(cfg.Tar(), tar, false, e.backing);
    T.IsUnderway(cfg.Tar(), tar, false, e.backing);
    forall read: T.Content
      ensures Survives(cfg, Evicted(cfg, tar, now, e, read), Prune(Stop(Evicted(cfg, tar, now, e, read)), keepDeleted))
        <==> u.content == if u.reading.value.wrote then read else u.reading.value.content
    {
      ArchiveSurvives(cfg, tar, e.backing.(read := read), keepDeleted);
    }
    if u.reading.value.wrote {
      assert !Survives(cfg, Evicted(cfg, tar, now, e, u.content + 1), Prune(Stop(Evicted(cfg, tar, now, e, u.content + 1)), keepDeleted));
    } else {
      assert Survives(cfg, Evicted(cfg, tar, now, e, 0), Prune(Stop(Evicted(cfg, tar, now, e, 0)), keepDeleted))
        <==> u.content == u.reading.value.content;
    }
  }

  /** The workload after its archive was made, if that holds read. */
  function Evicted(cfg: S.Config, tar: T.Tar, now: int, e: S.Env, read: T.Content): S.Workload
    requires S.Meets(S.TarBacked(tar), e, now)
  {
    BackupOne(cfg, S.TarBacked(tar), now, e.(backing := e.backing.(read := read))).0
  }

  lemma ArchiveSurvives(cfg: S.Config, tar: T.Tar, b: T.Backing, keepDeleted: int)
    requires cfg.keep >= 1 && tar.reading.None? && b.Fits() && b.createOk && keepDeleted != 0
    ensures var u, d := T.Underway(cfg.Tar(), tar, false, b), S.TarBacked(T.Archive(cfg.Tar(), tar, false, b));
      && u.reading.Some?
      && (Survives(cfg, d, Prune(Stop(d), keepDeleted))
          <==> u.content == if u.reading.value.wrote then b.read else u.reading.value.content)
  {
    T.IsUnderway(cfg.Tar(), tar, false, b);
  }

  /**
   * A write that a late stamp hides is lost by the eviction, whatever its
   * settings: the backup step passes the workload over, and no archive that is
   * there holds its contents.
   */
  lemma EvictionLosesAWrite(cfg: S.Config, c: T.Content, later: seq<int>, now: int, e: S.Env, keepDeleted: int, d: Deletion)
    requires cfg.Tar() == T.DAILY && (forall i :: 0 <= i < |later| ==> 2 * SECOND <= later[i])
    requires S.Meets(S.TarBacked(S.Hiding(c, later)), e, now) && e.walkOk
    ensures var w := S.TarBacked(S.Hiding(c, later));
      BackupOne(cfg, w, now, e) == (w, true) && !Survives(cfg, w, DeleteOne(w, keepDeleted, d))
  {
    T.LateStampHidesAWrite(c, 2 * SECOND, later);
  }

  lemma CoveredSurvivesPruning(cfg: S.Config, d: S.Workload, keepDeleted: int)
    requires S.Sound(cfg, d) && d.DumpBacked? && CleanHistory(d) && keepDeleted != 0
    requires D.Backed(d.db) && d.db.content == d.db.dump.value.content
    ensures Survives(cfg, d, Prune(Stop(d), keepDeleted))
  {
    var st := d.db.dump.value;
    if st.backupId.Some? {
      var id := st.backupId.value;
      var kept := Prune(Stop(d), keepDeleted).db.archives;
      assert |D.Newer(d.db.archives, id)| == 0;
      assert id in kept && kept[id] == d.db.content;
    }
  }

  /** id is the newest of the archives that hold c. */
  ghost predicate NewestHolding(a: D.Archives, c: D.Content, id: D.BackupId) {
    id in a && a[id] == c && forall j :: j in a && a[j] == c ==> j <= id
  }

  /**
   * The exact condition, whatever happened before: eviction keeps the contents
   * of a database that is not pristine if and only if an archive holds them and
   * nothing is pruned, or fewer than keepDeleted archives are newer than the
   * newest that does.
   */
  lemma DumpSurvivesIff(cfg: S.Config, d: S.Workload, keepDeleted: int)
    requires d.DumpBacked? && d.db.content !in cfg.seed
    ensures Survives(cfg, d, Prune(Stop(d), keepDeleted)) <==>
      exists id :: NewestHolding(d.db.archives, d.db.content, id)
                   && (keepDeleted < 0 || |D.Newer(d.db.archives, id)| < keepDeleted)
  {
    var a := d.db.archives;
    var kept := Prune(Stop(d), keepDeleted).db.archives;
    if Survives(cfg, d, Prune(Stop(d), keepDeleted)) {
      var j :| j in kept && kept[j] == d.db.content;
      var id := TheNewestHolding(a, d.db.content, j);
      NewerShrinks(a, j, id);
    } else {
      forall id | NewestHolding(a, d.db.content, id)
        ensures !(keepDeleted < 0 || |D.Newer(a, id)| < keepDeleted)
      {
        if keepDeleted < 0 || |D.Newer(a, id)| < keepDeleted { Kept(a, id, keepDeleted); }
      }
    }
  }

  lemma Kept(a: D.Archives, id: D.BackupId, keepDeleted: int)
    requires id in a && (keepDeleted < 0 || |D.Newer(a, id)| < keepDeleted)
    ensures var kept := if keepDeleted < 0 then a else D.Retain(a, keepDeleted);
      id in kept && kept[id] == a[id] && a[id] in kept.Values
  {
    var kept := if keepDeleted < 0 then a else D.Retain(a, keepDeleted);
    assert kept[id] in kept.Values;
  }

  lemma TheNewestHolding(a: D.Archives, c: D.Content, j: D.BackupId) returns (id: D.BackupId)
    requires j in a && a[j] == c
    ensures NewestHolding(a, c, id) && j <= id
    decreases |D.Newer(a, j)|
  {
    if k :| k in a && a[k] == c && k > j {
      assert D.Newer(a, k) < D.Newer(a, j) by { assert k in D.Newer(a, j) && k !in D.Newer(a, k); }
      SmallerSet(D.Newer(a, k), D.Newer(a, j));
      id := TheNewestHolding(a, c, k);
    } else {
      id := j;
    }
  }

  lemma NewerShrinks(a: D.Archives, j: D.BackupId, id: D.BackupId)
    requires j <= id
    ensures |D.Newer(a, id)| <= |D.Newer(a, j)|
  {
    SubsetIsSmaller(D.Newer(a, id), D.Newer(a, j));
  }

  lemma SubsetIsSmaller<T>(a: set<T>, b: set<T>)
    requires a <= b
    ensures |a| <= |b|
  {
    assert b == a + (b - a);
  }

  lemma SmallerSet<T>(a: set<T>, b: set<T>)
    requires a < b
    ensures |a| < |b|
  {
    var x :| x in b && x !in a;
    SubsetIsSmaller(a, b - {x});
  }

  lemma {:induction false} BackupAllCovers(cfg: S.Config, ws: seq<S.Workload>, es: seq<S.Env>, now: int, keepDeleted: int)
    requires S.Ready(ws, es, now) && S.AllSound(cfg, ws) && cfg.keep >= 1 && keepDeleted != 0
    requires forall i :: 0 <= i < |ws| ==> Truthful(ws[i], es[i])
    ensures var (ds, ok) := BackupAll(cfg, ws, es, now);
      && |ds| == |ws|
      && (ok ==> forall i :: 0 <= i < |ds| && CleanHistory(ds[i]) ==> Survives(cfg, ds[i], Prune(Stop(ds[i]), keepDeleted)))
    decreases |ws|
  {
    if ws != [] {
      BackupOneCovers(cfg, ws[0], now, es[0], keepDeleted);
      assert forall i :: 0 <= i < |ws[1..]| ==> S.Sound(cfg, ws[1..][i]) && Truthful(ws[1..][i], es[1..][i]);
      BackupAllCovers(cfg, ws[1..], es[1..], now, keepDeleted);
    }
  }

  /**
   * Lossless eviction: with the backup on and retention not 0, every workload
   * with a clean history of an evicted project is rebuildable from what the
   * store keeps; an eviction that fails leaves every workload's files as they
   * were. What the drivers hold stays too if and only if the backup failed or
   * the project was not found: it is released before the row is deleted.
   */
  lemma EvictionIsLossless(cfg: S.Config, p: Policy, ws: seq<S.Workload>, es: seq<S.Env>, now: int, d: Deletion)
    requires S.Ready(ws, es, now) && S.AllSound(cfg, ws) && cfg.keep >= 1
    requires p.backupFirst && p.keepDeleted != 0 && forall i :: 0 <= i < |ws| ==> Truthful(ws[i], es[i])
    ensures var (ds, ok) := BackupAll(cfg, ws, es, now);
      var after := if ok then Delete(ds, p.keepDeleted, d) else ds;
      && |after| == |ds| == |ws|
      && (!(ok && d.found && d.rowOk) ==> forall i :: 0 <= i < |ws| ==> SameData(ws[i], es[i], after[i]))
      && (StopAndRelease in (if ok then DeletionSteps(d) else []) <==> ok && d.found)
      && (ok ==> forall i :: 0 <= i < |ds| && CleanHistory(ds[i]) ==> Survives(cfg, ds[i], after[i]))
  {
    BackupTouchesNoData(cfg, ws, es, now);
    BackupAllCovers(cfg, ws, es, now, p.keepDeleted);
    var (ds, ok) := BackupAll(cfg, ws, es, now);
    if ok {
      forall i | 0 <= i < |ds| ensures CleanHistory(ds[i]) ==> Survives(cfg, ds[i], Delete(ds, p.keepDeleted, d)[i]) {
        if CleanHistory(ds[i]) { PruningNothingKeeps(cfg, ds[i], p.keepDeleted); }
      }
    }
  }

  /** What survives a pruning is there without it. */
  lemma PruningNothingKeeps(cfg: S.Config, w: S.Workload, keepDeleted: int)
    requires Survives(cfg, w, Prune(Stop(w), keepDeleted))
    ensures Survives(cfg, w, Stop(w)) && Survives(cfg, w, w)
  {}

  /** A backup step changes nothing a workload holds; an offline export may make a cluster, or load a pending restore. */
  ghost predicate SameData(w: S.Workload, e: S.Env, d: S.Workload) {
    match w
    case NotBackedUp => d == w
    case DumpBacked(db, _) => d.DumpBacked? && (db.pending.None? && db.pg.Some? ==> d.db.content == db.content)
    case TarBacked(tar) => d.TarBacked? && (e.backing.Quiet() ==> d.tar.content == tar.content && d.tar.lastWrite == tar.lastWrite)
  }

  ghost predicate Unharmed(w: S.Workload, e: S.Env, d: S.Workload) { SameData(w, e, d) && SameData(w, e, Stop(d)) }

  lemma UntouchedIsUnharmed(w: S.Workload, e: S.Env)
    ensures Unharmed(w, e, w)
  {}

  lemma {:induction false} BackupTouchesNoData(cfg: S.Config, ws: seq<S.Workload>, es: seq<S.Env>, now: int)
    requires S.Ready(ws, es, now) && S.AllSound(cfg, ws) && cfg.keep >= 1
    ensures var ds := BackupAll(cfg, ws, es, now).0;
      |ds| == |ws| && forall i :: 0 <= i < |ws| ==> Unharmed(ws[i], es[i], ds[i])
    decreases |ws|
  {
    if ws != [] {
      BackupOneTouchesNoData(cfg, ws[0], now, es[0]);
      if BackupOne(cfg, ws[0], now, es[0]).1 {
        assert forall i :: 0 <= i < |ws[1..]| ==> S.Sound(cfg, ws[1..][i]);
        BackupTouchesNoData(cfg, ws[1..], es[1..], now);
      } else {
        forall i | 1 <= i < |ws| { UntouchedIsUnharmed(ws[i], es[i]); }
      }
    }
  }

  lemma BackupOneTouchesNoData(cfg: S.Config, w: S.Workload, now: int, e: S.Env)
    requires S.Sound(cfg, w) && S.Meets(w, e, now) && cfg.keep >= 1
    ensures Unharmed(w, e, BackupOne(cfg, w, now, e).0)
  {
    match w {
      case NotBackedUp =>
      case DumpBacked(db, _) => DumpTouchesNoData(cfg.Dump(), db, e.again, e.x, e.s, e.sealOk);
      case TarBacked(tar) => T.ArchiveKeeps(cfg.Tar(), tar, false, e.backing);
    }
  }

  lemma DumpTouchesNoData(cfg: D.Config, db: D.Db, seen: bool, x: D.Event, s: D.Event, sealOk: bool)
    requires x.Export? && s.Store? && db.job.Idle? && s.now >= db.now
    ensures var (d, _) := D.DailyDump(cfg, db, seen, x, s, sealOk);
      d.running == db.running && (db.pending.None? && db.pg.Some? ==> d.content == db.content)
  {
    var d1 := D.Next(cfg, db, x);
    ExportTouchesNoData(cfg, db, x);
    if d1.job.Exported? {
      D.StoreRecords(cfg, d1, s);
      SealTouchesNoData(cfg, D.Next(cfg, d1, s), sealOk);
    }
  }

  lemma ExportTouchesNoData(cfg: D.Config, db: D.Db, x: D.Event)
    requires x.Export? && db.job.Idle?
    ensures var d := D.Next(cfg, db, x);
      d.running == db.running && d.now == db.now && (db.pending.None? && db.pg.Some? ==> d.content == db.content)
  {}

  lemma SealTouchesNoData(cfg: D.Config, db: D.Db, sealOk: bool)
    ensures var d := D.Next(cfg, db, D.Seal(sealOk)); d.running == db.running && d.content == db.content
  {}

  /**
   * Why the torn history matters: the dump state could not be written after a
   * backup was stored, the database went back to its older contents, and the
   * sealed dump names a backup that pruning to one archive drops.
   */
  lemma TornHistoryLosesTheDatabase(c: D.Content)
    ensures var cfg := D.Config({}, c + 9, 5);
      var d := D.Run(cfg, Fresh(c), TornRun(c));
      && D.Init(Fresh(c)) && D.DumpCurrent(d) && d.content == c && d.job.Idle?
      && d.content !in D.Retain(d.archives, 1).Values
  {
    var cfg := D.Config({}, c + 9, 5);
    var start := Fresh(c);
    var (a, b, e) := TornParts(c);
    D.RunAppend(cfg, start, a, b + e);
    D.RunAppend(cfg, D.Run(cfg, start, a), b, e);
    TornFirstDump(c);
    var d1 := D.Run(cfg, start, a);
    TornSecondDump(c, d1);
    TornThirdDump(c, D.Run(cfg, d1, b));
  }

  /** A database that never ran a dump, stopped. */
  function Fresh(c: D.Content): D.Db {
    D.Db(c, false, Some(0), 1, None, None, map[], 0, D.Idle, 0, {}, false, false, [Sample(0, c)], 0)
  }

  function TornParts(c: D.Content): (seq<D.Event>, seq<D.Event>, seq<D.Event>) {
    ([D.Export(false, false, false, true, true, false), D.Store(0, true, true, true, true), D.Seal(true)],
     [D.Wake(true, true), D.Write(c + 1), D.Export(true, false, false, true, true, false)]
     + [D.Store(1, true, true, true, false), D.Write(c), D.Suspend(false, true, true)],
     [D.Export(false, false, false, true, true, false), D.Store(2, true, true, true, true), D.Seal(true)])
  }

  function TornRun(c: D.Content): seq<D.Event> {
    var (a, b, e) := TornParts(c); a + (b + e)
  }

  /** What the first third of that run leaves: the store holds c, and the dump names it. */
  ghost predicate FirstDumped(c: D.Content, d: D.Db) {
    && d.content == c && !d.running && d.pg.Some? && d.pending.None? && d.job.Idle? && d.now == 0 && d.nextId == 1
    && d.archives == map[0 := c]
    && d.dump.Some? && d.dump.value.content == c && d.dump.value.backupId == Some(0)
  }

  lemma TornFirstDump(c: D.Content)
    ensures var cfg := D.Config({}, c + 9, 5);
      FirstDumped(c, D.Run(cfg, Fresh(c), TornParts(c).0))
  {
    var cfg := D.Config({}, c + 9, 5);
    var a := TornParts(c).0;
    D.RunThree(cfg, Fresh(c), a[0], a[1], a[2]);
    assert D.Retain(map[0 := c], 5) == map[0 := c] by { assert D.Newer(map[0 := c], 0) == {}; }
  }

  /** What the first two thirds of that run leave: the store holds c, then c + 1, and the dump names c. */
  ghost predicate NamesTheOlder(c: D.Content, d: D.Db) {
    && d.content == c && !d.running && d.pg.Some? && d.pending.None? && d.job.Idle? && d.now == 1 && d.nextId == 2
    && d.archives == map[0 := c, 1 := c + 1]
    && d.dump.Some? && d.dump.value.content == c && d.dump.value.backupId == Some(0)
  }

  lemma TornSecondDump(c: D.Content, d1: D.Db)
    requires FirstDumped(c, d1)
    ensures var cfg := D.Config({}, c + 9, 5);
      NamesTheOlder(c, D.Run(cfg, d1, TornParts(c).1))
  {
    var cfg := D.Config({}, c + 9, 5);
    var b := TornParts(c).1;
    assert b == b[..3] + b[3..] && b[..3] == [b[0], b[1], b[2]] && b[3..] == [b[3], b[4], b[5]];
    D.RunAppend(cfg, d1, b[..3], b[3..]);
    TornExport(c, d1);
    var x := D.Run(cfg, d1, b[..3]);
    TornStore(c, x);
  }

  lemma TornExport(c: D.Content, d1: D.Db)
    requires FirstDumped(c, d1)
    ensures var cfg, b := D.Config({}, c + 9, 5), [D.Wake(true, true), D.Write(c + 1), D.Export(true, false, false, true, true, false)];
      Exporting(c, D.Run(cfg, d1, b))
  {
    var cfg := D.Config({}, c + 9, 5);
    D.RunThree(cfg, d1, D.Wake(true, true), D.Write(c + 1), D.Export(true, false, false, true, true, false));
  }

  /** The woken database was written, and its second dump is exported. */
  ghost predicate Exporting(c: D.Content, x: D.Db) {
    && x.job == D.Exported(c + 1, 0, false, false, false) && x.running && x.now == 0 && x.nextId == 1
    && x.pending.None? && x.pg.Some? && x.content == c + 1
    && x.archives == map[0 := c] && x.dump.Some? && x.dump.value.content == c && x.dump.value.backupId == Some(0)
  }

  /** The second backup is stored, its dump state is lost, and the database returns to its older contents. */
  lemma TornStore(c: D.Content, x: D.Db)
    requires Exporting(c, x)
    ensures var cfg, b := D.Config({}, c + 9, 5), [D.Store(1, true, true, true, false), D.Write(c), D.Suspend(false, true, true)];
      NamesTheOlder(c, D.Run(cfg, x, b))
  {
    var cfg := D.Config({}, c + 9, 5);
    D.RunThree(cfg, x, D.Store(1, true, true, true, false), D.Write(c), D.Suspend(false, true, true));
    LostStore(c, x);
  }

  lemma LostStore(c: D.Content, x: D.Db)
    requires Exporting(c, x)
    ensures var r := D.Next(D.Config({}, c + 9, 5), x, D.Store(1, true, true, true, false));
      && r.job.Idle? && r.running && r.now == 1 && r.nextId == 2 && r.pg.Some? && r.pending.None?
      && r.archives == map[0 := c, 1 := c + 1] && r.dump == x.dump
  {
    var cfg := D.Config({}, c + 9, 5);
    var two := map[0 := c, 1 := c + 1];
    assert D.Retain(two, 5) == two by { assert D.Newer(two, 0) == {1} && D.Newer(two, 1) == {}; }
    assert x.archives[x.nextId := c + 1] == two;
  }

  lemma TornThirdDump(c: D.Content, d: D.Db)
    requires NamesTheOlder(c, d)
    ensures var cfg := D.Config({}, c + 9, 5);
      var r := D.Run(cfg, d, TornParts(c).2);
      D.DumpCurrent(r) && r.content == c && r.job.Idle? && r.content !in D.Retain(r.archives, 1).Values
  {
    var cfg := D.Config({}, c + 9, 5);
    var e := TornParts(c).2;
    D.RunThree(cfg, d, e[0], e[1], e[2]);
    OfflineExport(c, d);
    var d1 := D.Next(cfg, d, e[0]);
    UnchangedStore(c, d1);
    var d2 := D.Next(cfg, d1, e[1]);
    OfflineSeal(d2);
    assert D.Retain(d2.archives, 1) == map[1 := c + 1] by {
      assert D.Newer(d2.archives, 0) == {1} && D.Newer(d2.archives, 1) == {};
    }
  }

  lemma OfflineSeal(d: D.Db)
    requires d.job == D.ToSeal(false) && d.dump.Some? && d.pg.Some?
    ensures forall cfg :: var r := D.Next(cfg, d, D.Seal(true));
      D.DumpCurrent(r) && r.content == d.content && r.job.Idle? && r.archives == d.archives
  {}

  lemma OfflineExport(c: D.Content, d: D.Db)
    requires NamesTheOlder(c, d)
    ensures var r := D.Next(D.Config({}, c + 9, 5), d, D.Export(false, false, false, true, true, false));
      && r.content == c && r.job == D.Exported(c, 1, true, false, false) && r.pg.Some? && r.now == 1
      && r.archives == d.archives && r.dump == d.dump
  {}

  lemma UnchangedStore(c: D.Content, d: D.Db)
    requires d.job == D.Exported(c, 1, true, false, false) && d.now == 1 && d.archives == map[0 := c, 1 := c + 1]
    requires d.dump.Some? && d.dump.value.content == c && d.dump.value.backupId == Some(0)
    ensures var r := D.Next(D.Config({}, c + 9, 5), d, D.Store(2, true, true, true, true));
      && r.content == d.content && r.job == D.ToSeal(false) && r.pg == d.pg && r.archives == d.archives && r.dump.Some?
  {
    var cfg := D.Config({}, c + 9, 5);
    var s := D.Store(2, true, true, true, true);
    D.StoreRecords(cfg, d, s);
    assert D.Next(cfg, d, s) == D.StoreNow(cfg, D.Stamped(d, 2), s);
  }
}
