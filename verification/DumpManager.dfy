/**
 * The manager's dump code over one workload's data dir, runtime and backup
 * store, as it runs while holding the workload's lock. Outcomes of the
 * environment (an export, a write, a stop) are parameters. Every method is
 * proved equal to the steps of DumpSeal it is made of.
 */
module DumpManager {
  import opened Common
  import opened DumpSeal

  class DumpBackups {
    const cfg: Config

    // the database and its runtime
    var content: Content
    var running: bool
    var pg: Option<Token>
    var nextPg: Token
    var pending: Option<Content>
    // the data dir's dump state and the backup store
    var dump: Option<DumpState>
    var archives: Archives
    var nextId: BackupId
    // where the lock's holder is, and the history
    ghost var job: Job
    ghost var now: int
    ghost var deleted: set<BackupId>
    ghost var tainted: bool
    ghost var torn: bool
    ghost var hist: seq<Sample>
    ghost var asOf: int

    ghost function View(): Db
      reads this
    {
      Db(content, running, pg, nextPg, pending, dump, archives, nextId, job, now, deleted, tainted, torn, hist, asOf)
    }

    constructor (cfg: Config, content: Content, now: int)
      ensures this.cfg == cfg && Init(View())
    {
      this.cfg := cfg;
      this.content, running, pg, nextPg, pending := content, false, Some(0), 1, None;
      dump, archives, nextId := None, map[], 0;
      job, this.now, deleted, tainted, torn := Idle, now, {}, false, false;
      hist, asOf := [Sample(now, content)], now;
    }

    method IsDumpCurrent() returns (r: bool)
      ensures r == DumpCurrent(View())
    {
      if dump.None? || dump.value.pgControl.None? { return false; }
      if pg.None? { return false; }
      return pg.value == dump.value.pgControl.value;
    }

    method SealDump(writeOk: bool) returns (err: bool)
      requires job.ToSeal? || job.Stopped?
      modifies this
      ensures View() == Next(cfg, old(View()), Seal(writeOk))
      ensures err == (old(dump).None? || old(pg).None? || !writeOk)
    {
      var st := dump;
      if st.None? || pg.None? || !writeOk {
        job := Idle;
        return true;
      }
      dump := Some(st.value.(pgControl := pg));
      job := if job.ToSeal? && job.reap then ToSuspend else Idle;
      return false;
    }

    /** The server starts on the stopped data dir for the length of an offline export. */
    method RunOffline(loaded: bool)
      modifies this`content, this`pending, this`pg, this`nextPg
      ensures View() == ServerRan(cfg, old(View()), loaded)
    {
      if loaded && pending.Some? {
        content := pending.value;
      } else if pg.None? {
        content := cfg.empty;
      }
      if loaded { pending := None; }
      pg, nextPg := Some(nextPg), nextPg + 1;
    }

    method ExportDump(x: Event) returns (man: Option<Content>)
      requires x.Export? && job.Idle?
      modifies this
      ensures View() == Next(cfg, old(View()), x)
      ensures man.Some? == job.Exported? && (man.Some? ==> man.value == job.man)
    {
      man := ExportFrom(x);
      if content != old(content) { hist := hist + [Sample(now, content)]; }
    }

    /** running is what Status answered; an export that does not find the server it expects fails. */
    method ExportFrom(x: Event) returns (man: Option<Content>)
      requires x.Export? && job.Idle?
      modifies this`content, this`pending, this`pg, this`nextPg, this`job, this`tainted
      ensures View() == AfterExport(cfg, old(View()), x)
      ensures man.Some? == job.Exported? && (man.Some? ==> man.value == job.man)
    {
      man := None;
      if x.seen {
        if running && x.ok { man := Some(content); }
      } else {
        if x.ok || x.ran {
          if running { pg, nextPg := Some(nextPg), nextPg + 1; } else { RunOffline(x.loaded); }
        }
        if x.ok { man := Some(content); }
      }
      if man.Some? {
        job, tainted := Exported(man.value, now, !x.seen, x.force, x.reap), false;
      }
    }

    method WriteDumpState(st: DumpState, put: bool, writeOk: bool) returns (err: bool)
      requires job.Exported?
      modifies this`dump, this`job, this`torn, this`asOf
      ensures View() == Recorded(old(View()), st, put, writeOk) && err == !writeOk
    {
      if writeOk {
        dump, asOf := Some(st), job.at;
        job, torn := JobAfterStore(job), torn && !put && st.backupId.Some?;
      } else {
        job, torn := Idle, torn || put;
      }
      err := !writeOk;
    }

    method StoreDump(man: Content, force: bool, s: Event) returns (stored: Option<BackupId>, err: bool)
      requires s.Store? && job.Exported? && job.man == man && job.force == force && s.now >= now
      modifies this
      ensures View() == Next(cfg, old(View()), s)
      ensures err == !StoreSucceeds(cfg, old(View()), s)
      ensures stored == if PutNeeded(cfg, old(View()), s.listOk) && s.putOk then Some(old(nextId)) else None
    {
      if s.now != now { now, hist := s.now, hist + [Sample(s.now, content)]; }
      stored, err := StoreAt(man, force, s);
    }

    /** storeDump, the clock read. */
    method StoreAt(man: Content, force: bool, s: Event) returns (stored: Option<BackupId>, err: bool)
      requires s.Store? && job.Exported? && job.man == man && job.force == force
      modifies this
      ensures View() == StoreNow(cfg, old(View()), s)
      ensures err == !StoreSucceeds(cfg, old(View()), s)
      ensures stored == if PutNeeded(cfg, old(View()), s.listOk) && s.putOk then Some(old(nextId)) else None
    {
      stored := None;
      var st := DumpState(s.now, man, man in cfg.seed, None, None);
      var prev := dump;
      if st.pristine && !force {
        // migrations and seed only, nothing to keep
      } else if !force && prev.Some? && prev.value.content == man && prev.value.backupId.Some?
             && s.listOk && prev.value.backupId.value in archives {
        st := st.(backupId := prev.value.backupId);
      } else {
        if !s.putOk {
          job, err := Idle, true;
          return;
        }
        st := st.(backupId := Some(nextId));
        stored := Some(nextId);
        PutBackup(man, s.retainOk);
      }
      err := WriteDumpState(st, stored.Some?, s.writeOk);
    }

    method PutBackup(man: Content, retainOk: bool)
      modifies this`archives, this`nextId
      ensures View() == WithBackup(cfg, old(View()), man, retainOk)
    {
      var all := archives[nextId := man];
      archives, nextId := if retainOk then Retain(all, cfg.keep) else all, nextId + 1;
    }

    method BackupDumpOnce(x: Event, s: Event, sealOk: bool) returns (stored: Option<BackupId>, err: bool)
      requires x.Export? && s.Store? && job.Idle? && s.now >= now
      modifies this
      ensures (View(), !err) == BackupDump(cfg, old(View()), x, s, sealOk)
      ensures !err <==> Answered(cfg, old(View()), x, s, sealOk)
    {
      DumpGoesThroughIff(cfg, View(), x, s, sealOk);
      stored, err := None, false;
      var wasRunning := x.seen;
      ExportJobs(cfg, View(), x);
      var man := ExportDump(x);
      if man.None? { return None, true; }
      StoreRecords(cfg, View(), s);
      stored, err := StoreDump(man.value, x.force, s);
      if err || wasRunning { return; }
      err := SealDump(sealOk);
    }

    method DailyDumpNow(seen: bool, x: Event, s: Event, sealOk: bool) returns (err: bool)
      requires x.Export? && s.Store? && job.Idle? && s.now >= now
      modifies this
      ensures (View(), !err) == DailyDump(cfg, old(View()), seen, x, s, sealOk)
      ensures !err <==> (!seen && DumpCurrent(old(View()))) || Answered(cfg, old(View()), x, s, sealOk)
    {
      var current := IsDumpCurrent();
      if !seen && current { return false; }
      var stored;
      stored, err := BackupDumpOnce(x, s, sealOk);
    }

    method SuspendNow(e: Event)
      requires e.Suspend? && (job.Idle? || job.ToSuspend?)
      modifies this
      ensures View() == Next(cfg, old(View()), e)
      ensures running <==> old(running) && e.err && !e.stopped
    {
      if running && (!e.err || e.stopped) {
        running := false;
        if e.rewrote { pg, nextPg := Some(nextPg), nextPg + 1; }
      }
      if job.ToSuspend? { job := if e.err then Idle else Stopped; }
    }

    /** The idle reaper's body for one workload. */
    method ReapOne(x: Event, s: Event, sealOk: bool, e: Event, lastOk: bool) returns (sealed: bool)
      requires x.Export? && x.reap && s.Store? && e.Suspend? && job.Idle? && s.now >= now
      requires Inv(cfg, View())
      modifies this
      ensures (View(), sealed) == Reap(cfg, old(View()), x, s, sealOk, e, lastOk)
      ensures sealed <==> Answered(cfg, old(View()), x, s, sealOk) && !e.err && lastOk
      ensures sealed ==> !running && DumpCurrent(View()) && dump.value.content == ReadBy(cfg, old(View()), x)
    {
      ReapSealsIff(cfg, View(), x, s, sealOk, e, lastOk);
      ReapJobs(cfg, View(), x, s, sealOk);
      var stored, err := BackupDumpOnce(x, s, sealOk);
      SuspendNow(e);
      sealed := false;
      if !err && !e.err {
        var failed := SealDump(lastOk);
        sealed := !failed;
      }
    }
  }
}
