/** What a recorded dump holds in terms of the database's past: the contents of one instant, and how old they are. */
module DumpHistory {
  import opened Common
  import opened DumpSeal

  /** The history ends with the present, and whatever was exported is in it at the instant of its export. */
  ghost predicate Dated(db: Db) {
    && db.hist != [] && db.hist[|db.hist| - 1] == Sample(db.now, db.content)
    && (db.dump.Some? ==> Sample(db.asOf, db.dump.value.content) in db.hist && db.asOf <= db.dump.value.at <= db.now)
    && (db.job.Exported? ==> Sample(db.job.at, db.job.man) in db.hist && db.job.at <= db.now)
  }

  /** What one step does to the dump state and the clock, before its history is written. */
  ghost predicate KeepsDates(db: Db, d: Db) {
    && d.hist == db.hist && d.now >= db.now
    && (d.dump.Some? ==>
        || (db.dump.Some? && d.dump.value.content == db.dump.value.content && d.dump.value.at == db.dump.value.at && d.asOf == db.asOf)
        || (db.job.Exported? && d.dump.value.content == db.job.man && d.asOf == db.job.at && db.now <= d.dump.value.at <= d.now))
    && (d.job.Exported? ==> d.job == db.job || (d.job.man == d.content && d.job.at == d.now))
  }

  lemma StoreKeepsDates(cfg: Config, db: Db, e: Event)
    requires e.Store? && db.job.Exported? && e.now == db.now
    ensures KeepsDates(db, StoreNow(cfg, db, e))
    ensures StoreNow(cfg, db, e).now == db.now && StoreNow(cfg, db, e).content == db.content
  {
    var st := DumpState(e.now, db.job.man, db.job.man in cfg.seed, None, None);
    RecordedDates(db, st, false, e.writeOk);
    RecordedDates(db, st.(backupId := if db.dump.Some? then db.dump.value.backupId else None), false, e.writeOk);
    RecordedDates(WithBackup(cfg, db, db.job.man, e.retainOk), st.(backupId := Some(db.nextId)), true, e.writeOk);
  }

  lemma RecordedDates(db: Db, st: DumpState, put: bool, writeOk: bool)
    requires db.job.Exported?
    ensures var d := Recorded(db, st, put, writeOk);
      && d.hist == db.hist && d.now == db.now && d.content == db.content && !d.job.Exported?
      && (if writeOk then d.dump == Some(st) && d.asOf == db.job.at else d.dump == db.dump && d.asOf == db.asOf)
  {}

  lemma StepKeepsDates(cfg: Config, db: Db, e: Event)
    requires Enabled(db, e) && !e.Store?
    ensures KeepsDates(db, Do(cfg, db, e))
  {}

  lemma HistoryGrows(db: Db, d: Db, r: Db)
    requires Dated(db) && KeepsDates(db, d)
    requires r == if d.now == db.now && d.content == db.content then d else d.(hist := d.hist + [Sample(d.now, d.content)])
    ensures Dated(r)
  {}

  lemma DatedStep(cfg: Config, db: Db, e: Event)
    requires Dated(db)
    ensures Dated(Next(cfg, db, e))
  {
    if Enabled(db, e) {
      if e.Store? {
        var t := Stamped(db, e.now);
        HistoryGrows(db, db.(now := e.now), t);
        StoreKeepsDates(cfg, t, e);
        HistoryGrows(t, StoreNow(cfg, t, e), Next(cfg, db, e));
      } else {
        StepKeepsDates(cfg, db, e);
        HistoryGrows(db, Do(cfg, db, e), Next(cfg, db, e));
      }
    }
  }

  lemma {:induction false} DatedRun(cfg: Config, db: Db, es: seq<Event>)
    requires Dated(db)
    ensures Dated(Run(cfg, db, es))
    decreases |es|
  {
    if es != [] {
      DatedStep(cfg, db, es[0]);
      DatedRun(cfg, Next(cfg, db, es[0]), es[1..]);
    }
  }

  // ------------------------------------------------------------ main results

  /** At instant i of its history the database held exactly what the dump records, and that was asOf. */
  ghost predicate HeldAsOf(db: Db, i: int) {
    db.dump.Some? && 0 <= i < |db.hist| && db.hist[i] == Sample(db.asOf, db.dump.value.content)
  }

  /**
   * In every run, whatever fails and whatever is missed, the dump state records
   * the contents of one instant, which is no later than the time it is stamped
   * with: they differ by the time the export took after its snapshot.
   */
  lemma DumpIsOfAnInstant(cfg: Config, start: Db, es: seq<Event>)
    requires Init(start)
    ensures var db := Run(cfg, start, es);
      db.dump.Some? ==> (exists i :: HeldAsOf(db, i)) && db.asOf <= db.dump.value.at <= db.now
  {
    DatedRun(cfg, start, es);
    var db := Run(cfg, start, es);
    if db.dump.Some? { InstantOf(db); }
  }

  lemma InstantOf(db: Db)
    requires Dated(db) && db.dump.Some?
    ensures exists i :: HeldAsOf(db, i)
  {
    var i :| 0 <= i < |db.hist| && db.hist[i] == Sample(db.asOf, db.dump.value.content);
    assert HeldAsOf(db, i);
  }

  lemma DailyDumpDates(cfg: Config, db: Db, seen: bool, x: Event, s: Event, sealOk: bool)
    requires Dated(db) && x.Export? && s.Store? && db.job.Idle? && s.now >= db.now
    ensures Dated(DailyDump(cfg, db, seen, x, s, sealOk).0)
  {
    var d1 := Next(cfg, db, x);
    DatedStep(cfg, db, x);
    if d1.job.Exported? {
      DatedStep(cfg, d1, s);
      DatedStep(cfg, Next(cfg, d1, s), Seal(sealOk));
    }
  }

  /** A dump that went through is of the instant of its export, and is stamped at its store. */
  lemma DumpIsOlderThanItsStamp(cfg: Config, db: Db, x: Event, s: Event, sealOk: bool)
    requires db.job.Idle? && x.Export? && s.Store? && s.now >= db.now && BackupDump(cfg, db, x, s, sealOk).1
    ensures var d := BackupDump(cfg, db, x, s, sealOk).0;
      d.dump.Some? && d.asOf == db.now && d.dump.value.at == s.now
  {
    var d1 := Next(cfg, db, x);
    ExportIsOfNow(cfg, db, x);
    StoreRecords(cfg, d1, s);
    StoreIsAsOf(cfg, Stamped(d1, s.now), s);
    SealKeepsStamps(cfg, Next(cfg, d1, s), sealOk);
  }

  lemma ExportIsOfNow(cfg: Config, db: Db, x: Event)
    requires db.job.Idle? && x.Export?
    ensures var d := Next(cfg, db, x); d.job.Exported? ==> d.job.at == db.now == d.now
  {}

  lemma StoreIsAsOf(cfg: Config, db: Db, s: Event)
    requires s.Store? && db.job.Exported? && StoreSucceeds(cfg, db, s)
    ensures StoreNow(cfg, db, s).asOf == db.job.at
  {
    var st := DumpState(s.now, db.job.man, db.job.man in cfg.seed, None, None);
    RecordedDates(db, st, false, s.writeOk);
    RecordedDates(db, st.(backupId := if db.dump.Some? then db.dump.value.backupId else None), false, s.writeOk);
    RecordedDates(WithBackup(cfg, db, db.job.man, s.retainOk), st.(backupId := Some(db.nextId)), true, s.writeOk);
  }

  lemma SealKeepsStamps(cfg: Config, db: Db, sealOk: bool)
    ensures var d := Next(cfg, db, Seal(sealOk));
      d.asOf == db.asOf && d.dump.Some? == db.dump.Some? && (db.dump.Some? ==> d.dump.value.at == db.dump.value.at)
  {}

  /**
   * The recorded contents can be rebuilt if and only if the dump names no backup
   * or the one it names is still in the store; which it is unless someone
   * removed it by hand, or a dump state was lost after a later backup was made.
   */
  lemma RebuildableIff(cfg: Config, db: Db)
    requires Inv(cfg, db) && db.dump.Some?
    ensures var id := db.dump.value.backupId; Rebuildable(cfg, db) <==> id.None? || id.value in db.archives
    ensures !db.torn && !NamedDeleted(db) ==> Rebuildable(cfg, db)
  {}
}
