/**
 * Backups of a workload kept as tars of its data dir: how an archive comes
 * about while the workload may still write, when it is given its time, when one
 * is due, what the scheduler's cache of checks may hide, and how far a backup
 * can lag.
 */
module TarLag {
  import opened Common

  type Content = nat

  /** A listed backup's time is cut to the second. */
  function Listed(t: int): (r: int)
    ensures t - SECOND < r <= t
  {
    t - t % SECOND
  }

  lemma ListedInOrder(t: int, u: int)
    requires t <= u
    ensures Listed(t) <= Listed(u)
  {
    assert t == (t / SECOND) * SECOND + t % SECOND && u == (u / SECOND) * SECOND + u % SECOND;
  }

  /**
   * late and whole are history: the archive was stamped after it was read, and
   * nothing was written from the beginning of the read until it was both read
   * and stamped.
   */
  datatype TarBackup = TarBackup(createdAt: int, content: Content, late: bool, whole: bool)

  /**
   * A backup underway: what the data dir held when its read began, its time once
   * it is stamped, and whether something was written before it was both read and
   * stamped. The local store stamps an archive and then reads the data dir, the
   * S3 store (late) the other way round.
   */
  datatype Reading = Reading(begun: int, content: Content, late: bool, stamp: Option<int>, wrote: bool, scheduled: bool, restart: bool)
  {
    /** The data dir is no longer read. */
    predicate Over() { late && stamp.Some? }
  }

  /**
   * backups run newest first. checked is the scheduler's memory: None before
   * the first look, Some(None) for the zero time (no backup found), else when
   * the data was last backed up or found unchanged. hist is history: the
   * contents at every instant something happened, the present one last.
   */
  datatype Tar = Tar(now: int, content: Content, lastWrite: int, running: bool, backups: seq<TarBackup>,
                     checked: Option<Option<int>>, reading: Option<Reading>, hist: seq<Sample>)

  /** interval: BackupInterval; keep: BackupRetain. */
  datatype Config = Config(interval: int, keep: nat)

  /**
   * A write comes from the workload, or through the files API, which takes no
   * lock. A backup asks the runtime whether the workload runs (seen), and
   * ignores whether the suspend it then asks for worked (stopped).
   */
  datatype Event =
    | Tick(later: int)
    | Write(later: int, c: Content, sync: bool)
    | Up
    | Down
    | Due(at: int, listOk: bool, walkOk: bool)
    | ReadBegin(scheduled: bool, seen: bool, stopped: bool, late: bool)
    | Stamp
    | ReadEnd(read: Content, createOk: bool, retainOk: bool, startOk: bool)
    | RestartOrchd

  function Newest(w: Tar, listOk: bool): Option<int> {
    if listOk && w.backups != [] then Some(Listed(w.backups[0].createdAt)) else None
  }

  function CheckedAt(w: Tar, listOk: bool): Option<int> {
    if w.checked.Some? then w.checked.value else Newest(w, listOk)
  }

  predicate Recent(cfg: Config, at: Option<int>, now: int) {
    at.Some? && now - at.value < cfg.interval
  }

  /** unchangedSinceBackup: the walk finds no mtime after the newest backup's listed time. */
  predicate UnchangedSinceBackup(w: Tar, walkOk: bool) {
    walkOk && w.backups != [] && w.lastWrite <= Listed(w.backups[0].createdAt)
  }

  predicate TarDue(cfg: Config, w: Tar, e: Event)
    requires e.Due?
  {
    !Recent(cfg, CheckedAt(w, e.listOk), e.at) && !UnchangedSinceBackup(w, e.walkOk)
  }

  /** A new archive; one made within the second of the newest replaces it. */
  function Put(w: Tar, b: TarBackup): seq<TarBackup> {
    if w.backups != [] && Listed(w.backups[0].createdAt) == Listed(b.createdAt) then [b] + w.backups[1..]
    else [b] + w.backups
  }

  function Kept(cfg: Config, all: seq<TarBackup>, retainOk: bool): seq<TarBackup> {
    if retainOk && cfg.keep < |all| then all[..cfg.keep] else all
  }

  /** An archive that nothing was written under holds the data dir; any other may hold parts of several states. */
  predicate Enabled(w: Tar, e: Event) {
    match e
    case Tick(later) => later >= w.now
    case Write(later, _, sync) => later > w.now && (sync || w.running)
    case Up => w.reading.None?
    case Down => true
    case Due(at, _, _) => at <= w.now
    case ReadBegin(_, _, _, _) => w.reading.None?
    case Stamp => w.reading.Some? && w.reading.value.stamp.None?
    case ReadEnd(read, createOk, _, _) =>
      && w.reading.Some? && (createOk ==> w.reading.value.stamp.Some?)
      && (w.reading.value.wrote || read == w.reading.value.content)
    case RestartOrchd => true
  }

  /** One step; an event that cannot happen here changes nothing. */
  function Next(cfg: Config, w: Tar, e: Event): Tar {
    if !Enabled(w, e) then w else
    match e
    case Tick(later) => w.(now := later, hist := w.hist + [Sample(later, w.content)])
    case Write(later, c, _) =>
      w.(now := later, content := c, lastWrite := later, hist := w.hist + [Sample(later, c)],
         reading := WrittenUnder(w.reading))
    case Up => w.(running := true)
    case Down => w.(running := false)
    case Due(at, listOk, walkOk) =>
      var checked := CheckedAt(w, listOk);
      if !Recent(cfg, checked, at) && UnchangedSinceBackup(w, walkOk) then w.(checked := Some(Some(at)))
      else w.(checked := Some(checked))
    case ReadBegin(scheduled, seen, stopped, late) =>
      w.(running := w.running && !(seen && stopped),
         reading := Some(Reading(w.now, w.content, late, if late then None else Some(w.now), false, scheduled, w.running && seen)))
    case Stamp => w.(reading := Some(w.reading.value.(stamp := Some(w.now))))
    case ReadEnd(read, createOk, retainOk, startOk) => AfterRead(cfg, w, e)
    case RestartOrchd => w.(checked := None, reading := None)
  }

  function WrittenUnder(r: Option<Reading>): Option<Reading> {
    if r.Some? && !r.value.Over() then Some(r.value.(wrote := true)) else r
  }

  /** The archive is in place, retention has run, and the workload is back up, if each of these worked. */
  function AfterRead(cfg: Config, w: Tar, e: Event): Tar
    requires e.ReadEnd? && Enabled(w, e)
  {
    var r := w.reading.value;
    var d := w.(running := w.running || (r.restart && e.startOk), reading := None);
    if !e.createOk then d
    else d.(backups := Kept(cfg, Put(w, Archived(r, e.read)), e.retainOk),
            checked := if r.scheduled then Some(r.stamp) else w.checked)
  }

  function Archived(r: Reading, read: Content): TarBackup
    requires r.stamp.Some?
  {
    TarBackup(r.stamp.value, read, r.late, !r.wrote)
  }

  function Run(cfg: Config, w: Tar, es: seq<Event>): Tar
    decreases |es|
  {
    if es == [] then w else Run(cfg, Next(cfg, w, es[0]), es[1..])
  }

  // ---------------------------------------------------------------- invariant

  /** At instant i of the history the data dir held exactly these contents, and that was no earlier than since. */
  ghost predicate Held(w: Tar, i: int, c: Content, since: int) {
    0 <= i < |w.hist| && w.hist[i].content == c && since <= w.hist[i].time <= w.now
  }

  ghost predicate HeldBy(w: Tar, c: Content, since: int) { exists i :: Held(w, i, c, since) }

  /** The newest backup holds what the data dir held at some instant since then. */
  ghost predicate HeldSince(w: Tar, since: int) {
    w.backups != [] && HeldBy(w, w.backups[0].content, since)
  }

  ghost predicate Present(w: Tar) {
    w.hist != [] && w.hist[|w.hist| - 1] == Sample(w.now, w.content) && w.lastWrite <= w.now
  }

  /** A whole archive holds what the data dir held at its time; one stamped first is never taken for what it does not hold. */
  ghost predicate NewestTold(w: Tar) {
    w.backups != [] ==>
      var b := w.backups[0];
      && b.createdAt <= w.now
      && (b.whole ==> Sample(b.createdAt, b.content) in w.hist && (w.lastWrite <= b.createdAt ==> w.content == b.content))
      && (!b.whole && !b.late ==> w.lastWrite > b.createdAt)
  }

  ghost predicate ReadingTold(w: Tar) {
    w.reading.Some? ==>
      var r := w.reading.value;
      && r.begun <= w.now && (w.backups != [] ==> w.backups[0].createdAt <= r.begun)
      && (w.lastWrite <= r.begun ==> w.content == r.content)
      && (r.wrote ==> w.lastWrite > r.begun)
      && (!r.late ==> r.stamp == Some(r.begun))
      && (!r.wrote && !r.Over() ==> w.content == r.content)
      && (r.stamp.Some? ==> r.begun <= r.stamp.value <= w.now && (!r.wrote ==> StampTold(w, r)))
  }

  /** Stamped with nothing written before: the data dir held the archive's contents then, and when it was last checked. */
  ghost predicate StampTold(w: Tar, r: Reading)
    requires r.stamp.Some?
  {
    && Sample(r.stamp.value, r.content) in w.hist
    && (w.lastWrite <= r.stamp.value ==> w.content == r.content)
    && (w.checked.Some? && w.checked.value.Some? ==> HeldBy(w, r.content, w.checked.value.value))
  }

  /** The cache never overstates: since the time it holds, the data dir held what the newest backup does. */
  ghost predicate CacheTold(w: Tar) {
    w.checked.Some? && w.checked.value.Some? ==>
      w.backups != [] && w.checked.value.value <= w.now && (w.backups[0].whole ==> HeldSince(w, w.checked.value.value))
  }

  ghost predicate Inv(w: Tar) { Present(w) && NewestTold(w) && ReadingTold(w) && CacheTold(w) }

  lemma SampleIsHeld(w: Tar, t: int, c: Content, since: int)
    requires Sample(t, c) in w.hist && since <= t <= w.now
    ensures HeldBy(w, c, since)
  {
    var i :| 0 <= i < |w.hist| && w.hist[i] == Sample(t, c);
    assert Held(w, i, c, since);
  }

  lemma NewestWasHeld(w: Tar)
    requires NewestTold(w) && w.backups != [] && w.backups[0].whole
    ensures HeldSince(w, w.backups[0].createdAt) && HeldSince(w, Listed(w.backups[0].createdAt))
  {
    var b := w.backups[0];
    SampleIsHeld(w, b.createdAt, b.content, b.createdAt);
    SampleIsHeld(w, b.createdAt, b.content, Listed(b.createdAt));
  }

  lemma PresentIsHeld(w: Tar, c: Content, since: int)
    requires Present(w) && c == w.content && since <= w.now
    ensures HeldBy(w, c, since)
  {
    assert Held(w, |w.hist| - 1, w.content, since);
  }

  /** What was held stays held while the history grows, or stays. */
  lemma HeldStays(w: Tar, d: Tar, c: Content, since: int)
    requires HeldBy(w, c, since) && w.hist <= d.hist && w.now <= d.now
    ensures HeldBy(d, c, since)
  {
    var i :| Held(w, i, c, since);
    assert Held(d, i, c, since);
  }

  lemma SamplesStay(w: Tar, d: Tar, x: Sample)
    requires w.hist <= d.hist && x in w.hist
    ensures x in d.hist
  {
    var i :| 0 <= i < |w.hist| && w.hist[i] == x;
    assert d.hist[i] == x;
  }

  /** Time passing, or a write, keeps what the cache, the newest backup and the reading say of the past. */
  lemma PastStays(w: Tar, d: Tar)
    requires Inv(w) && w.hist <= d.hist && w.now <= d.now && d.backups == w.backups && d.checked == w.checked
    ensures CacheTold(d)
    ensures d.backups != [] && d.backups[0].whole ==> Sample(d.backups[0].createdAt, d.backups[0].content) in d.hist
    ensures w.reading.Some? && w.reading.value.stamp.Some? && !w.reading.value.wrote ==>
      Sample(w.reading.value.stamp.value, w.reading.value.content) in d.hist
      && (w.checked.Some? && w.checked.value.Some? ==> HeldBy(d, w.reading.value.content, w.checked.value.value))
  {
    if w.checked.Some? && w.checked.value.Some? && w.backups[0].whole {
      HeldStays(w, d, w.backups[0].content, w.checked.value.value);
    }
    if w.backups != [] && w.backups[0].whole { SamplesStay(w, d, Sample(w.backups[0].createdAt, w.backups[0].content)); }
    if w.reading.Some? && w.reading.value.stamp.Some? && !w.reading.value.wrote {
      var r := w.reading.value;
      SamplesStay(w, d, Sample(r.stamp.value, r.content));
      if w.checked.Some? && w.checked.value.Some? { HeldStays(w, d, r.content, w.checked.value.value); }
    }
  }

  lemma InvTime(cfg: Config, w: Tar, e: Event)
    requires Inv(w) && (e.Tick? || e.Write?) && Enabled(w, e)
    ensures Inv(Next(cfg, w, e))
  {
    PastStays(w, Next(cfg, w, e));
  }

  /** A renewal, and a first look, keep what the cache says true, of the newest backup and of the one underway. */
  lemma InvDue(cfg: Config, w: Tar, e: Event)
    requires Inv(w) && e.Due? && Enabled(w, e)
    ensures Inv(Next(cfg, w, e))
  {
    var d := Next(cfg, w, e);
    if d.checked.value.Some? {
      var at := d.checked.value.value;
      if w.backups[0].whole { CheckedWasHeld(cfg, w, e); HeldStays(w, d, w.backups[0].content, at); }
      if w.reading.Some? && w.reading.value.stamp.Some? && !w.reading.value.wrote {
        CheckedWhileReading(cfg, w, e);
        HeldStays(w, d, w.reading.value.content, at);
      }
    }
  }

  lemma CheckedWasHeld(cfg: Config, w: Tar, e: Event)
    requires Inv(w) && e.Due? && Enabled(w, e) && w.backups != [] && w.backups[0].whole
    requires Next(cfg, w, e).checked.value.Some?
    ensures HeldSince(w, Next(cfg, w, e).checked.value.value)
  {
    if !Recent(cfg, CheckedAt(w, e.listOk), e.at) && UnchangedSinceBackup(w, e.walkOk) {
      PresentIsHeld(w, w.backups[0].content, e.at);
    } else if w.checked.None? {
      NewestWasHeld(w);
    }
  }

  lemma CheckedWhileReading(cfg: Config, w: Tar, e: Event)
    requires Inv(w) && e.Due? && Enabled(w, e) && Next(cfg, w, e).checked.value.Some?
    requires w.reading.Some? && w.reading.value.stamp.Some? && !w.reading.value.wrote
    ensures HeldBy(w, w.reading.value.content, Next(cfg, w, e).checked.value.value)
  {
    var r := w.reading.value;
    if !Recent(cfg, CheckedAt(w, e.listOk), e.at) && UnchangedSinceBackup(w, e.walkOk) {
      PresentIsHeld(w, r.content, e.at);
    } else if w.checked.None? {
      SampleIsHeld(w, r.stamp.value, r.content, Listed(w.backups[0].createdAt));
    }
  }

  lemma InvStamp(cfg: Config, w: Tar, e: Event)
    requires Inv(w) && e.Stamp? && Enabled(w, e)
    ensures Inv(Next(cfg, w, e))
  {
    var d := Next(cfg, w, e);
    PastStays(w, d);
    if !w.reading.value.wrote && d.checked.Some? && d.checked.value.Some? {
      PresentIsHeld(d, w.content, d.checked.value.value);
    }
  }

  lemma InvReadBegin(cfg: Config, w: Tar, e: Event)
    requires Inv(w) && e.ReadBegin? && Enabled(w, e)
    ensures Inv(Next(cfg, w, e))
  {
    var d := Next(cfg, w, e);
    PastStays(w, d);
    if d.checked.Some? && d.checked.value.Some? { PresentIsHeld(d, w.content, d.checked.value.value); }
  }

  lemma InvReadEnd(cfg: Config, w: Tar, e: Event)
    requires cfg.keep >= 1 && Inv(w) && e.ReadEnd? && Enabled(w, e)
    ensures Inv(Next(cfg, w, e))
  {
    var d, r := Next(cfg, w, e), w.reading.value;
    PastStays(w, w.(reading := None));
    if e.createOk {
      assert d.backups[0] == Archived(r, e.read);
      if d.backups[0].whole {
        SampleIsHeld(d, r.stamp.value, r.content, r.stamp.value);
        if w.checked.Some? && w.checked.value.Some? { HeldStays(w, d, r.content, w.checked.value.value); }
      }
    } else {
      CacheKept(w, d);
    }
  }

  lemma CacheKept(w: Tar, d: Tar)
    requires CacheTold(w) && d.hist == w.hist && d.now == w.now && d.backups == w.backups
    requires d.checked == w.checked || d.checked.None?
    ensures CacheTold(d)
  {
    if d.checked.Some? && d.checked.value.Some? && d.backups[0].whole { HeldStays(w, d, w.backups[0].content, w.checked.value.value); }
  }

  /** Every step keeps the invariant. */
  lemma InvStep(cfg: Config, w: Tar, e: Event)
    requires cfg.keep >= 1 && Inv(w)
    ensures Inv(Next(cfg, w, e))
  {
    if Enabled(w, e) {
      if e.Tick? || e.Write? { InvTime(cfg, w, e); }
      else if e.Due? { InvDue(cfg, w, e); }
      else if e.ReadBegin? { InvReadBegin(cfg, w, e); }
      else if e.Stamp? { InvStamp(cfg, w, e); }
      else if e.ReadEnd? { InvReadEnd(cfg, w, e); }
      else { InvRest(cfg, w, e); }
    }
  }

  lemma InvRest(cfg: Config, w: Tar, e: Event)
    requires Inv(w) && (e.Up? || e.Down? || e.RestartOrchd?) && Enabled(w, e)
    ensures Inv(Next(cfg, w, e))
  {
    var d := Next(cfg, w, e);
    CacheKept(w, d);
    if d.reading.Some? && d.reading.value.stamp.Some? && !d.reading.value.wrote && d.checked.Some? && d.checked.value.Some? {
      HeldStays(w, d, d.reading.value.content, d.checked.value.value);
    }
  }

  lemma {:induction false} InvRun(cfg: Config, w: Tar, es: seq<Event>)
    requires cfg.keep >= 1 && Inv(w)
    ensures Inv(Run(cfg, w, es))
    decreases |es|
  {
    if es != [] {
      InvStep(cfg, w, es[0]);
      InvRun(cfg, Next(cfg, w, es[0]), es[1..]);
    }
  }

  /** A workload just created, with no backup. */
  ghost predicate Init(w: Tar) {
    w.backups == [] && w.checked.None? && w.reading.None? && w.lastWrite <= w.now && w.hist == [Sample(w.now, w.content)]
  }

  // ------------------------------------------------------------ main results

  /** The newest backup is exactly what the data dir held at some instant less than interval before now. */
  ghost predicate LagBounded(cfg: Config, w: Tar, now: int) {
    w.backups != [] && exists i :: HeldRecently(cfg, w, i, now)
  }

  ghost predicate HeldRecently(cfg: Config, w: Tar, i: int, now: int)
    requires w.backups != []
  {
    Held(w, i, w.backups[0].content, now - cfg.interval + 1)
  }

  lemma HeldIsRecent(cfg: Config, w: Tar, since: int, now: int)
    requires HeldSince(w, since) && now - since < cfg.interval
    ensures LagBounded(cfg, w, now)
  {
    var i :| Held(w, i, w.backups[0].content, since);
    assert HeldRecently(cfg, w, i, now);
  }

  /**
   * Whenever tarDue answers no, through any sequence of cached checks, renewals,
   * scheduled and manual backups, failures and restarts, the lag is bounded, if
   * nothing was written before the newest backup was both read and stamped.
   */
  lemma NotDueMeansLagBounded(cfg: Config, start: Tar, es: seq<Event>, e: Event)
    requires cfg.keep >= 1 && cfg.interval > 0 && Init(start) && e.Due?
    ensures var w := Run(cfg, start, es);
      Enabled(w, e) && !TarDue(cfg, w, e) ==> w.backups != [] && (w.backups[0].whole ==> LagBounded(cfg, w, e.at))
  {
    InvRun(cfg, start, es);
    var w := Run(cfg, start, es);
    if Enabled(w, e) && !TarDue(cfg, w, e) { NotDueIsBounded(cfg, w, e); }
  }

  lemma NotDueIsBounded(cfg: Config, w: Tar, e: Event)
    requires cfg.interval > 0 && Inv(w) && e.Due? && Enabled(w, e) && !TarDue(cfg, w, e)
    ensures w.backups != [] && (w.backups[0].whole ==> LagBounded(cfg, w, e.at))
  {
    var at := CheckedAt(w, e.listOk);
    if !Recent(cfg, at, e.at) {
      if w.backups[0].whole {
        PresentIsHeld(w, w.backups[0].content, e.at);
        HeldIsRecent(cfg, w, e.at, e.at);
      }
    } else if w.backups[0].whole {
      if w.checked.None? { NewestWasHeld(w); }
      HeldIsRecent(cfg, w, at.value, e.at);
    }
  }

  /** A content the data dir never held. */
  function Unheld(hist: seq<Sample>): (c: Content)
    ensures forall i :: 0 <= i < |hist| ==> hist[i].content < c
  {
    if hist == [] then 0
    else var c := Unheld(hist[..|hist| - 1]); Max(c, hist[|hist| - 1].content + 1)
  }

  /**
   * The exact condition: the scheduled backup that ends here makes its workload
   * not due, and whatever its archive may hold the lag is bounded, if and only
   * if nothing was written before it was read and stamped and retention leaves it.
   */
  lemma LagBoundedIff(cfg: Config, w: Tar, retainOk: bool, startOk: bool)
    requires Inv(w) && w.reading.Some? && w.reading.value.scheduled
    requires w.reading.value.stamp.Some? && w.now - w.reading.value.stamp.value < cfg.interval
    ensures forall read, listOk, walkOk :: Enabled(w, ReadEnd(read, true, retainOk, startOk)) ==>
      !TarDue(cfg, Next(cfg, w, ReadEnd(read, true, retainOk, startOk)), Due(w.now, listOk, walkOk))
    ensures (forall read :: Enabled(w, ReadEnd(read, true, retainOk, startOk)) ==>
        LagBounded(cfg, Next(cfg, w, ReadEnd(read, true, retainOk, startOk)), w.now))
      <==> !w.reading.value.wrote && (cfg.keep >= 1 || !retainOk)
  {
    var r := w.reading.value;
    if !r.wrote && (cfg.keep >= 1 || !retainOk) {
      forall read | Enabled(w, ReadEnd(read, true, retainOk, startOk))
        ensures LagBounded(cfg, Next(cfg, w, ReadEnd(read, true, retainOk, startOk)), w.now)
      {
        var d := Next(cfg, w, ReadEnd(read, true, retainOk, startOk));
        assert d.backups[0].content == r.content;
        SampleIsHeld(d, r.stamp.value, r.content, r.stamp.value);
        HeldIsRecent(cfg, d, r.stamp.value, w.now);
      }
    } else {
      var read := if r.wrote then Unheld(w.hist) else r.content;
      TornIsUnbounded(cfg, w, read, retainOk, startOk);
    }
  }

  lemma TornIsUnbounded(cfg: Config, w: Tar, read: Content, retainOk: bool, startOk: bool)
    requires w.reading.Some? && w.reading.value.stamp.Some? && (if w.reading.value.wrote then read == Unheld(w.hist) else read == w.reading.value.content)
    requires w.reading.value.wrote || (cfg.keep == 0 && retainOk)
    ensures Enabled(w, ReadEnd(read, true, retainOk, startOk))
    ensures !LagBounded(cfg, Next(cfg, w, ReadEnd(read, true, retainOk, startOk)), w.now)
  {
    var d := Next(cfg, w, ReadEnd(read, true, retainOk, startOk));
    if d.backups != [] {
      assert d.backups[0].content == Unheld(w.hist);
      forall i ensures !HeldRecently(cfg, d, i, w.now) {}
    }
  }

  /** While the workload is down and no file is synced, nothing is written under an archive. */
  lemma {:induction false} DownIsWhole(cfg: Config, w: Tar, es: seq<Event>)
    requires w.reading.Some? && !w.reading.value.wrote && !w.running
    requires forall i :: 0 <= i < |es| ==> !(es[i].Write? && es[i].sync) && !es[i].ReadEnd? && !es[i].RestartOrchd?
    ensures var d := Run(cfg, w, es); d.reading.Some? && !d.reading.value.wrote && !d.running && d.content == w.content
    decreases |es|
  {
    if es != [] { DownIsWhole(cfg, Next(cfg, w, es[0]), es[1..]); }
  }

  /** A backup whose suspend failed: the workload writes two files while they are read. */
  function TornRun(c: Content): seq<Event> {
    [ReadBegin(true, true, false, false), Write(1, c + 1, false), Write(2, c + 2, false), ReadEnd(c + 3, true, true, true)]
  }

  /** Such an archive holds what the data dir never held, and the workload is not due. */
  lemma FailedSuspendTearsTheArchive(c: Content)
    ensures var cfg := Config(10, 1);
      var w := Run(cfg, Started(c), TornRun(c));
      Init(Started(c)) && !TarDue(cfg, w, Due(2, true, true)) && !LagBounded(cfg, w, 2)
  {
    var cfg := Config(10, 1);
    var es := TornRun(c);
    var w1 := Next(cfg, Started(c), es[0]);
    var w2 := Next(cfg, w1, es[1]);
    var w3 := Next(cfg, w2, es[2]);
    var w := Next(cfg, w3, es[3]);
    RunFour(cfg, es, Started(c), w1, w2, w3, w);
    assert w3.hist == [Sample(0, c), Sample(1, c + 1), Sample(2, c + 2)];
    assert w.backups == [TarBackup(0, c + 3, false, false)];
    forall i ensures !HeldRecently(cfg, w, i, 2) {}
  }

  /** A workload that runs, has no backup, and was written just now. */
  function Started(c: Content): Tar { Tar(0, c, 0, true, [], None, None, [Sample(0, c)]) }

  lemma RunFour(cfg: Config, es: seq<Event>, w0: Tar, w1: Tar, w2: Tar, w3: Tar, w4: Tar)
    requires |es| >= 4 && Next(cfg, w0, es[0]) == w1 && Next(cfg, w1, es[1]) == w2
    requires Next(cfg, w2, es[2]) == w3 && Next(cfg, w3, es[3]) == w4
    ensures Run(cfg, w0, es) == Run(cfg, w4, es[4..])
  {
    assert es[1..][1..] == es[2..] && es[2..][1..] == es[3..] && es[3..][1..] == es[4..];
    assert Run(cfg, w3, es[3..]) == Run(cfg, w4, es[4..]);
    assert Run(cfg, w2, es[2..]) == Run(cfg, w3, es[3..]);
    assert Run(cfg, w1, es[1..]) == Run(cfg, w2, es[2..]);
  }

  // ----------------------------------------------------------------- coverage

  datatype Status = Current | RecentBackup | Stale

  /** coverTar reads the store itself, not the scheduler's cache. */
  function CoverTar(cfg: Config, w: Tar, now: int, listOk: bool, walkOk: bool): Status {
    var at := Newest(w, listOk);
    if at.Some? && UnchangedSinceBackup(w, walkOk) then Current
    else if at.Some? && Recent(cfg, at, now) then RecentBackup
    else Stale
  }

  /** The newest archive was stamped after it was read, and written under; its last write is not past its listed time. */
  predicate Hidden(w: Tar) {
    w.backups != [] && w.backups[0].late && !w.backups[0].whole && w.lastWrite <= Listed(w.backups[0].createdAt)
  }

  /** What a status is worth: exact contents, unless a write is hidden; or a bounded lag, if the archive is whole. */
  ghost predicate Worth(cfg: Config, w: Tar, status: Status, now: int) {
    match status
    case Current => w.backups != [] && (Hidden(w) || w.backups[0].content == w.content)
    case RecentBackup => w.backups != [] && (w.backups[0].whole ==> LagBounded(cfg, w, now))
    case Stale => true
  }

  lemma CoverageIsHonest(cfg: Config, start: Tar, es: seq<Event>, now: int, listOk: bool, walkOk: bool)
    requires cfg.keep >= 1 && Init(start)
    ensures var w := Run(cfg, start, es); Worth(cfg, w, CoverTar(cfg, w, now, listOk, walkOk), now)
  {
    InvRun(cfg, start, es);
    CoverIsHonest(cfg, Run(cfg, start, es), now, listOk, walkOk);
  }

  lemma CoverIsHonest(cfg: Config, w: Tar, now: int, listOk: bool, walkOk: bool)
    requires Inv(w)
    ensures Worth(cfg, w, CoverTar(cfg, w, now, listOk, walkOk), now)
  {
    if CoverTar(cfg, w, now, listOk, walkOk).RecentBackup? && w.backups[0].whole {
      NewestWasHeld(w);
      HeldIsRecent(cfg, w, Listed(w.backups[0].createdAt), now);
    }
  }

  /** With stores that stamp first nothing is hidden, and current means exact contents in every run. */
  lemma StampedFirstIsExact(cfg: Config, start: Tar, es: seq<Event>, now: int, listOk: bool, walkOk: bool)
    requires cfg.keep >= 1 && Init(start) && forall i :: 0 <= i < |es| && es[i].ReadBegin? ==> !es[i].late
    ensures var w := Run(cfg, start, es);
      CoverTar(cfg, w, now, listOk, walkOk).Current? ==> w.backups != [] && w.backups[0].content == w.content
  {
    CoverageIsHonest(cfg, start, es, now, listOk, walkOk);
    NoneLateRun(cfg, start, es);
  }

  predicate NoneLate(w: Tar) {
    (w.reading.Some? ==> !w.reading.value.late) && forall i :: 0 <= i < |w.backups| ==> !w.backups[i].late
  }

  lemma {:induction false} NoneLateRun(cfg: Config, w: Tar, es: seq<Event>)
    requires NoneLate(w) && forall i :: 0 <= i < |es| && es[i].ReadBegin? ==> !es[i].late
    ensures NoneLate(Run(cfg, w, es))
    decreases |es|
  {
    if es != [] { NoneLateRun(cfg, Next(cfg, w, es[0]), es[1..]); }
  }

  // ------------------------------------------------- what is stamped after its read

  /** No archive ends. */
  predicate NoneEnds(es: seq<Event>) { forall i :: 0 <= i < |es| ==> !(es[i].ReadEnd? && es[i].createOk) }

  /** As long as no other archive takes its place, whenever the newest one counts as current it is what the data dir holds. */
  ghost predicate StaysHonest(cfg: Config, w: Tar) {
    forall es, now, listOk, walkOk :: NoneEnds(es) && CoverTar(cfg, Run(cfg, w, es), now, listOk, walkOk).Current? ==>
      Run(cfg, w, es).backups[0].content == Run(cfg, w, es).content
  }

  ghost predicate Exact(w: Tar) {
    w.backups != [] && w.backups[0].createdAt <= w.now
    && (w.lastWrite <= Listed(w.backups[0].createdAt) ==> w.content == w.backups[0].content)
  }

  lemma {:induction false} ExactStays(cfg: Config, w: Tar, es: seq<Event>)
    requires Exact(w) && NoneEnds(es)
    ensures Exact(Run(cfg, w, es))
    decreases |es|
  {
    if es != [] { ExactStays(cfg, Next(cfg, w, es[0]), es[1..]); }
  }

  /** The archive that ends here holds read. */
  function EndWith(cfg: Config, w: Tar, read: Content): Tar { Next(cfg, w, ReadEnd(read, true, true, true)) }

  /**
   * The exact condition: whatever the archive that ends here may hold, it is
   * never taken for what it is not, if and only if nothing was written before it
   * was both read and stamped, or the last write so far is past its listed time.
   * A stamp that precedes the read always meets it.
   */
  lemma CurrentIsExactIff(cfg: Config, w: Tar)
    requires cfg.keep >= 1 && Inv(w) && w.reading.Some? && w.reading.value.stamp.Some?
    ensures var r := w.reading.value;
      (forall read :: Enabled(w, ReadEnd(read, true, true, true)) ==> StaysHonest(cfg, EndWith(cfg, w, read)))
      <==> !r.wrote || w.lastWrite > Listed(r.stamp.value)
    ensures !w.reading.value.late ==> !w.reading.value.wrote || w.lastWrite > Listed(w.reading.value.stamp.value)
  {
    var r := w.reading.value;
    if !r.wrote || w.lastWrite > Listed(r.stamp.value) {
      forall read | Enabled(w, ReadEnd(read, true, true, true)) ensures StaysHonest(cfg, EndWith(cfg, w, read)) {
        var d := EndWith(cfg, w, read);
        assert d.backups[0] == Archived(r, read);
        forall es, now, listOk, walkOk | NoneEnds(es) && CoverTar(cfg, Run(cfg, d, es), now, listOk, walkOk).Current?
          ensures Run(cfg, d, es).backups[0].content == Run(cfg, d, es).content
        {
          ExactStays(cfg, d, es);
        }
      }
    } else {
      NotExactIsTold(cfg, w, w.content + 1);
    }
  }

  lemma NotExactIsTold(cfg: Config, w: Tar, read: Content)
    requires cfg.keep >= 1 && w.reading.Some? && w.reading.value.stamp.Some? && w.reading.value.wrote && read != w.content
    requires w.lastWrite <= Listed(w.reading.value.stamp.value)
    ensures Enabled(w, ReadEnd(read, true, true, true)) && !StaysHonest(cfg, EndWith(cfg, w, read))
  {
    var d := EndWith(cfg, w, read);
    assert d.backups[0] == Archived(w.reading.value, read);
    assert Run(cfg, d, []) == d && CoverTar(cfg, d, 0, true, true).Current? && NoneEnds([]);
  }

  /** The condition of CurrentIsExactIff, for the archive that ends here if one does, and for every archive of a run. */
  predicate Told(w: Tar, e: Event) {
    e.ReadEnd? && e.createOk && Enabled(w, e) ==> !w.reading.value.wrote || w.lastWrite > Listed(w.reading.value.stamp.value)
  }

  predicate AllTold(cfg: Config, w: Tar, es: seq<Event>)
    decreases |es|
  {
    es == [] || (Told(w, es[0]) && AllTold(cfg, Next(cfg, w, es[0]), es[1..]))
  }

  ghost predicate NewestShows(w: Tar) {
    w.backups != [] && !w.backups[0].whole ==> w.lastWrite > Listed(w.backups[0].createdAt)
  }

  lemma ToldShows(cfg: Config, w: Tar, e: Event)
    requires cfg.keep >= 1 && w.lastWrite <= w.now && NewestShows(w) && Told(w, e)
    ensures var d := Next(cfg, w, e); NewestShows(d) && d.lastWrite <= d.now
  {
    if e.ReadEnd? && e.createOk && Enabled(w, e) { assert Next(cfg, w, e).backups[0] == Archived(w.reading.value, e.read); }
  }

  lemma {:induction false} AllToldShows(cfg: Config, w: Tar, es: seq<Event>)
    requires cfg.keep >= 1 && w.lastWrite <= w.now && NewestShows(w) && AllTold(cfg, w, es)
    ensures NewestShows(Run(cfg, w, es))
    decreases |es|
  {
    if es != [] {
      ToldShows(cfg, w, es[0]);
      AllToldShows(cfg, Next(cfg, w, es[0]), es[1..]);
    }
  }

  /** If every archive of a run meets it, current means exact contents. */
  lemma ToldRunIsExact(cfg: Config, start: Tar, es: seq<Event>, now: int, listOk: bool, walkOk: bool)
    requires cfg.keep >= 1 && Init(start) && AllTold(cfg, start, es)
    ensures var w := Run(cfg, start, es);
      CoverTar(cfg, w, now, listOk, walkOk).Current? ==> w.backups != [] && w.backups[0].content == w.content
  {
    CoverageIsHonest(cfg, start, es, now, listOk, walkOk);
    AllToldShows(cfg, start, es);
  }

  /** An archive for the S3 store: a file is synced while the data dir is read, a second before the stamp. */
  function LateRun(c: Content): seq<Event> {
    [ReadBegin(true, true, true, true), Write(SECOND, c + 1, true), Tick(2 * SECOND), Stamp, ReadEnd(c, true, true, true)]
  }

  /**
   * The write is in no archive, and the report calls the workload current and the
   * scheduler finds it not due, at every later time and through every renewal.
   */
  lemma LateStampHidesAWrite(c: Content, t: int, later: seq<int>)
    requires t >= 2 * SECOND && forall i :: 0 <= i < |later| ==> 2 * SECOND <= later[i]
    ensures var w := Run(DAILY, Run(DAILY, Started(c), LateRun(c)), Sweeps(later));
      && Init(Started(c)) && w.backups == [TarBackup(2 * SECOND, c, true, false)] && w.content == c + 1 && Hidden(w)
      && CoverTar(DAILY, w, t, true, true).Current? && !TarDue(DAILY, w, Due(t, true, true))
  {
    LateRunEnds(c);
    SweepsChangeNoData(DAILY, LateEnd(c), later);
  }

  const DAILY: Config := Config(86400 * SECOND, 7)

  function LateEnd(c: Content): Tar {
    Tar(2 * SECOND, c + 1, SECOND, true, [TarBackup(2 * SECOND, c, true, false)], Some(Some(2 * SECOND)), None,
        [Sample(0, c), Sample(SECOND, c + 1), Sample(2 * SECOND, c + 1)])
  }

  lemma LateRunEnds(c: Content)
    ensures Run(DAILY, Started(c), LateRun(c)) == LateEnd(c)
  {
    var es := LateRun(c);
    var r := Reading(0, c, true, None, true, true, true);
    var w1 := Started(c).(running := false, reading := Some(r.(wrote := false)));
    var w2 := w1.(now := SECOND, content := c + 1, lastWrite := SECOND, reading := Some(r), hist := [Sample(0, c), Sample(SECOND, c + 1)]);
    var w3 := w2.(now := 2 * SECOND, hist := w2.hist + [Sample(2 * SECOND, c + 1)]);
    var w4 := w3.(reading := Some(r.(stamp := Some(2 * SECOND))));
    RunFour(DAILY, es, Started(c), w1, w2, w3, w4);
    assert es[4..] == [es[4]] && es[4..][1..] == [];
    LateArchiveEnds(c, w4);
    assert Run(DAILY, w4, es[4..]) == Next(DAILY, w4, es[4]);
  }

  lemma LateArchiveEnds(c: Content, w: Tar)
    requires w == LateEnd(c).(running := false, backups := [], checked := None,
                              reading := Some(Reading(0, c, true, Some(2 * SECOND), true, true, true)))
    ensures Next(DAILY, w, ReadEnd(c, true, true, true)) == LateEnd(c)
  {}

  /** The scheduler's question, asked again and again. */
  function Sweeps(times: seq<int>): seq<Event> {
    if times == [] then [] else [Tick(times[0]), Due(times[0], true, true)] + Sweeps(times[1..])
  }

  lemma {:induction false} SweepsChangeNoData(cfg: Config, w: Tar, times: seq<int>)
    ensures var d := Run(cfg, w, Sweeps(times));
      d.backups == w.backups && d.content == w.content && d.lastWrite == w.lastWrite
    decreases |times|
  {
    if times != [] {
      var w1 := Next(cfg, w, Tick(times[0]));
      var w2 := Next(cfg, w1, Due(times[0], true, true));
      var rest := Sweeps(times[1..]);
      var es := Sweeps(times);
      assert es[0] == Tick(times[0]) && es[1..] == [Due(times[0], true, true)] + rest && es[1..][1..] == rest;
      assert Run(cfg, w1, es[1..]) == Run(cfg, w2, rest);
      SweepsChangeNoData(cfg, w2, times[1..]);
    }
  }

  // -------------------------------------------- the scheduler against the report

  /**
   * For tars, unlike for dumps, the two can disagree. They agree if and only if
   * nothing was written since the newest backup, or the time the scheduler
   * remembers and that of the newest backup are both recent or both not.
   */
  lemma AgreeIff(cfg: Config, w: Tar, now: int, walkOk: bool)
    ensures (TarDue(cfg, w, Due(now, true, walkOk)) <==> CoverTar(cfg, w, now, true, walkOk).Stale?)
      <==> UnchangedSinceBackup(w, walkOk) || (Recent(cfg, CheckedAt(w, true), now) <==> Recent(cfg, Newest(w, true), now))
  {}

  /** The scheduler remembers nothing, or exactly the newest backup's listed time. */
  predicate InStep(w: Tar) { CheckedAt(w, true) == Newest(w, true) }

  /** What takes the two apart: a renewal, a first look the store did not answer, and a backup whose own time is kept, or not noted. */
  predicate Parts(cfg: Config, w: Tar, e: Event) {
    if e.Due? then
      if !Recent(cfg, CheckedAt(w, e.listOk), e.at) && UnchangedSinceBackup(w, e.walkOk) then Newest(w, true) != Some(e.at)
      else w.checked.None? && !e.listOk && w.backups != []
    else if e.ReadEnd? && e.createOk && Enabled(w, e) then
      var at := w.reading.value.stamp.value;
      var newest := if cfg.keep >= 1 || !e.retainOk then Some(Listed(at)) else None;
      if w.reading.value.scheduled then newest != Some(at) else w.checked.Some? && w.checked.value != newest
    else false
  }

  /** From a state in step, every step but those keeps the scheduler and the report in agreement, and each of those ends it. */
  lemma StaysInStepIff(cfg: Config, w: Tar, e: Event)
    requires InStep(w) && Enabled(w, e)
    ensures InStep(Next(cfg, w, e)) <==> !Parts(cfg, w, e)
  {}

  predicate NoneParts(cfg: Config, w: Tar, es: seq<Event>)
    decreases |es|
  {
    es == [] || (Enabled(w, es[0]) && !Parts(cfg, w, es[0]) && NoneParts(cfg, Next(cfg, w, es[0]), es[1..]))
  }

  lemma {:induction false} InStepRun(cfg: Config, w: Tar, es: seq<Event>, now: int, walkOk: bool)
    requires InStep(w) && NoneParts(cfg, w, es)
    ensures var d := Run(cfg, w, es);
      InStep(d) && (TarDue(cfg, d, Due(now, true, walkOk)) <==> CoverTar(cfg, d, now, true, walkOk).Stale?)
    decreases |es|
  {
    AgreeIff(cfg, w, now, walkOk);
    if es != [] {
      StaysInStepIff(cfg, w, es[0]);
      InStepRun(cfg, Next(cfg, w, es[0]), es[1..], now, walkOk);
    }
  }

  /** Data found unchanged, then written, is stale in the report and not due. */
  lemma StaleButNotDue(c: Content)
    ensures var cfg := Config(5 * SECOND, 1);
      var es := [ReadBegin(true, true, true, false), ReadEnd(c, true, true, true), Tick(6 * SECOND),
                 Due(6 * SECOND, true, true), Write(7 * SECOND, c + 1, true)];
      var w := Run(cfg, Started(c), es);
      CoverTar(cfg, w, 7 * SECOND, true, true).Stale? && !TarDue(cfg, w, Due(7 * SECOND, true, true))
  {
    var cfg := Config(5 * SECOND, 1);
    var es := [ReadBegin(true, true, true, false), ReadEnd(c, true, true, true), Tick(6 * SECOND),
               Due(6 * SECOND, true, true), Write(7 * SECOND, c + 1, true)];
    var w1 := Next(cfg, Started(c), es[0]);
    var w2 := Next(cfg, w1, es[1]);
    var w3 := Next(cfg, w2, es[2]);
    var w4 := Next(cfg, w3, es[3]);
    RunFour(cfg, es, Started(c), w1, w2, w3, w4);
    assert w2.backups == [TarBackup(0, c, false, true)] && w2.checked == Some(Some(0));
    assert w4.checked == Some(Some(6 * SECOND));
    assert es[4..][1..] == [];
    assert Run(cfg, w4, es[4..]) == Next(cfg, w4, es[4]);
  }

  /** A manual backup after a first look that found none is recent in the report, and the next write makes it due. */
  lemma DueButRecent(c: Content)
    ensures var cfg := Config(5 * SECOND, 1);
      var es := [Due(0, true, true), ReadBegin(false, true, true, false), ReadEnd(c, true, true, true), Write(1, c + 1, true)];
      var w := Run(cfg, Started(c), es);
      CoverTar(cfg, w, 1, true, true).RecentBackup? && TarDue(cfg, w, Due(1, true, true))
  {
    var cfg := Config(5 * SECOND, 1);
    var es := [Due(0, true, true), ReadBegin(false, true, true, false), ReadEnd(c, true, true, true), Write(1, c + 1, true)];
    var w1 := Next(cfg, Started(c), es[0]);
    var w2 := Next(cfg, w1, es[1]);
    var w3 := Next(cfg, w2, es[2]);
    var w4 := Next(cfg, w3, es[3]);
    RunFour(cfg, es, Started(c), w1, w2, w3, w4);
    assert w3.backups == [TarBackup(0, c, false, true)] && w3.checked == Some(None);
    assert es[4..] == [];
  }

  // ------------------------------------------------------ one whole backup

  /**
   * The environment of one backup: meanwhile is what happens before the stamp of
   * an archive that is stamped late, after what happens from then on; of one that
   * is stamped first, both happen while it is read.
   */
  datatype Backing = Backing(seen: bool, stopped: bool, late: bool, meanwhile: seq<Event>, after: seq<Event>, read: Content,
                             createOk: bool, retainOk: bool, startOk: bool)
  {
    predicate Fits() { Others(meanwhile) && Others(after) }

    /** Nothing is written until the backup ends. */
    predicate Quiet() { NoneWrites(meanwhile) && NoneWrites(after) }
  }

  /** What the workload, its clients and the clock do while the lock is held. */
  predicate Others(es: seq<Event>) { forall i :: 0 <= i < |es| ==> es[i].Tick? || es[i].Write? || es[i].Down? }

  predicate NoneWrites(es: seq<Event>) { forall i :: 0 <= i < |es| ==> !es[i].Write? }

  function EndOf(w: Tar, b: Backing): Event
    requires w.reading.Some?
  {
    ReadEnd(if w.reading.value.wrote then b.read else w.reading.value.content, b.createOk, b.retainOk, b.startOk)
  }

  /** The workload when its archive is about to be stamped, unless it was stamped first, and when it is about to end. */
  function BeforeStamp(cfg: Config, w: Tar, scheduled: bool, b: Backing): Tar {
    Run(cfg, Next(cfg, w, ReadBegin(scheduled, b.seen, b.stopped, b.late)), b.meanwhile)
  }

  function Underway(cfg: Config, w: Tar, scheduled: bool, b: Backing): Tar {
    Run(cfg, Next(cfg, BeforeStamp(cfg, w, scheduled, b), Stamp), b.after)
  }

  lemma {:induction false} StillReading(cfg: Config, w: Tar, es: seq<Event>)
    requires w.reading.Some? && Others(es)
    ensures var d := Run(cfg, w, es);
      && d.reading.Some? && d.reading.value.(wrote := false) == w.reading.value.(wrote := false)
      && d.now >= w.now && d.backups == w.backups && d.checked == w.checked
      && (NoneWrites(es) ==> d.reading == w.reading && d.content == w.content && d.lastWrite == w.lastWrite)
    decreases |es|
  {
    if es != [] { StillReading(cfg, Next(cfg, w, es[0]), es[1..]); }
  }

  lemma IsUnderway(cfg: Config, w: Tar, scheduled: bool, b: Backing)
    requires w.reading.None? && b.Fits()
    ensures BeforeStamp(cfg, w, scheduled, b).reading.Some?
    ensures var u := Underway(cfg, w, scheduled, b);
      && u.reading.Some? && u.now >= w.now && u.backups == w.backups && u.checked == w.checked
      && var r := u.reading.value;
      && r.stamp.Some? && r.stamp.value >= w.now && r.scheduled == scheduled && r.late == b.late
      && (b.Quiet() ==> !r.wrote && u.content == w.content && u.lastWrite == w.lastWrite)
  {
    StillReading(cfg, Next(cfg, w, ReadBegin(scheduled, b.seen, b.stopped, b.late)), b.meanwhile);
    StillReading(cfg, Next(cfg, BeforeStamp(cfg, w, scheduled, b), Stamp), b.after);
  }

  /** BackupWorkload, from the lock to its end. */
  function Archive(cfg: Config, w: Tar, scheduled: bool, b: Backing): Tar
    requires w.reading.None? && b.Fits()
  {
    IsUnderway(cfg, w, scheduled, b);
    var u := Underway(cfg, w, scheduled, b);
    Next(cfg, u, EndOf(u, b))
  }

  lemma UnderwayKeeps(cfg: Config, w: Tar, scheduled: bool, b: Backing)
    requires cfg.keep >= 1 && Inv(w) && w.reading.None? && b.Fits()
    ensures Inv(Underway(cfg, w, scheduled, b))
  {
    var begun := Next(cfg, w, ReadBegin(scheduled, b.seen, b.stopped, b.late));
    InvStep(cfg, w, ReadBegin(scheduled, b.seen, b.stopped, b.late));
    InvRun(cfg, begun, b.meanwhile);
    InvStep(cfg, BeforeStamp(cfg, w, scheduled, b), Stamp);
    InvRun(cfg, Next(cfg, BeforeStamp(cfg, w, scheduled, b), Stamp), b.after);
  }

  lemma ArchiveKeeps(cfg: Config, w: Tar, scheduled: bool, b: Backing)
    requires cfg.keep >= 1 && Inv(w) && w.reading.None? && b.Fits()
    ensures var d := Archive(cfg, w, scheduled, b);
      && Inv(d) && d.reading.None? && d.now >= w.now
      && (b.Quiet() ==> d.content == w.content && d.lastWrite == w.lastWrite)
      && (b.createOk ==> d.backups != [] && d.backups[0].createdAt >= w.now && (b.Quiet() ==> d.backups[0].whole))
      && (b.createOk && scheduled ==> d.checked == Some(Some(d.backups[0].createdAt)))
      && (!b.createOk ==> d.backups == w.backups && d.checked == w.checked)
  {
    IsUnderway(cfg, w, scheduled, b);
    UnderwayKeeps(cfg, w, scheduled, b);
    var u := Underway(cfg, w, scheduled, b);
    InvStep(cfg, u, EndOf(u, b));
  }

  // -------------------------------------------------- a suspend that worked

  /** Nobody syncs a file; nothing stops the workload. */
  predicate NoneSyncs(es: seq<Event>) { forall i :: 0 <= i < |es| ==> !(es[i].Write? && es[i].sync) }

  predicate NoneStops(es: seq<Event>) { forall i :: 0 <= i < |es| ==> !es[i].Down? }

  lemma {:induction false} DownWritesNothing(cfg: Config, w: Tar, es: seq<Event>)
    requires !w.running && w.reading.Some? && !w.reading.value.wrote && Others(es) && NoneSyncs(es)
    ensures var d := Run(cfg, w, es);
      !d.running && d.content == w.content && d.lastWrite == w.lastWrite && d.reading == w.reading
    decreases |es|
  {
    if es != [] { DownWritesNothing(cfg, Next(cfg, w, es[0]), es[1..]); }
  }

  lemma {:induction false} RunsOnIff(cfg: Config, w: Tar, es: seq<Event>)
    requires Others(es)
    ensures Run(cfg, w, es).running <==> w.running && NoneStops(es)
    decreases |es|
  {
    if es != [] {
      RunsOnIff(cfg, Next(cfg, w, es[0]), es[1..]);
      assert NoneStops(es) <==> !es[0].Down? && NoneStops(es[1..]) by {
        if NoneStops(es) { assert forall i :: 0 <= i < |es[1..]| ==> es[1..][i] == es[i + 1]; }
      }
    }
  }

  /** The backup put its workload down, or found it so. */
  predicate Suspends(w: Tar, b: Backing) { w.running ==> b.seen && b.stopped }

  /** The workload runs on under its backup. */
  predicate RunsOn(w: Tar, b: Backing) {
    w.running && !(b.seen && b.stopped) && NoneStops(b.meanwhile) && NoneStops(b.after)
  }

  /**
   * With a suspend that worked and no file synced meanwhile, nothing is written
   * under the archive, and it holds what the data dir held when the backup began.
   */
  lemma SuspendedBackupIsWhole(cfg: Config, w: Tar, scheduled: bool, b: Backing)
    requires cfg.keep >= 1 && w.reading.None? && b.Fits()
    requires Suspends(w, b) && NoneSyncs(b.meanwhile) && NoneSyncs(b.after)
    ensures var d := Archive(cfg, w, scheduled, b);
      && d.content == w.content && d.lastWrite == w.lastWrite
      && (b.createOk ==> d.backups != [] && d.backups[0].whole && d.backups[0].content == w.content)
  {
    var begun := Next(cfg, w, ReadBegin(scheduled, b.seen, b.stopped, b.late));
    DownWritesNothing(cfg, begun, b.meanwhile);
    DownWritesNothing(cfg, Next(cfg, BeforeStamp(cfg, w, scheduled, b), Stamp), b.after);
    IsUnderway(cfg, w, scheduled, b);
  }

  /** After a backup its workload runs exactly if it was seen running and started again, or had run on all the time. */
  lemma RunsAfterIff(cfg: Config, w: Tar, scheduled: bool, b: Backing)
    requires w.reading.None? && b.Fits()
    ensures Archive(cfg, w, scheduled, b).running <==> (w.running && b.seen && b.startOk) || RunsOn(w, b)
  {
    var begun := Next(cfg, w, ReadBegin(scheduled, b.seen, b.stopped, b.late));
    RunsOnIff(cfg, begun, b.meanwhile);
    RunsOnIff(cfg, Next(cfg, BeforeStamp(cfg, w, scheduled, b), Stamp), b.after);
    RestartsIff(cfg, w, scheduled, b);
  }

  lemma RestartsIff(cfg: Config, w: Tar, scheduled: bool, b: Backing)
    requires w.reading.None? && b.Fits()
    ensures var u := Underway(cfg, w, scheduled, b);
      u.reading.Some? && u.reading.value.stamp.Some? && (u.reading.value.restart <==> w.running && b.seen)
  {
    StillReading(cfg, Next(cfg, w, ReadBegin(scheduled, b.seen, b.stopped, b.late)), b.meanwhile);
    StillReading(cfg, Next(cfg, BeforeStamp(cfg, w, scheduled, b), Stamp), b.after);
  }

  // ------------------------------------------------ a restarted orchestrator

  /** It remembers no backup and asks the store, and a backup that it was making is no more. */
  lemma DueAfterRestartIff(cfg: Config, w: Tar, e: Event)
    requires e.Due?
    ensures var d := Next(cfg, w, RestartOrchd);
      && d.reading.None? && d.running == w.running && d.backups == w.backups
      && (TarDue(cfg, d, e) <==>
          (w.backups != [] ==>
            var newest := Listed(w.backups[0].createdAt);
            !(e.listOk && e.at < newest + cfg.interval) && !(e.walkOk && w.lastWrite <= newest)))
  {}

  /** A workload comes up unless a backup reads it, and goes down at any time; that is no write. */
  lemma UpUnlessRead(cfg: Config, w: Tar)
    ensures var (up, down) := (Next(cfg, w, Up), Next(cfg, w, Down));
      && (up.running <==> w.running || w.reading.None?) && !down.running
      && up.(running := w.running) == down.(running := w.running) == w
  {}

  // ------------------------------------------------------------ the scheduler

  /** One tar-backed workload as the scheduler's and the manager's code sees and changes it. */
  class TarWorkload {
    const cfg: Config
    var now: int
    var content: Content
    var lastWrite: int
    var running: bool
    var backups: seq<TarBackup>
    var checked: Option<Option<int>>
    var reading: Option<Reading>
    ghost var hist: seq<Sample>

    ghost function View(): Tar
      reads this
    {
      Tar(now, content, lastWrite, running, backups, checked, reading, hist)
    }

    constructor (cfg: Config, now: int, content: Content)
      ensures this.cfg == cfg && Init(View())
    {
      this.cfg, this.now, this.content, lastWrite, running := cfg, now, content, now, false;
      backups, checked, reading, hist := [], None, None, [Sample(now, content)];
    }

    method Check(at: Option<int>)
      modifies this`checked
      ensures checked == Some(at)
    {
      checked := Some(at);
    }

    method CheckedAtNow(listOk: bool) returns (at: Option<int>)
      modifies this`checked
      ensures at == CheckedAt(old(View()), listOk) && checked == Some(at)
    {
      if checked.Some? { return checked.value; }
      at := None;
      if listOk && |backups| > 0 { at := Some(Listed(backups[0].createdAt)); }
      Check(at);
    }

    method IsTarDue(now: int, listOk: bool, walkOk: bool) returns (due: bool)
      requires now <= this.now
      modifies this`checked
      ensures View() == Next(cfg, old(View()), Due(now, listOk, walkOk))
      ensures due == TarDue(cfg, old(View()), Due(now, listOk, walkOk))
    {
      var at := CheckedAtNow(listOk);
      if at.Some? && now - at.value < cfg.interval { return false; }
      if walkOk && |backups| > 0 && lastWrite <= Listed(backups[0].createdAt) {
        Check(Some(now));
        return false;
      }
      return true;
    }

    /** A workload seen running is suspended, and whether that worked is not asked. */
    method Begin(scheduled: bool, seen: bool, stopped: bool, late: bool)
      requires reading.None?
      modifies this`running, this`reading
      ensures View() == Next(cfg, old(View()), ReadBegin(scheduled, seen, stopped, late))
      ensures running <==> old(running) && !(seen && stopped)
    {
      var wasRunning := running && seen;
      if wasRunning && stopped { running := false; }
      reading := Some(Reading(now, content, late, if late then None else Some(now), false, scheduled, wasRunning));
    }

    /** S3Store.Put, once the tar is written. */
    method StampArchive()
      requires reading.Some?
      modifies this`reading
      ensures View() == Next(cfg, old(View()), Stamp)
    {
      if reading.value.stamp.None? { reading := Some(reading.value.(stamp := Some(now))); }
    }

    method PutArchive(b: TarBackup, retainOk: bool)
      modifies this`backups
      ensures backups == Kept(cfg, Put(old(View()), b), retainOk)
      ensures cfg.keep >= 1 || !retainOk ==> backups != [] && backups[0] == b
      ensures retainOk ==> |backups| <= cfg.keep
      ensures forall i :: 0 < i < |old(backups)| && (i + 1 < cfg.keep || !retainOk) ==> old(backups)[i] in backups
      ensures old(backups) != [] && Listed(old(backups)[0].createdAt) != Listed(b.createdAt) && (1 < cfg.keep || !retainOk)
        ==> old(backups)[0] in backups
      ensures old(backups) != [] && Listed(old(backups)[0].createdAt) == Listed(b.createdAt)
        ==> |backups| <= |old(backups)|
    {
      if |backups| > 0 && Listed(backups[0].createdAt) == Listed(b.createdAt) {
        backups := [b] + backups[1..];
        assert forall i :: 0 < i < |old(backups)| ==> backups[i] == old(backups)[i];
      } else {
        backups := [b] + backups;
        assert forall i :: 0 <= i < |old(backups)| ==> backups[i + 1] == old(backups)[i];
      }
      if retainOk && cfg.keep < |backups| { backups := backups[..cfg.keep]; }
    }

    method End(e: Event) returns (err: bool)
      requires e.ReadEnd? && Enabled(View(), e)
      modifies this`running, this`reading, this`backups, this`checked
      ensures View() == Next(cfg, old(View()), e) && err == !e.createOk
    {
      var r := reading.value;
      reading := None;
      if r.restart && e.startOk { running := true; }
      if !e.createOk { return true; }
      PutArchive(Archived(r, e.read), e.retainOk);
      if r.scheduled { Check(r.stamp); }
      return false;
    }

    method Meanwhile(es: seq<Event>)
      requires Others(es)
      modifies this`now, this`content, this`lastWrite, this`running, this`reading, this`hist
      ensures View() == Run(cfg, old(View()), es)
    {
      var todo := es;
      while todo != []
        invariant Others(todo)
        invariant Run(cfg, View(), todo) == Run(cfg, old(View()), es)
        decreases |todo|
      {
        ghost var was := View();
        var e := todo[0];
        match e {
          case Tick(later) => if later >= now { now, hist := later, hist + [Sample(later, content)]; }
          case Write(later, c, sync) =>
            if later > now && (sync || running) {
              now, content, lastWrite, hist := later, c, later, hist + [Sample(later, c)];
              if reading.Some? && !reading.value.Over() { reading := Some(reading.value.(wrote := true)); }
            }
          case Down => running := false;
        }
        assert View() == Next(cfg, was, e);
        todo := todo[1..];
      }
    }

    /** The store's Create, up to its last step. */
    method ReadAndStamp(scheduled: bool, b: Backing)
      requires reading.None? && b.Fits()
      modifies this
      ensures View() == Underway(cfg, old(View()), scheduled, b)
    {
      IsUnderway(cfg, View(), scheduled, b);
      Begin(scheduled, b.seen, b.stopped, b.late);
      Meanwhile(b.meanwhile);
      StampArchive();
      Meanwhile(b.after);
    }

    method TarBackupNow(scheduled: bool, b: Backing) returns (err: bool)
      requires reading.None? && b.Fits()
      modifies this
      ensures View() == Archive(cfg, old(View()), scheduled, b) && err == !b.createOk
      ensures running <==> (old(running) && b.seen && b.startOk) || RunsOn(old(View()), b)
      ensures cfg.keep >= 1 && Suspends(old(View()), b) && NoneSyncs(b.meanwhile) && NoneSyncs(b.after) ==>
        content == old(content) && (!err ==> backups != [] && backups[0].whole && backups[0].content == content)
    {
      IsUnderway(cfg, View(), scheduled, b);
      RunsAfterIff(cfg, View(), scheduled, b);
      if cfg.keep >= 1 && Suspends(View(), b) && NoneSyncs(b.meanwhile) && NoneSyncs(b.after) {
        SuspendedBackupIsWhole(cfg, View(), scheduled, b);
      }
      ReadAndStamp(scheduled, b);
      var read := if reading.value.wrote then b.read else reading.value.content;
      err := End(ReadEnd(read, b.createOk, b.retainOk, b.startOk));
    }
  }
}
