/**
 * Admission of microVM spawns under MaxLive. A spawn is admitted by a count of
 * recorded firecracker processes plus reservations. It starts its VMM as an `ip`
 * process, releases its reservation, writes the record, and the process becomes
 * a firecracker when it execs: until the last two are done the VMM is uncounted.
 */
module Admission {
  import opened Common

  type Ref = nat

  type Pid = nat

  /** What a live process is called: `ip netns exec` first, the VMM after its exec. */
  datatype Comm = Ip | Firecracker

  /**
   * procs: the live VMM processes. metas: the process id each ref's record names,
   * which may be one of the past. starting: processes of spawns between their
   * release and their record.
   */
  datatype Host = Host(procs: map<Pid, Comm>, metas: map<Ref, Pid>, reserved: set<Ref>, starting: map<Ref, Pid>, pending: nat)
  {
    /** Every VMM there is, and every one about to be. */
    function Load(): nat { |procs.Keys| + |reserved| }

    /** Not yet recorded, not yet a firecracker, or left behind by a spawn of the same ref, a failed write or a failed kill. */
    function Unseen(): set<Pid> { set p | p in procs && p !in Seen(procs, metas, reserved) }
  }

  /** countLive's test of one record. */
  predicate Counts(procs: map<Pid, Comm>, metas: map<Ref, Pid>, r: Ref) {
    r in metas && metas[r] in procs && procs[metas[r]].Firecracker?
  }

  /** What countLive counts, but for some refs. */
  function Counted(procs: map<Pid, Comm>, metas: map<Ref, Pid>, but: set<Ref>): set<Ref> {
    set r | r in metas && r !in but && Counts(procs, metas, r)
  }

  /** The VMMs that a spawn's count sees, whichever spawn it is: a count leaves out its own ref. */
  function Seen(procs: map<Pid, Comm>, metas: map<Ref, Pid>, reserved: set<Ref>): set<Pid> {
    Named(Counted(procs, metas, reserved), metas)
  }

  /** The processes that the records of some refs name. */
  function Named(refs: set<Ref>, metas: map<Ref, Pid>): (ps: set<Pid>)
    ensures forall r :: r in refs && r in metas ==> metas[r] in ps
    ensures forall p :: p in ps ==> exists r :: r in refs && r in metas && metas[r] == p
  {
    set r | r in refs && r in metas :: metas[r]
  }

  datatype Event =
    | Admit(ref: Ref)
    | SpawnFails(ref: Ref)
    | Start(ref: Ref, pid: Pid)         // the process runs, and the reservation goes: admitDone
    | Record(ref: Ref)                  // saveMeta
    | RecordFails(ref: Ref)
    | Exec(pid: Pid)
    | Dies(pid: Pid)
    | Kill(ref: Ref, works: bool)       // the record is cleared, whether or not the process went
    | DriverRestarts
    | StartRecorded(ref: Ref, pid: Pid) // Start and Record as one step: what the code does not do
    | Commit(ref: Ref, pid: Pid)        // Start, Record and Exec as one step: nor this

  /** admit's test, made under its lock; spawns of one ref are serialised by the caller. Without a positive max all are admitted. */
  predicate Enabled(max: int, h: Host, e: Event) {
    match e
    case Admit(r) => CanAdmit(max, h, r)
    case SpawnFails(r) => max > 0 ==> r in h.reserved
    case Start(r, p) => CanStart(max, h, r, p)
    case Record(r) => r in h.starting
    case RecordFails(r) => r in h.starting
    case Exec(p) => p in h.procs
    case Dies(p) => p in h.procs
    case Kill(r, _) => r !in h.reserved && r !in h.starting
    case DriverRestarts => true
    case StartRecorded(r, p) => CanStart(max, h, r, p)
    case Commit(r, p) => CanStart(max, h, r, p)
  }

  predicate CanAdmit(max: int, h: Host, r: Ref) {
    r !in h.reserved && r !in h.starting && (max > 0 ==> |Counted(h.procs, h.metas, {r})| + h.pending < max)
  }

  predicate CanStart(max: int, h: Host, r: Ref, p: Pid) {
    (max > 0 ==> r in h.reserved) && r !in h.starting && p !in h.procs
  }

  function Done(pending: nat): nat { if pending > 0 then pending - 1 else 0 }

  /** The reservation is given back. */
  function Released(h: Host, r: Ref): Host { h.(reserved := h.reserved - {r}, pending := Done(h.pending)) }

  function Admitted(max: int, h: Host, r: Ref): Host {
    if max > 0 then h.(reserved := h.reserved + {r}, pending := h.pending + 1) else h
  }

  function Started(h: Host, r: Ref, p: Pid): Host {
    Released(h, r).(procs := h.procs[p := Ip], starting := h.starting[r := p])
  }

  function StartedRecorded(h: Host, r: Ref, p: Pid): Host {
    Released(h, r).(procs := h.procs[p := Ip], metas := h.metas[r := p])
  }

  function Do(max: int, h: Host, e: Event): Host
    requires Enabled(max, h, e)
  {
    match e
    case Admit(r) => Admitted(max, h, r)
    case SpawnFails(r) => Released(h, r)
    case Start(r, p) => Started(h, r, p)
    case Record(r) => h.(metas := h.metas[r := h.starting[r]], starting := h.starting - {r})
    case RecordFails(r) => h.(starting := h.starting - {r})
    case Exec(p) => h.(procs := h.procs[p := Firecracker])
    case Dies(p) => h.(procs := h.procs - {p})
    case Kill(r, works) => Killed(h, r, works)
    case DriverRestarts => h.(reserved := {}, starting := map[], pending := 0)
    case StartRecorded(r, p) => StartedRecorded(h, r, p)
    case Commit(r, p) => Released(h, r).(procs := h.procs[p := Firecracker], metas := h.metas[r := p])
  }

  function Killed(h: Host, r: Ref, works: bool): Host {
    h.(metas := h.metas - {r}, procs := if works && r in h.metas then h.procs - {h.metas[r]} else h.procs)
  }

  /** One step; an event that cannot happen here changes nothing. */
  function Next(max: int, h: Host, e: Event): Host {
    if !Enabled(max, h, e) then h else Do(max, h, e)
  }

  function Run(max: int, h: Host, es: seq<Event>): Host
    decreases |es|
  {
    if es == [] then h else Next(max, Run(max, h, es[..|es| - 1]), es[|es| - 1])
  }

  /** The most VMMs unseen at once in a run. */
  function Peak(max: int, h: Host, es: seq<Event>): nat
    decreases |es|
  {
    if es == [] then |h.Unseen()| else Max(Peak(max, h, es[..|es| - 1]), |Run(max, h, es).Unseen()|)
  }

  // ---------------------------------------------------------------- invariant

  predicate Inv(max: int, h: Host, peak: nat) {
    h.pending == |h.reserved| && h.Load() <= max + peak
  }

  /** A driver that starts with at most max VMMs on its host. */
  predicate Init(max: int, h: Host) {
    h.reserved == {} && h.starting == map[] && h.pending == 0 && |h.procs.Keys| <= max
  }

  lemma SubsetSize<T>(a: set<T>, b: set<T>)
    requires a <= b
    ensures |a| <= |b|
  {
    assert b == a + (b - a);
    assert |b| == |a| + |b - a|;
  }

  lemma PartSizes<T>(all: set<T>, a: set<T>, b: set<T>)
    requires forall x | x in all :: x in a || x in b
    ensures |all| <= |a| + |b|
  {
    SubsetSize(all, a + b);
    assert |a + b| <= |a| + |b|;
  }

  /** Records name no more processes than there are records. */
  lemma {:induction false} NamedSize(refs: set<Ref>, metas: map<Ref, Pid>)
    ensures |Named(refs, metas)| <= |refs|
    decreases |refs|
  {
    if refs != {} {
      var r :| r in refs;
      NamedSize(refs - {r}, metas);
      var more := if r in metas then {metas[r]} else {};
      SubsetSize(Named(refs, metas), Named(refs - {r}, metas) + more);
      SubsetSize(more, if r in metas then {metas[r]} else {});
    }
  }

  /** Every reservation is counted once, so an admission stays within the bound. */
  lemma InvAdmit(max: int, h: Host, r: Ref, peak: nat)
    requires max > 0 && h.pending == |h.reserved| && CanAdmit(max, h, r)
    requires |Admitted(max, h, r).Unseen()| <= peak
    ensures Inv(max, Admitted(max, h, r), peak)
  {
    var reserved := h.reserved + {r};
    PartSizes(h.procs.Keys, Seen(h.procs, h.metas, reserved), Admitted(max, h, r).Unseen());
    NamedSize(Counted(h.procs, h.metas, reserved), h.metas);
    SubsetSize(Counted(h.procs, h.metas, reserved), Counted(h.procs, h.metas, {r}));
    assert |reserved| == |h.reserved| + 1;
  }

  /** No other step adds to the load. */
  lemma LoadOnlyFalls(max: int, h: Host, e: Event)
    requires max > 0 && h.pending == |h.reserved| && !e.Admit? && Enabled(max, h, e)
    ensures Falls(h, Do(max, h, e))
  {
    if e.SpawnFails? || e.Start? || e.StartRecorded? || e.Commit? { ReleaseFalls(max, h, e); }
    else { ProcessFalls(max, h, e); }
  }

  ghost predicate Falls(h: Host, d: Host) { d.pending == |d.reserved| && d.Load() <= h.Load() }

  lemma ReleaseFalls(max: int, h: Host, e: Event)
    requires max > 0 && h.pending == |h.reserved| && (e.SpawnFails? || e.Start? || e.StartRecorded? || e.Commit?)
    requires Enabled(max, h, e)
    ensures Falls(h, Do(max, h, e))
  {
    match e {
      case SpawnFails(r) => OneLess(h, r);
      case Start(r, p) => StartKeepsLoad(h, r, p, Ip);
      case StartRecorded(r, p) => StartKeepsLoad(h, r, p, Ip);
      case Commit(r, p) => StartKeepsLoad(h, r, p, Firecracker);
    }
  }

  lemma ProcessFalls(max: int, h: Host, e: Event)
    requires h.pending == |h.reserved| && !e.Admit? && !e.SpawnFails? && !e.Start? && !e.StartRecorded? && !e.Commit?
    requires Enabled(max, h, e)
    ensures Falls(h, Do(max, h, e))
  {
    match e {
      case Exec(p) => assert h.procs[p := Firecracker].Keys == h.procs.Keys;
      case Dies(p) => Fewer(h.procs, p);
      case Kill(r, _) => if r in h.metas { Fewer(h.procs, h.metas[r]); }
      case _ =>
    }
  }

  lemma OneLess(h: Host, r: Ref)
    requires h.pending == |h.reserved| && r in h.reserved
    ensures var d := Released(h, r); d.pending == |d.reserved| == |h.reserved| - 1
  {}

  lemma StartKeepsLoad(h: Host, r: Ref, p: Pid, c: Comm)
    requires h.pending == |h.reserved| && r in h.reserved && p !in h.procs
    ensures |h.procs[p := c].Keys| + |Released(h, r).reserved| == h.Load()
    ensures Released(h, r).pending == |Released(h, r).reserved|
  {
    OneLess(h, r);
    assert h.procs[p := c].Keys == h.procs.Keys + {p};
  }

  lemma OneMore(procs: map<Pid, Comm>, p: Pid)
    requires p !in procs
    ensures |procs[p := Ip].Keys| == |procs.Keys| + 1
  {
    assert procs[p := Ip].Keys == procs.Keys + {p};
  }

  lemma Fewer(procs: map<Pid, Comm>, p: Pid)
    ensures |(procs - {p}).Keys| <= |procs.Keys|
  {
    SubsetSize((procs - {p}).Keys, procs.Keys);
  }

  lemma InvStep(max: int, h: Host, e: Event, peak: nat)
    requires max > 0 && Inv(max, h, peak) && |Next(max, h, e).Unseen()| <= peak
    ensures Inv(max, Next(max, h, e), peak)
  {
    if e.Admit? { InvStepAdmit(max, h, e.ref, peak); }
    else if Enabled(max, h, e) { LoadOnlyFalls(max, h, e); }
  }

  lemma InvStepAdmit(max: int, h: Host, r: Ref, peak: nat)
    requires max > 0 && Inv(max, h, peak) && |Next(max, h, Admit(r)).Unseen()| <= peak
    ensures Inv(max, Next(max, h, Admit(r)), peak)
  {
    if CanAdmit(max, h, r) { InvAdmit(max, h, r, peak); }
  }

  lemma {:induction false} InvRun(max: int, h: Host, es: seq<Event>, peak: nat)
    requires max > 0 && Inv(max, h, peak) && Peak(max, h, es) <= peak
    ensures Inv(max, Run(max, h, es), peak)
    decreases |es|
  {
    if es != [] {
      InvRun(max, h, es[..|es| - 1], peak);
      InvStep(max, Run(max, h, es[..|es| - 1]), es[|es| - 1], peak);
    }
  }

  // ------------------------------------------------------------ main results

  /** In every run the VMMs and reservations exceed MaxLive by at most the most VMMs that were unseen at once. */
  lemma LoadIsBounded(max: int, start: Host, es: seq<Event>)
    requires max > 0 && Init(max, start)
    ensures Run(max, start, es).Load() <= max + Peak(max, start, es)
  {
    InvRun(max, start, es, Peak(max, start, es));
  }

  /** Start, record and exec are one step, no spawn replaces a VMM that still lives, and every kill works. */
  predicate Clean(h: Host, e: Event) {
    match e
    case Admit(r) => !(r in h.metas && h.metas[r] in h.procs)
    case SpawnFails(_) => true
    case Commit(_, _) => true
    case Dies(_) => true
    case Kill(_, works) => works
    case DriverRestarts => true
    case _ => false
  }

  predicate CleanRun(max: int, h: Host, es: seq<Event>)
    decreases |es|
  {
    es == [] || (CleanRun(max, h, es[..|es| - 1]) && Clean(Run(max, h, es[..|es| - 1]), es[|es| - 1]))
  }

  lemma CleanHidesNone(max: int, h: Host, e: Event)
    requires max > 0 && Enabled(max, h, e) && Clean(h, e) && h.Unseen() == {}
    ensures Do(max, h, e).Unseen() == {}
  {
    var d := Do(max, h, e);
    forall p | p in d.procs ensures p in Seen(d.procs, d.metas, d.reserved) {
      if e.Commit? && p == e.pid {
        SeenBy(d, e.ref);
      } else {
        assert p !in h.Unseen();
        var r :| r in Counted(h.procs, h.metas, h.reserved) && r in h.metas && h.metas[r] == p;
        SeenBy(d, r);
      }
    }
  }

  lemma SeenBy(h: Host, r: Ref)
    requires Counts(h.procs, h.metas, r) && r !in h.reserved
    ensures h.metas[r] in Seen(h.procs, h.metas, h.reserved)
  {
    assert r in Counted(h.procs, h.metas, h.reserved);
  }

  lemma {:induction false} CleanStaysSeen(max: int, h: Host, es: seq<Event>)
    requires max > 0 && h.Unseen() == {} && CleanRun(max, h, es)
    ensures Peak(max, h, es) == 0 && Run(max, h, es).Unseen() == {}
    decreases |es|
  {
    if es != [] {
      var before, e := Run(max, h, es[..|es| - 1]), es[|es| - 1];
      CleanStaysSeen(max, h, es[..|es| - 1]);
      if Enabled(max, before, e) { CleanHidesNone(max, before, e); }
    }
  }

  /** Were start, record and exec one step, and no VMM left behind, the cap would be exactly MaxLive. */
  lemma OneStepKeepsTheCap(max: int, start: Host, es: seq<Event>)
    requires max > 0 && Init(max, start) && start.Unseen() == {} && CleanRun(max, start, es)
    ensures Run(max, start, es).Load() <= max
  {
    LoadIsBounded(max, start, es);
    CleanStaysSeen(max, start, es);
  }

  // ----------------------------------------------------------- the overrun is real

  /** k spawns, one after the other, that do not exec; recorded says whether their records are written. */
  function Starting(k: nat, recorded: bool): seq<Event> {
    if k == 0 then [] else Starting(k - 1, recorded) + [Admit(k - 1)] + [BootOf(k - 1, recorded)]
  }

  function BootOf(k: nat, recorded: bool): Event {
    if recorded then StartRecorded(k, k) else Start(k, k)
  }

  /** n more spawns, numbered from k, that all hold a reservation. */
  function Reserving(k: nat, n: nat): seq<Event> {
    if n == 0 then [] else Reserving(k, n - 1) + [Admit(k + (n - 1))]
  }

  const Fresh: Host := Host(map[], map[], {}, map[], 0)

  /** The first k spawns have the process of their number, by their records or as processes still to be recorded. */
  ghost predicate Placed(h: Host, k: nat, recorded: bool) {
    forall r: nat :: r < k ==> if recorded then r in h.metas && h.metas[r] == r else r in h.starting && h.starting[r] == r
  }

  /** k VMMs that have not exec'd, and n reservations, numbered in this order. */
  ghost predicate Filled(h: Host, k: nat, n: nat, recorded: bool) {
    && Placed(h, k, recorded)
    && |h.procs.Keys| == k && (forall p :: p in h.procs ==> p < k && h.procs[p].Ip?)
    && h.pending == n && (forall r :: r in h.reserved ==> r < k + n)
    && (forall r :: r in h.starting ==> r < k)
  }

  /** Of processes that have not exec'd none is counted, and so all are unseen. */
  lemma NobodyCounts(h: Host)
    requires forall p :: p in h.procs ==> h.procs[p].Ip?
    ensures h.Unseen() == h.procs.Keys
  {
    assert Counted(h.procs, h.metas, h.reserved) == {};
    NamedSize({}, h.metas);
  }

  /** One step between two hosts, of which the second has no more than peak VMMs unseen. */
  ghost predicate Takes(max: int, from: Host, e: Event, to: Host, peak: nat) {
    Next(max, from, e) == to && |to.Unseen()| <= peak
  }

  lemma AdmitFills(max: int, h: Host, k: nat, n: nat, recorded: bool, peak: nat) returns (d: Host)
    requires n < max && Filled(h, k, n, recorded) && k <= peak
    ensures Takes(max, h, Admit(k + n), d, peak) && Filled(d, k, n + 1, recorded) && k + n in d.reserved
  {
    NoneToCount(max, h, k + n);
    d := Admitted(max, h, k + n);
    NobodyCounts(d);
  }

  lemma NoneToCount(max: int, h: Host, r: Ref)
    requires (forall p :: p in h.procs ==> h.procs[p].Ip?) && h.pending < max && r !in h.reserved && r !in h.starting
    ensures CanAdmit(max, h, r)
  {
    assert Counted(h.procs, h.metas, {r}) == {};
  }

  lemma StartFills(max: int, h: Host, k: nat, recorded: bool, peak: nat) returns (d: Host)
    requires max > 0 && Filled(h, k, 1, recorded) && k in h.reserved && k < peak
    ensures Takes(max, h, BootOf(k, recorded), d, peak) && Filled(d, k + 1, 0, recorded)
  {
    OneMore(h.procs, k);
    d := if recorded then StartedRecorded(h, k, k) else Started(h, k, k);
    NobodyCounts(d);
  }

  lemma SpawnFills(max: int, h: Host, k: nat, recorded: bool, peak: nat) returns (mid: Host, d: Host)
    requires max > 0 && Filled(h, k, 0, recorded) && k < peak
    ensures Takes(max, h, Admit(k), mid, peak) && Takes(max, mid, BootOf(k, recorded), d, peak) && Filled(d, k + 1, 0, recorded)
  {
    mid := AdmitFills(max, h, k, 0, recorded, peak);
    d := StartFills(max, mid, k, recorded, peak);
  }

  /** The hosts that a run goes through, none but the first with more than peak VMMs unseen. */
  ghost predicate Traces(max: int, es: seq<Event>, hosts: seq<Host>, peak: nat) {
    && |hosts| == |es| + 1
    && forall i | 0 <= i < |es| :: Takes(max, hosts[i], es[i], hosts[i + 1], peak)
  }

  lemma TraceMore(max: int, es: seq<Event>, hosts: seq<Host>, e: Event, d: Host, peak: nat)
    requires Traces(max, es, hosts, peak) && Takes(max, hosts[|es|], e, d, peak)
    ensures Traces(max, es + [e], hosts + [d], peak)
  {}

  lemma ReserveMore(max: int, es: seq<Event>, hosts: seq<Host>, k: nat, n: nat, recorded: bool) returns (last: Host)
    requires Traces(max, es, hosts, k) && Filled(hosts[|es|], k, n, recorded) && n < max
    ensures Traces(max, es + [Admit(k + n)], hosts + [last], k) && Filled(last, k, n + 1, recorded)
  {
    last := AdmitFills(max, hosts[|es|], k, n, recorded, k);
    TraceMore(max, es, hosts, Admit(k + n), last, k);
  }

  lemma {:induction false} RunTrace(max: int, es: seq<Event>, hosts: seq<Host>, peak: nat)
    requires Traces(max, es, hosts, peak) && |hosts[0].Unseen()| <= peak
    ensures Run(max, hosts[0], es) == hosts[|es|] && Peak(max, hosts[0], es) <= peak
    decreases |es|
  {
    if es != [] {
      var n := |es| - 1;
      RunTrace(max, es[..n], hosts[..|es|], peak);
      assert Takes(max, hosts[n], es[n], hosts[n + 1], peak);
    }
  }

  /** The hosts of the run that starts k spawns. */
  lemma {:induction false} StartingHosts(max: int, start: Host, k: nat, peak: nat, recorded: bool) returns (hosts: seq<Host>)
    requires max > 0 && Filled(start, 0, 0, recorded) && k <= peak
    ensures |hosts| == 2 * k + 1 && hosts[0] == start && Filled(hosts[2 * k], k, 0, recorded)
    ensures Traces(max, Starting(k, recorded), hosts, peak)
  {
    if k == 0 {
      hosts := [start];
    } else {
      var j, es := k - 1, Starting(k - 1, recorded);
      hosts := StartingHosts(max, start, j, peak, recorded);
      var mid, end := SpawnFills(max, hosts[2 * j], j, recorded, peak);
      TraceMore(max, es, hosts, Admit(j), mid, peak);
      TraceMore(max, es + [Admit(j)], hosts + [mid], BootOf(j, recorded), end, peak);
      hosts := hosts + [mid] + [end];
    }
  }

  /** And of the one that reserves n more. */
  lemma {:induction false} ReservingHosts(max: int, start: Host, k: nat, n: nat, recorded: bool) returns (hosts: seq<Host>)
    requires Filled(start, k, 0, recorded) && n <= max
    ensures |hosts| == n + 1 && hosts[0] == start && Filled(hosts[n], k, n, recorded)
    ensures Traces(max, Reserving(k, n), hosts, k)
  {
    if n == 0 {
      hosts := [start];
    } else {
      var j := n - 1;
      hosts := ReservingHosts(max, start, k, j, recorded);
      var last := ReserveMore(max, Reserving(k, j), hosts, k, j, recorded);
      hosts := hosts + [last];
    }
  }

  lemma {:induction false} RunAppend(max: int, h: Host, a: seq<Event>, b: seq<Event>)
    ensures Run(max, h, a + b) == Run(max, Run(max, h, a), b)
    ensures Peak(max, h, a + b) == Max(Peak(max, h, a), Peak(max, Run(max, h, a), b))
    decreases |b|
  {
    if b == [] {
      assert a + b == a;
      PeakIsLast(max, h, a);
    } else {
      assert (a + b)[..|a + b| - 1] == a + b[..|b| - 1];
      RunAppend(max, h, a, b[..|b| - 1]);
    }
  }

  lemma PeakIsLast(max: int, h: Host, es: seq<Event>)
    ensures |Run(max, h, es).Unseen()| <= Peak(max, h, es)
  {}

  /** The spawns that overrun MaxLive by k. */
  function Overrun(max: nat, k: nat, recorded: bool): seq<Event> { Starting(k, recorded) + Reserving(k, max) }

  lemma OverrunFills(max: nat, start: Host, k: nat, recorded: bool) returns (h: Host)
    requires max >= 1 && Filled(start, 0, 0, recorded)
    ensures var es := Overrun(max, k, recorded);
      Run(max, start, es) == h && Peak(max, start, es) <= k && Filled(h, k, max, recorded)
  {
    NobodyCounts(start);
    var first := StartingHosts(max, start, k, k, recorded);
    RunTrace(max, Starting(k, recorded), first, k);
    NobodyCounts(first[2 * k]);
    var second := ReservingHosts(max, first[2 * k], k, max, recorded);
    RunTrace(max, Reserving(k, max), second, k);
    RunAppend(max, start, Starting(k, recorded), Reserving(k, max));
    h := second[max];
  }

  /**
   * The bound is tight: for every MaxLive and every k there is a run whose load
   * is MaxLive + k, with k its peak, even if release and record were one step,
   * since a VMM that has not exec'd is not counted.
   */
  lemma TheOverrunIsReal(max: nat, k: nat, recorded: bool)
    requires max >= 1
    ensures Init(max, Fresh)
    ensures var es := Overrun(max, k, recorded); Run(max, Fresh, es).Load() == max + k && Peak(max, Fresh, es) == k
    ensures recorded ==> forall r: nat :: r < k ==> r in Run(max, Fresh, Overrun(max, k, recorded)).metas
  {
    var h := OverrunFills(max, Fresh, k, recorded);
    NobodyCounts(h);
    PeakIsLast(max, Fresh, Overrun(max, k, recorded));
    InvRun(max, Fresh, Overrun(max, k, recorded), k);
  }

  /** A spawn is counted from its exec on, if its record is there, until it dies or is killed; and not before. */
  lemma CountedFromExecOn(max: int, h: Host, r: Ref, p: Pid, but: set<Ref>)
    requires CanStart(max, h, r, p) && r !in but && (forall x :: x in h.metas ==> h.metas[x] != p)
    ensures var started := Next(max, h, Start(r, p));
      var recorded := Next(max, started, Record(r));
      var up := Next(max, recorded, Exec(p));
      && !Counts(recorded.procs, recorded.metas, r) && p !in Named(Counted(started.procs, started.metas, {}), started.metas)
      && r in Counted(up.procs, up.metas, but) && up.metas[r] == p
      && r !in Counted(Next(max, up, Dies(p)).procs, Next(max, up, Dies(p)).metas, but)
      && r !in Next(max, up, Kill(r, true)).metas && p !in Next(max, up, Kill(r, true)).procs
  {
    var started := Next(max, h, Start(r, p));
    assert CanStart(max, h, r, p);
    assert forall x :: x in started.metas ==> started.metas[x] != p;
  }

  /** Without a positive MaxLive a spawn is admitted whatever runs, and nothing is reserved. */
  lemma NoCapAdmitsAll(max: int, h: Host, r: Ref)
    requires max <= 0 && r !in h.reserved && r !in h.starting
    ensures CanAdmit(max, h, r) && Next(max, h, Admit(r)) == h
  {}

  /** A restart of the driver forgets its reservations, and neither the VMMs nor their records. */
  lemma RestartForgets(max: int, h: Host)
    ensures Next(max, h, DriverRestarts) == Host(h.procs, h.metas, {}, map[], 0)
  {}

  /** One VMM, seen. */
  function Single(r: Ref, p: Pid): Host { Host(map[p := Firecracker], map[r := p], {}, map[], 0) }

  /**
   * A VMM whose API socket never appears fails its spawn and lives on, and the
   * boot that follows overwrites its record: at MaxLive 1 there are two VMMs of
   * one ref, of which the first is unseen from the second's admission on.
   */
  lemma ReplacedVmmIsUncounted(r: Ref, p: Pid, q: Pid)
    requires p != q
    ensures var h := Next(1, Next(1, Single(r, p), Admit(r)), Commit(r, q));
      h.procs == map[p := Firecracker, q := Firecracker] && h.Load() == 2 && p in h.Unseen()
  {
    var one := Single(r, p);
    assert Counted(one.procs, one.metas, {r}) == {};
    var mid := one.(reserved := {r}, pending := 1);
    assert one.reserved + {r} == {r} && Next(1, one, Admit(r)) == mid;
    var two := Host(map[p := Firecracker, q := Firecracker], map[r := q], {}, map[], 0);
    assert mid.reserved - {r} == {} && Next(1, mid, Commit(r, q)) == two;
    assert two.procs.Keys == {p, q};
    assert p !in Named(Counted(two.procs, two.metas, two.reserved), two.metas);
  }

  // -------------------------------------------------------------- the driver

  /** admit gives up after ten minutes. */
  const PATIENCE: int := 600 * SECOND

  /** The driver's admission state: metas are the meta.json files, procs the processes as /proc shows them. */
  class Spawner {
    const maxLive: int
    var metas: map<Ref, Pid>
    var procs: map<Pid, Comm>
    var pendingSpawns: nat
    ghost var reserved: set<Ref>
    ghost var starting: map<Ref, Pid>

    ghost function View(): Host
      reads this
    {
      Host(procs, metas, reserved, starting, pendingSpawns)
    }

    constructor (maxLive: int)
      ensures this.maxLive == maxLive && View() == Fresh
    {
      this.maxLive := maxLive;
      metas, procs, pendingSpawns := map[], map[], 0;
      reserved, starting := {}, map[];
    }

    method CountLive(exclude: Ref) returns (n: nat)
      ensures n == |Counted(procs, metas, {exclude})|
    {
      n := 0;
      var todo := metas.Keys;
      ghost var counted: set<Ref> := {};
      while todo != {}
        invariant todo <= metas.Keys
        invariant forall r :: r in counted <==> r in metas && r !in todo && r != exclude && Counts(procs, metas, r)
        invariant n == |counted|
        decreases |todo|
      {
        var r :| r in todo;
        todo := todo - {r};
        if r == exclude { continue; }
        if metas[r] in procs && procs[metas[r]] == Firecracker {
          counted := counted + {r};
          n := n + 1;
        }
      }
      assert Counted(procs, metas, {exclude}) == counted;
    }

    /** One pass of admit's loop, under its lock; without a positive MaxLive nothing is counted. */
    method TryAdmit(ref: Ref) returns (admitted: bool)
      requires ref !in reserved && ref !in starting
      modifies this`pendingSpawns, this`reserved
      ensures View() == Next(maxLive, old(View()), Admit(ref))
      ensures admitted == CanAdmit(maxLive, old(View()), ref)
      ensures View() == if admitted then Admitted(maxLive, old(View()), ref) else old(View())
      ensures maxLive > 0 ==> admitted == (|Counted(procs, metas, {ref})| + old(pendingSpawns) < maxLive)
      ensures pendingSpawns == old(pendingSpawns) + (if maxLive > 0 && admitted then 1 else 0)
      ensures reserved == old(reserved) + (if maxLive > 0 && admitted then {ref} else {})
      ensures maxLive <= 0 ==> admitted
    {
      admitted := true;
      if maxLive > 0 {
        var live := CountLive(ref);
        admitted := live + pendingSpawns < maxLive;
        if admitted { pendingSpawns, reserved := pendingSpawns + 1, reserved + {ref}; }
      }
    }

    /**
     * admit: passes until one succeeds or the deadline has gone by. hosts[i] is
     * what the rest of the host has made of the state by pass i, and clock[i] the
     * time that pass ends at; by the last of them the time is up.
     */
    method AdmitOrWait(ref: Ref, start: int, clock: seq<int>, hosts: seq<Host>) returns (err: bool, n: nat)
      requires |hosts| == |clock| > 0 && hosts[0] == View() && clock[|clock| - 1] > start + PATIENCE
      requires forall i | 0 <= i < |hosts| :: ref !in hosts[i].reserved && ref !in hosts[i].starting
      modifies this
      ensures n < |hosts| && forall k | 0 <= k < n :: clock[k] <= start + PATIENCE && !CanAdmit(maxLive, hosts[k], ref)
      ensures err == !CanAdmit(maxLive, hosts[n], ref) && (err ==> clock[n] > start + PATIENCE)
      ensures View() == if err then hosts[n] else Admitted(maxLive, hosts[n], ref)
    {
      n := 0;
      while true
        invariant n < |hosts| && View() == hosts[n]
        invariant forall k | 0 <= k < n :: clock[k] <= start + PATIENCE && !CanAdmit(maxLive, hosts[k], ref)
        decreases |hosts| - n
      {
        var admitted := TryAdmit(ref);
        if admitted { return false, n; }
        if clock[n] > start + PATIENCE { return true, n; }
        n := n + 1;
        Become(hosts[n]);
      }
    }

    /** What others did meanwhile. */
    method Become(h: Host)
      modifies this
      ensures View() == h
    {
      procs, metas, pendingSpawns := h.procs, h.metas, h.pending;
      reserved, starting := h.reserved, h.starting;
    }

    method AdmitDone()
      modifies this`pendingSpawns
      ensures pendingSpawns == Done(old(pendingSpawns)) == Max(old(pendingSpawns) - 1, 0)
    {
      if pendingSpawns > 0 { pendingSpawns := pendingSpawns - 1; }
    }

    /** A spawn that fails before its process runs. */
    method FailSpawn(ref: Ref)
      requires maxLive > 0 ==> ref in reserved
      modifies this`pendingSpawns, this`reserved
      ensures View() == Next(maxLive, old(View()), SpawnFails(ref))
      ensures reserved == old(reserved) - {ref} && pendingSpawns == Max(old(pendingSpawns) - 1, 0)
    {
      AdmitDone();
      reserved := reserved - {ref};
    }

    /** The process is started, as ip, and the reservation goes. */
    method StartVmm(ref: Ref, pid: Pid)
      requires CanStart(maxLive, View(), ref, pid)
      modifies this`procs, this`pendingSpawns, this`reserved, this`starting
      ensures View() == Next(maxLive, old(View()), Start(ref, pid))
      ensures procs == old(procs)[pid := Ip] && starting == old(starting)[ref := pid] && metas == old(metas)
      ensures reserved == old(reserved) - {ref} && pendingSpawns == Max(old(pendingSpawns) - 1, 0)
    {
      procs := procs[pid := Ip];
      AdmitDone();
      reserved, starting := reserved - {ref}, starting[ref := pid];
    }

    /** The record that admission counts by; if it cannot be written, the VMM runs on uncounted. */
    method SaveMeta(ref: Ref, pid: Pid, ok: bool) returns (err: bool)
      requires ref in starting && starting[ref] == pid
      modifies this`metas, this`starting
      ensures View() == Next(maxLive, old(View()), if ok then Record(ref) else RecordFails(ref)) && err == !ok
      ensures metas == (if ok then old(metas)[ref := pid] else old(metas)) && starting == old(starting) - {ref}
    {
      if ok { metas := metas[ref := pid]; }
      starting, err := starting - {ref}, !ok;
    }

    method ProcessExecs(pid: Pid)
      requires pid in procs
      modifies this`procs
      ensures View() == Next(maxLive, old(View()), Exec(pid)) && procs == old(procs)[pid := Firecracker]
    {
      procs := procs[pid := Firecracker];
    }

    method ProcessDies(pid: Pid)
      requires pid in procs
      modifies this`procs
      ensures View() == Next(maxLive, old(View()), Dies(pid)) && procs == old(procs) - {pid} && metas == old(metas)
    {
      procs := procs - {pid};
    }

    /** kill: the record is cleared after a while, whether or not the process has gone. */
    method KillVmm(ref: Ref, works: bool)
      requires ref !in reserved && ref !in starting
      modifies this`procs, this`metas
      ensures View() == Next(maxLive, old(View()), Kill(ref, works)) && metas == old(metas) - {ref}
      ensures procs == if ref in old(metas) && works then old(procs) - {old(metas)[ref]} else old(procs)
    {
      if ref in metas && works { procs := procs - {metas[ref]}; }
      metas := metas - {ref};
    }
  }
}
