/**
 * The idle reaper: live entries with the instant they were last used, and a grace
 * map for workloads that run without one, as all do after orchd restarts. What a
 * pass selects is looked at once, then waits for its turn, and is suspended
 * without another look.
 */
module Reaper {
  import opened Common

  type Id = string

  datatype State = Absent | Running | Stopped

  /** Listed by a pass, or past its look at keep-warm and waiting for a slot and the workload's lock. */
  datatype Queue = Out | Listed | Queued

  /** What the reaper knows of one workload: its live entry's last use, since when it is unowned, its record, and its place in the pass. */
  datatype Entry = Entry(lastSeen: Option<int>, unowned: Option<int>, state: State, keepWarm: bool, queue: Queue)
  {
    predicate Kept() { !state.Absent? && keepWarm }
  }

  /**
   * Restart is a restart of orchd: instances survive it, both maps and the pass do
   * not. Recorded is any write of the workload's record, SetKeepWarm's among them.
   */
  datatype Event = MarkLive | Touch | Forget | Restart | Pass | Look | Suspend(ok: bool) | Recorded(state: State, keepWarm: bool)

  datatype Timed = Timed(event: Event, at: int)

  function Expired(since: Option<int>, now: int, timeout: int): bool {
    since.Some? && now - since.value > timeout
  }

  /** A pass puts the workload on its stale list. */
  predicate Selects(e: Entry, now: int, timeout: int) {
    timeout > 0
    && if e.lastSeen.Some? then Expired(e.lastSeen, now, timeout)
       else e.state.Running? && Expired(e.unowned, now, timeout)
  }

  /** The look, if it came at once, would go on to suspend it. */
  predicate Suspends(e: Entry, now: int, timeout: int) {
    Selects(e, now, timeout) && !e.Kept()
  }

  /** The grace map's entry after a pass. */
  function Grace(e: Entry, now: int, timeout: int): Option<int> {
    if timeout <= 0 || e.state.Absent? then e.unowned
    else if !e.state.Running? || e.lastSeen.Some? then None
    else if e.unowned.None? then Some(now)
    else if Expired(e.unowned, now, timeout) then None
    else e.unowned
  }

  /** A pass starts only when every suspend of the one before is done. */
  function Next(e: Entry, t: Timed, timeout: int): Entry {
    match t.event
    case MarkLive => e.(lastSeen := Some(t.at), unowned := None)
    case Touch => if e.lastSeen.Some? then e.(lastSeen := Some(t.at)) else e
    case Forget => e.(lastSeen := None)
    case Restart => e.(lastSeen := None, unowned := None, queue := Out)
    case Pass => if e.queue.Out? then Passed(e, t.at, timeout) else e
    case Look => if e.queue.Listed? then e.(queue := if e.Kept() then Out else Queued) else e
    case Suspend(ok) => if e.queue.Queued? then Suspended(e, ok) else e
    case Recorded(state, keepWarm) => e.(state := state, keepWarm := keepWarm)
  }

  /** What the two loops of a pass leave, before anything is done with the stale list. */
  function Noted(e: Entry, now: int, timeout: int): Entry { e.(unowned := Grace(e, now, timeout)) }

  function Passed(e: Entry, now: int, timeout: int): Entry {
    Noted(e, now, timeout).(queue := if Selects(e, now, timeout) then Listed else Out)
  }

  /** Whatever has come between: no second look. A suspend that works leaves no live entry. */
  function Suspended(e: Entry, ok: bool): Entry {
    if ok then e.(queue := Out, lastSeen := None, state := if e.state.Absent? then Absent else Stopped)
    else e.(queue := Out)
  }

  const NEW := Entry(None, None, Absent, false, Out)

  function Run(trace: seq<Timed>, timeout: int): Entry {
    if trace == [] then NEW else Next(Run(trace[..|trace| - 1], timeout), trace[|trace| - 1], timeout)
  }

  predicate InOrder(trace: seq<Timed>) {
    forall i, j :: 0 <= i < j < |trace| ==> trace[i].at <= trace[j].at
  }

  predicate IsUse(t: Timed) { t.event.MarkLive? || t.event.Touch? }

  // -------------------------------------------------------------- never too soon

  /** With a live entry, its last use is the latest use there was. */
  lemma {:induction false} LastSeenIsLastUse(trace: seq<Timed>, timeout: int)
    requires InOrder(trace)
    ensures var e := Run(trace, timeout);
      e.lastSeen.Some? ==> forall i :: 0 <= i < |trace| && IsUse(trace[i]) ==> trace[i].at <= e.lastSeen.value
    ensures var e := Run(trace, timeout);
      e.lastSeen.Some? ==> exists i :: 0 <= i < |trace| && IsUse(trace[i]) && trace[i].at == e.lastSeen.value
  {
    if trace != [] {
      var before := trace[..|trace| - 1];
      LastSeenIsLastUse(before, timeout);
      var was, e := Run(before, timeout), Run(trace, timeout);
      if e.lastSeen.Some? {
        if IsUse(trace[|trace| - 1]) {
          assert e.lastSeen.value == trace[|trace| - 1].at;
        } else {
          var i :| 0 <= i < |before| && IsUse(before[i]) && before[i].at == was.lastSeen.value;
          assert trace[i] == before[i];
        }
      }
    }
  }

  /** The k-th event is a pass that saw the workload running without a live entry, as it has been ever since. */
  ghost predicate Noticed(trace: seq<Timed>, k: int, timeout: int) {
    0 <= k < |trace| && trace[k].event.Pass?
    && Run(trace[..k], timeout).state.Running?
    && forall j :: k <= j <= |trace| ==> Run(trace[..j], timeout).lastSeen.None?
  }

  lemma {:induction false} UnownedWasNoticed(trace: seq<Timed>, timeout: int) returns (k: int)
    requires Run(trace, timeout).unowned.Some?
    ensures Run(trace, timeout).lastSeen.None?
    ensures Noticed(trace, k, timeout) && trace[k].at == Run(trace, timeout).unowned.value
  {
    var n := |trace| - 1;
    var before := trace[..n];
    var was := Run(before, timeout);
    assert trace[..|trace|] == trace;
    if was.unowned == Run(trace, timeout).unowned {
      k := UnownedWasNoticed(before, timeout);
      assert before[..k] == trace[..k];
      forall j | k <= j <= |trace| ensures Run(trace[..j], timeout).lastSeen.None? {
        if j <= n { assert before[..j] == trace[..j]; }
      }
    } else {
      k := n;
    }
  }

  /**
   * A pass selects a workload only after more than the idle timeout without a
   * use, or when it has run without a live entry ever since an earlier pass,
   * more than the timeout ago, noticed it.
   */
  lemma NeverTooSoon(trace: seq<Timed>, now: int, timeout: int)
    requires InOrder(trace) && Selects(Run(trace, timeout), now, timeout)
    ensures var e := Run(trace, timeout);
      if e.lastSeen.Some? then forall i :: 0 <= i < |trace| && IsUse(trace[i]) ==> now - trace[i].at > timeout
      else e.state.Running? && exists k :: Noticed(trace, k, timeout) && now - trace[k].at > timeout
  {
    LastSeenIsLastUse(trace, timeout);
    if Run(trace, timeout).lastSeen.None? { var k := UnownedWasNoticed(trace, timeout); }
  }

  lemma {:induction false} ClocksRestart(trace: seq<Timed>, k: int, timeout: int)
    requires InOrder(trace) && 0 <= k < |trace| && trace[k].event.Restart?
    ensures var e := Run(trace, timeout);
      && (e.lastSeen.Some? ==> e.lastSeen.value >= trace[k].at)
      && (e.unowned.Some? ==> e.unowned.value >= trace[k].at)
  {
    if k < |trace| - 1 { ClocksRestart(trace[..|trace| - 1], k, timeout); }
  }

  /** A restart forgets the pass it cut short: what had been selected or looked at is not suspended. */
  lemma RestartEndsThePass(trace: seq<Timed>, now: int, ok: bool, timeout: int)
    ensures var after := trace + [Timed(Restart, now)];
      && Run(after, timeout) == Entry(None, None, Run(trace, timeout).state, Run(trace, timeout).keepWarm, Out)
      && Run(after + [Timed(Suspend(ok), now)], timeout) == Run(after, timeout)
  {
    var after := trace + [Timed(Restart, now)];
    assert after[..|trace|] == trace;
    assert (after + [Timed(Suspend(ok), now)])[..|after|] == after;
  }

  /** A restart of orchd gives every instance that survived it a full idle interval of grace. */
  lemma RestartGivesGrace(trace: seq<Timed>, k: int, now: int, timeout: int)
    requires InOrder(trace) && 0 <= k < |trace| && trace[k].event.Restart?
    requires Selects(Run(trace, timeout), now, timeout)
    ensures now - trace[k].at > timeout
  {
    ClocksRestart(trace, k, timeout);
  }

  // -------------------------------------------------------------- never too late

  /** The state each pass of an untouched workload finds. */
  function Passes(e: Entry, times: seq<int>, timeout: int): Entry {
    if times == [] then e else Next(Passes(e, times[..|times| - 1], timeout), Timed(Pass, times[|times| - 1]), timeout)
  }

  function Before(times: seq<int>, start: int, i: nat): int
    requires i < |times|
  {
    if i == 0 then start else times[i - 1]
  }

  /** Passes from start on: the first comes within g, and each within g of the one before. */
  predicate Regular(times: seq<int>, start: int, g: int) {
    forall i :: 0 <= i < |times| ==> Before(times, start, i) <= times[i] <= Before(times, start, i) + g
  }

  ghost predicate SelectedBy(e: Entry, times: seq<int>, timeout: int, deadline: int) {
    exists i :: 0 <= i < |times| && times[i] <= deadline && Selects(Passes(e, times[..i], timeout), times[i], timeout)
  }

  /** Until one is selected, passes leave a live entry alone and note an unowned workload once. */
  lemma {:induction false} PassesMeanwhile(e: Entry, times: seq<int>, timeout: int)
    requires timeout > 0 && e.state.Running? && e.queue.Out?
    requires forall i :: 0 <= i < |times| ==> !Selects(Passes(e, times[..i], timeout), times[i], timeout)
    ensures var p := Passes(e, times, timeout);
      && p.lastSeen == e.lastSeen && p.state == e.state && p.queue == Out
      && (times != [] && e.lastSeen.None? ==> p.unowned == if e.unowned.Some? then e.unowned else Some(times[0]))
  {
    if times != [] {
      var n := |times| - 1;
      forall i | 0 <= i < n
        ensures !Selects(Passes(e, times[..n][..i], timeout), times[..n][i], timeout)
      {
        assert times[..n][..i] == times[..i];
      }
      PassesMeanwhile(e, times[..n], timeout);
      assert !Selects(Passes(e, times[..n], timeout), times[n], timeout);
    }
  }

  lemma {:induction false} FirstAfter(times: seq<int>, start: int, g: int, t: int, n: nat) returns (i: nat)
    requires Regular(times, start, g) && n < |times| && start <= t < times[n]
    ensures i < |times| && t < times[i] <= t + g
  {
    assert Before(times, start, n) <= times[n] <= Before(times, start, n) + g;
    if n > 0 && times[n - 1] > t { i := FirstAfter(times, start, g, t, n - 1); } else { i := n; }
  }

  /**
   * With passes at most g apart, a running workload nobody uses is selected
   * within the timeout and two more intervals, with a live entry or without.
   */
  lemma NeverTooLate(e: Entry, times: seq<int>, start: int, g: int, timeout: int)
    requires timeout > 0 && e.state.Running? && e.queue.Out? && Regular(times, start, g)
    requires e.lastSeen.Some? ==> e.lastSeen.value <= start
    requires e.unowned.Some? ==> e.unowned.value <= start
    requires times != [] && times[|times| - 1] > start + timeout + g
    ensures SelectedBy(e, times, timeout, start + timeout + if e.lastSeen.Some? then g else 2 * g)
  {
    var since := if e.lastSeen.Some? then e.lastSeen.value else if e.unowned.Some? then e.unowned.value else times[0];
    var due := if since < start then start + timeout else since + timeout;
    assert Before(times, start, 0) <= times[0] <= Before(times, start, 0) + g;
    var i := FirstAfter(times, start, g, due, |times| - 1);
    assert times[i] <= start + timeout + if e.lastSeen.Some? then g else 2 * g;
    if forall k :: 0 <= k < i ==> !Selects(Passes(e, times[..k], timeout), times[k], timeout) {
      forall k | 0 <= k < i ensures !Selects(Passes(e, times[..i][..k], timeout), times[..i][k], timeout) {
        assert times[..i][..k] == times[..k];
      }
      PassesMeanwhile(e, times[..i], timeout);
      FirstIsNotAfter(times, start, g, i, due);
      assert Selects(Passes(e, times[..i], timeout), times[i], timeout);
    } else {
      var k :| 0 <= k < i && Selects(Passes(e, times[..k], timeout), times[k], timeout);
      Increasing(times, start, g, k, i);
    }
  }

  lemma {:induction false} Increasing(times: seq<int>, start: int, g: int, i: nat, j: nat)
    requires Regular(times, start, g) && i <= j < |times|
    ensures times[i] <= times[j]
    decreases j
  {
    assert Before(times, start, j) <= times[j];
    if i < j { Increasing(times, start, g, i, j - 1); }
  }

  lemma FirstIsNotAfter(times: seq<int>, start: int, g: int, i: nat, due: int)
    requires Regular(times, start, g) && i < |times| && times[i] > due
    ensures times[0] <= due ==> i > 0
  {}

  // ---------------------------------------------------------- between pass and suspend

  /** The i-th event put the workload's last use at its own instant. */
  predicate Uses(trace: seq<Timed>, i: int, timeout: int)
    requires 0 <= i < |trace|
  {
    trace[i].event.MarkLive? || (trace[i].event.Touch? && Run(trace[..i], timeout).lastSeen.Some?)
  }

  ghost predicate UsedWithin(trace: seq<Timed>, from: int, now: int, timeout: int) {
    exists i :: 0 <= i < |trace| && from <= i && Uses(trace, i, timeout) && now - trace[i].at <= timeout
  }

  /** From some event on, a write of the record made the workload keep-warm, and none came after it. */
  ghost predicate KeptSince(trace: seq<Timed>, from: int) {
    exists i :: 0 <= i < |trace| && from <= i && WarmWrite(trace[i]) && forall j :: i < j < |trace| ==> !trace[j].event.Recorded?
  }

  predicate WarmWrite(t: Timed) { t.event.Recorded? && !t.event.state.Absent? && t.event.keepWarm }

  /** The k-th event is the pass that selected the workload and the l-th the look that let it through. */
  ghost predicate Chosen(trace: seq<Timed>, k: int, l: int, timeout: int) {
    && 0 <= k < l < |trace| && trace[k].event.Pass? && trace[l].event.Look?
    && Run(trace[..k], timeout).queue.Out? && Selects(Run(trace[..k], timeout), trace[k].at, timeout)
    && !Run(trace[..l], timeout).Kept()
    && (forall j :: k < j <= l ==> Run(trace[..j], timeout).queue.Listed?)
    && (forall j :: l < j <= |trace| ==> Run(trace[..j], timeout).queue.Queued?)
  }

  lemma {:induction false} ListedWasSelected(trace: seq<Timed>, timeout: int) returns (k: int)
    requires Run(trace, timeout).queue.Listed?
    ensures 0 <= k < |trace| && trace[k].event.Pass?
    ensures Run(trace[..k], timeout).queue.Out? && Selects(Run(trace[..k], timeout), trace[k].at, timeout)
    ensures forall j :: k < j <= |trace| ==> Run(trace[..j], timeout).queue.Listed?
  {
    var n := |trace| - 1;
    var before := trace[..n];
    assert trace[..|trace|] == trace;
    if Run(before, timeout).queue.Listed? {
      k := ListedWasSelected(before, timeout);
      assert before[..k] == trace[..k];
      forall j | k < j <= |trace| ensures Run(trace[..j], timeout).queue.Listed? {
        if j <= n { assert before[..j] == trace[..j]; }
      }
    } else {
      k := n;
    }
  }

  /** Whatever is about to be suspended was selected by a pass and was not keep-warm at its look. */
  lemma {:induction false} QueuedWasChosen(trace: seq<Timed>, timeout: int) returns (k: int, l: int)
    requires Run(trace, timeout).queue.Queued?
    ensures Chosen(trace, k, l, timeout)
  {
    var n := |trace| - 1;
    var before := trace[..n];
    assert trace[..|trace|] == trace;
    if Run(before, timeout).queue.Queued? {
      k, l := QueuedWasChosen(before, timeout);
      assert before[..k] == trace[..k] && before[..l] == trace[..l];
      forall j | k < j <= |trace|
        ensures if j <= l then Run(trace[..j], timeout).queue.Listed? else Run(trace[..j], timeout).queue.Queued?
      {
        if j <= n { assert before[..j] == trace[..j]; }
      }
    } else {
      k := ListedWasSelected(before, timeout);
      l := n;
      assert before[..k] == trace[..k];
      forall j | k < j <= l ensures Run(trace[..j], timeout).queue.Listed? { assert before[..j] == trace[..j]; }
    }
  }

  /** At its pass, a selected workload has had no use for longer than the timeout. */
  lemma NoUseBefore(trace: seq<Timed>, k: int, i: int, timeout: int)
    requires InOrder(trace) && 0 <= i < k < |trace| && Uses(trace, i, timeout)
    requires Selects(Run(trace[..k], timeout), trace[k].at, timeout)
    ensures trace[k].at - trace[i].at > timeout
  {
    var before := trace[..k];
    NeverTooSoon(before, trace[k].at, timeout);
    assert before[..i] == trace[..i] && before[i] == trace[i];
    if Run(before, timeout).lastSeen.None? {
      var m :| Noticed(before, m, timeout) && trace[k].at - before[m].at > timeout;
      UseLeavesLive(before, i, timeout);
      assert i < m;
    }
  }

  lemma UseLeavesLive(trace: seq<Timed>, i: int, timeout: int)
    requires 0 <= i < |trace| && Uses(trace, i, timeout)
    ensures Run(trace[..i + 1], timeout).lastSeen.Some?
  {
    assert trace[..i + 1][..i] == trace[..i];
  }

  /** From its look to its suspend only a write of the record makes it keep-warm. */
  lemma {:induction false} KeptIffWritten(trace: seq<Timed>, l: int, timeout: int)
    requires 0 <= l < |trace| && trace[l].event.Look? && !Run(trace[..l], timeout).Kept()
    requires forall j :: l < j <= |trace| ==> Run(trace[..j], timeout).queue.Queued?
    ensures Run(trace, timeout).Kept() <==> KeptSince(trace, l + 1)
  {
    var n := |trace| - 1;
    var before, last := trace[..n], trace[n];
    assert trace[..|trace|] == trace;
    if l < n {
      forall j | l < j <= n ensures Run(before[..j], timeout).queue.Queued? { assert before[..j] == trace[..j]; }
      assert before[..l] == trace[..l];
      KeptIffWritten(before, l, timeout);
      if last.event.Recorded? {
        assert WarmWrite(last) ==> KeptSince(trace, l + 1);
      } else {
        assert Run(trace, timeout).Kept() == Run(before, timeout).Kept();
        KeptSinceMore(trace, l + 1);
      }
    }
  }

  lemma KeptSinceMore(trace: seq<Timed>, from: int)
    requires trace != [] && !trace[|trace| - 1].event.Recorded?
    ensures KeptSince(trace, from) == KeptSince(trace[..|trace| - 1], from)
  {
    var n := |trace| - 1;
    var before := trace[..n];
    if KeptSince(before, from) {
      var i :| 0 <= i < n && from <= i && WarmWrite(before[i]) && forall j :: i < j < n ==> !before[j].event.Recorded?;
      forall j | i < j <= n ensures !trace[j].event.Recorded? { if j < n { assert before[j] == trace[j]; } }
      assert WarmWrite(trace[i]);
    }
    if KeptSince(trace, from) {
      var i :| 0 <= i <= n && from <= i && WarmWrite(trace[i]) && forall j :: i < j <= n ==> !trace[j].event.Recorded?;
      assert WarmWrite(before[i]);
    }
  }

  /** What a suspend should spare: a workload used within the timeout, and a keep-warm one. */
  ghost predicate InNeed(trace: seq<Timed>, now: int, timeout: int) {
    UsedWithin(trace, 0, now, timeout) || Run(trace, timeout).Kept()
  }

  /**
   * A workload about to be suspended was used within the timeout, or is
   * keep-warm, if and only if it was used again after its pass, or made
   * keep-warm after its look: the suspend looks at neither.
   */
  lemma WrongSuspendIff(trace: seq<Timed>, k: int, l: int, now: int, timeout: int)
    requires InOrder(trace) && Chosen(trace, k, l, timeout) && now >= trace[|trace| - 1].at
    ensures UsedWithin(trace, 0, now, timeout) <==> UsedWithin(trace, k + 1, now, timeout)
    ensures Run(trace, timeout).Kept() <==> KeptSince(trace, l + 1)
    ensures InNeed(trace, now, timeout) <==> UsedWithin(trace, k + 1, now, timeout) || KeptSince(trace, l + 1)
  {
    KeptIffWritten(trace, l, timeout);
    if UsedWithin(trace, 0, now, timeout) {
      var i :| 0 <= i < |trace| && Uses(trace, i, timeout) && now - trace[i].at <= timeout;
      if i < k { NoUseBefore(trace, k, i, timeout); }
      assert i > k;
    }
  }

  /** What a suspend that works does to it, whatever came in between. */
  lemma SuspendedAllTheSame(trace: seq<Timed>, now: int, timeout: int)
    requires Run(trace, timeout).queue.Queued?
    ensures var e := Run(trace + [Timed(Suspend(true), now)], timeout); !e.state.Running? && e.lastSeen.None?
  {
    assert (trace + [Timed(Suspend(true), now)])[..|trace|] == trace;
  }

  /** A running workload, last used at 0, selected and looked at just after the timeout. */
  function Waiting(timeout: nat): seq<Timed> {
    [Timed(Recorded(Running, false), 0), Timed(MarkLive, 0), Timed(Pass, timeout + 1), Timed(Look, timeout + 1)]
  }

  lemma IsWaiting(timeout: nat)
    requires timeout > 0
    ensures Run(Waiting(timeout), timeout) == Entry(Some(0), None, Running, false, Queued)
  {
    var t := Waiting(timeout);
    assert t[..3][..2] == t[..2] && t[..2][..1] == t[..1] && t[..1][..0] == [];
    assert Run(t[..1], timeout) == Entry(None, None, Running, false, Out);
    assert Run(t[..2], timeout) == Entry(Some(0), None, Running, false, Out);
    assert Run(t[..3], timeout) == Entry(Some(0), None, Running, false, Listed);
  }

  /** A workload that waits behind others is used again, or made keep-warm, and is suspended all the same. */
  lemma InNeedIsSuspended(timeout: nat, warm: bool)
    requires timeout > 0
    ensures var e := if warm then Recorded(Running, true) else Touch;
      var t := Waiting(timeout) + [Timed(e, timeout + 2)];
      && InOrder(t) && InNeed(t, timeout + 3, timeout)
      && !Run(t + [Timed(Suspend(true), timeout + 3)], timeout).state.Running?
  {
    IsWaiting(timeout);
    var e := if warm then Recorded(Running, true) else Touch;
    var t := Waiting(timeout) + [Timed(e, timeout + 2)];
    assert t[..4] == Waiting(timeout);
    assert Run(t, timeout).queue.Queued?;
    if !warm { assert Uses(t, 4, timeout); }
    SuspendedAllTheSame(t, timeout + 3, timeout);
  }

  // ------------------------------------------------------------------ the reaper

  datatype Record = Record(running: bool, keepWarm: bool)

  datatype Live = Live(addr: string, lastSeen: int, startedAt: int)

  class Manager {
    const idleTimeout: int
    var live: map<Id, Live>
    var unowned: map<Id, int>
    var workloads: map<Id, Record>
    // the stale list of a pass, as far as it has not been looked at, and what waits to be suspended
    var listed: set<Id>
    var queued: set<Id>

    constructor (idleTimeout: int)
      ensures this.idleTimeout == idleTimeout && forall id :: Of(id) == NEW
    {
      this.idleTimeout, live, unowned, workloads := idleTimeout, map[], map[], map[];
      listed, queued := {}, {};
    }

    ghost function Of(id: Id): Entry
      reads this
    {
      Entry(if id in live then Some(live[id].lastSeen) else None,
            if id in unowned then Some(unowned[id]) else None,
            if id !in workloads then Absent else if workloads[id].running then Running else Stopped,
            id in workloads && workloads[id].keepWarm,
            if id in queued then Queued else if id in listed then Listed else Out)
    }

    method MarkLive(id: Id, addr: string, now: int)
      modifies this`live, this`unowned
      ensures live == old(live)[id := Live(addr, now, now)]
      ensures forall x :: Of(x) == if x == id then Next(old(Of(x)), Timed(Event.MarkLive, now), idleTimeout) else old(Of(x))
    {
      live := live[id := Live(addr, now, now)];
      unowned := unowned - {id};
    }

    method Forget(id: Id, now: int)
      modifies this`live
      ensures live == old(live) - {id}
      ensures forall x :: Of(x) == if x == id then Next(old(Of(x)), Timed(Event.Forget, now), idleTimeout) else old(Of(x))
    {
      live := live - {id};
    }

    method Touch(id: Id, now: int)
      modifies this`live
      ensures forall x :: Of(x) == if x == id then Next(old(Of(x)), Timed(Event.Touch, now), idleTimeout) else old(Of(x))
      ensures live.Keys == old(live).Keys
      ensures id in live ==> live[id] == old(live)[id].(lastSeen := now)
    {
      if id in live { live := live[id := live[id].(lastSeen := now)]; }
    }

    /** One workload's part in the second loop of a pass. */
    method Note(id: Id, now: int) returns (expired: bool)
      requires id in workloads && idleTimeout > 0
      modifies this`unowned
      ensures expired == (old(Of(id)).lastSeen.None? && Selects(old(Of(id)), now, idleTimeout))
      ensures forall x :: Of(x) == if x == id then Noted(old(Of(x)), now, idleTimeout) else old(Of(x))
      ensures expired <==>
        id !in live && workloads[id].running && id in old(unowned) && now - old(unowned)[id] > idleTimeout
      ensures id in unowned <==> id !in live && workloads[id].running && !expired
      ensures id in unowned ==> unowned[id] == if id in old(unowned) then old(unowned)[id] else now
    {
      expired := false;
      if !workloads[id].running || id in live {
        unowned := unowned - {id};
      } else if id !in unowned {
        unowned := unowned[id := now];
      } else if now - unowned[id] > idleTimeout {
        unowned := unowned - {id};
        expired := true;
      }
    }

    /** The first loop of a pass: the live entries not used for longer than the timeout. */
    method IdleLive(now: int) returns (stale: seq<Id>)
      ensures forall id :: id in stale <==> id in live && now - live[id].lastSeen > idleTimeout
      ensures forall i, j :: 0 <= i < j < |stale| ==> stale[i] != stale[j]
    {
      stale := [];
      var rest := live.Keys;
      while rest != {}
        invariant rest <= live.Keys
        invariant forall id :: id in stale <==> id in live.Keys - rest && now - live[id].lastSeen > idleTimeout
        invariant forall i, j :: 0 <= i < j < |stale| ==> stale[i] != stale[j]
        decreases |rest|
      {
        var id :| id in rest;
        rest := rest - {id};
        if now - live[id].lastSeen > idleTimeout { stale := stale + [id]; }
      }
    }

    /** Both loops, under the manager's lock: the stale list, and the grace map brought up to date. */
    method Stale(now: int) returns (stale: seq<Id>)
      requires idleTimeout > 0
      modifies this`unowned
      ensures forall id :: id in stale <==> Selects(old(Of(id)), now, idleTimeout)
      ensures forall i, j :: 0 <= i < j < |stale| ==> stale[i] != stale[j]
      ensures forall id :: Of(id) == Noted(old(Of(id)), now, idleTimeout)
    {
      stale := IdleLive(now);
      var rest := workloads.Keys;
      while rest != {}
        invariant rest <= workloads.Keys
        invariant forall id :: (id in stale) == (Selects(old(Of(id)), now, idleTimeout) && (id !in rest || id in live))
        invariant forall i, j :: 0 <= i < j < |stale| ==> stale[i] != stale[j]
        invariant forall id :: Of(id) == if id in rest then old(Of(id)) else Noted(old(Of(id)), now, idleTimeout)
        decreases |rest|
      {
        var id :| id in rest;
        rest := rest - {id};
        assert Of(id) == old(Of(id));
        var expired := Note(id, now);
        if expired { stale := stale + [id]; }
      }
    }

    /** A pass: everything selected is listed, then looked at, and what is not kept warm is queued to be suspended. */
    method ReapIdle(now: int)
      requires listed == {} && queued == {}
      modifies this`unowned, this`listed, this`queued
      ensures listed == {} && forall id :: id in queued <==> Suspends(old(Of(id)), now, idleTimeout)
      ensures forall id :: id in queued <==>
        && idleTimeout > 0 && !(id in workloads && workloads[id].keepWarm)
        && if id in live then now - live[id].lastSeen > idleTimeout
           else id in workloads && workloads[id].running && id in old(unowned) && now - old(unowned)[id] > idleTimeout
      ensures idleTimeout <= 0 ==> unowned == old(unowned)
      ensures forall id :: Of(id) == Next(Next(old(Of(id)), Timed(Pass, now), idleTimeout), Timed(Event.Look, now), idleTimeout)
    {
      if idleTimeout <= 0 { return; }
      var stale := Stale(now);
      listed := set id | id in stale;
      LookAtAll(stale);
    }

    method LookAtAll(stale: seq<Id>)
      requires listed == (set id | id in stale) && queued == {}
      requires forall i, j :: 0 <= i < j < |stale| ==> stale[i] != stale[j]
      modifies this`listed, this`queued
      ensures listed == {} && forall id :: id in queued <==> id in stale && !Of(id).Kept()
    {
      for n := 0 to |stale|
        invariant forall id :: id in listed <==> id in stale[n..]
        invariant forall id :: id in queued <==> id in stale[..n] && !Of(id).Kept()
      {
        Look(stale[n]);
        assert stale[n] !in stale[n + 1..];
      }
    }

    /** Keep-warm is read here, and never again before the suspend. */
    method Look(id: Id)
      requires id in listed && id !in queued
      modifies this`listed, this`queued
      ensures listed == old(listed) - {id} && queued == if old(Of(id)).Kept() then old(queued) else old(queued) + {id}
      ensures forall x :: Of(x) == if x == id then Next(old(Of(x)), Timed(Event.Look, 0), idleTimeout) else old(Of(x))
    {
      listed := listed - {id};
      if id in workloads && workloads[id].keepWarm { return; }
      queued := queued + {id};
    }

    /** The goroutine, once it has a slot and the workload's lock; ok is what the driver's Suspend answered. */
    method SuspendQueued(id: Id, ok: bool, now: int)
      requires id in queued && id !in listed
      modifies this`queued, this`workloads, this`live
      ensures queued == old(queued) - {id}
      ensures !ok ==> live == old(live) && workloads == old(workloads)
      ensures ok ==> live == old(live) - {id} && workloads.Keys == old(workloads).Keys
      ensures ok ==> forall x :: x in workloads ==>
        workloads[x] == if x == id then Record(false, old(workloads)[x].keepWarm) else old(workloads)[x]
      ensures forall x :: Of(x) == if x == id then Next(old(Of(x)), Timed(Suspend(ok), now), idleTimeout) else old(Of(x))
    {
      queued := queued - {id};
      if ok {
        if id in workloads { workloads := workloads[id := workloads[id].(running := false)]; }
        live := live - {id};
      }
    }

    /** SetKeepWarm's write of the record, which waits for neither the reaper nor the workload's lock. */
    method SetKeepWarm(id: Id, enabled: bool, now: int) returns (err: bool)
      modifies this`workloads
      ensures err == (id !in old(workloads)) && (err ==> workloads == old(workloads))
      ensures !err ==> workloads == old(workloads)[id := Record(old(workloads)[id].running, enabled)]
      ensures forall x :: Of(x) == if x == id && !err then Next(old(Of(x)), Timed(Recorded(old(Of(x)).state, enabled), now), idleTimeout) else old(Of(x))
    {
      err := id !in workloads;
      if !err { workloads := workloads[id := workloads[id].(keepWarm := enabled)]; }
    }
  }
}
