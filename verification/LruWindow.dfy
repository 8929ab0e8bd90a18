/**
 * From the selection of a tick's victims to their deletion: the projects are
 * backed up and deleted one after another, while the fleet goes on, and none is
 * looked at again.
 */
module LruWindow {
  import opened LruSelect

  type Fleet = map<string, Candidate>

  /** Used stamps the project's clock; Guards says whether one of its workloads now runs or is kept warm. */
  datatype Event = Used(id: string, at: int) | Guards(id: string, on: bool) | Evict(id: string, ok: bool)

  /** A victim whose backup and deletion go through is gone, whatever it does by now. */
  function Next(f: Fleet, e: Event): Fleet {
    match e
    case Used(id, at) => if id in f then f[id := f[id].(lastActive := at)] else f
    case Guards(id, on) => if id in f then f[id := f[id].(guarded := on)] else f
    case Evict(id, ok) => if ok then f - {id} else f
  }

  function Run(f: Fleet, es: seq<Event>): Fleet
    decreases |es|
  {
    if es == [] then f else Next(Run(f, es[..|es| - 1]), es[|es| - 1])
  }

  predicate Stamps(e: Event, id: string) { e.Used? && e.id == id }

  /** The last stamp of the project's clock is of a time within the minimum age. */
  ghost predicate UsedAgain(es: seq<Event>, id: string, age: Age) {
    exists i :: 0 <= i < |es| && Stamps(es[i], id) && age.now - es[i].at < age.minAge && forall j :: i < j < |es| ==> !Stamps(es[j], id)
  }

  /** The last word on whether the project is guarded was that it is. */
  ghost predicate GuardedAgain(es: seq<Event>, id: string) {
    exists i :: 0 <= i < |es| && es[i] == Guards(id, true) && forall j :: i < j < |es| ==> !(es[j].Guards? && es[j].id == id)
  }

  lemma GuardedMore(es: seq<Event>, id: string)
    requires es != []
    ensures var e := es[|es| - 1];
      GuardedAgain(es, id) == if e.Guards? && e.id == id then e.on else GuardedAgain(es[..|es| - 1], id)
  {
    var n := |es| - 1;
    var e, before := es[n], es[..n];
    if e.Guards? && e.id == id {
      assert e.on ==> es[n] == Guards(id, true);
    } else {
      if GuardedAgain(before, id) {
        var i :| 0 <= i < n && before[i] == Guards(id, true) && forall j :: i < j < n ==> !(before[j].Guards? && before[j].id == id);
        assert es[i] == Guards(id, true);
        forall j | i < j <= n ensures !(es[j].Guards? && es[j].id == id) { if j < n { assert before[j] == es[j]; } }
      }
      if GuardedAgain(es, id) {
        var i :| 0 <= i <= n && es[i] == Guards(id, true) && forall j :: i < j <= n ==> !(es[j].Guards? && es[j].id == id);
        assert before[i] == Guards(id, true);
      }
    }
  }

  lemma UsedMore(es: seq<Event>, id: string, age: Age)
    requires es != []
    ensures var e := es[|es| - 1];
      UsedAgain(es, id, age) == if Stamps(e, id) then age.now - e.at < age.minAge else UsedAgain(es[..|es| - 1], id, age)
  {
    var n := |es| - 1;
    var e, before := es[n], es[..n];
    if Stamps(e, id) {
      assert age.now - e.at < age.minAge ==> Stamps(es[n], id);
    } else {
      if UsedAgain(before, id, age) {
        var i :| 0 <= i < n && Stamps(before[i], id) && age.now - before[i].at < age.minAge && forall j :: i < j < n ==> !Stamps(before[j], id);
        assert Stamps(es[i], id);
        forall j | i < j <= n ensures !Stamps(es[j], id) { if j < n { assert before[j] == es[j]; } }
      }
      if UsedAgain(es, id, age) {
        var i :| 0 <= i <= n && Stamps(es[i], id) && age.now - es[i].at < age.minAge && forall j :: i < j <= n ==> !Stamps(es[j], id);
        assert Stamps(before[i], id);
      }
    }
  }

  /** What a project that has been there all along is by now. */
  lemma {:induction false} NowOf(f: Fleet, es: seq<Event>, id: string, age: Age)
    requires id in f && id in Run(f, es) && !f[id].guarded && age.now - f[id].lastActive >= age.minAge
    ensures Run(f, es)[id].guarded == GuardedAgain(es, id)
    ensures age.now - Run(f, es)[id].lastActive < age.minAge <==> UsedAgain(es, id, age)
    decreases |es|
  {
    if es != [] {
      NowOf(f, es[..|es| - 1], id, age);
      GuardedMore(es, id);
      UsedMore(es, id, age);
    }
  }

  /** The events of the eviction loop: what the fleet does before each victim's turn, and the turn. */
  function Turns(victims: seq<string>, between: seq<seq<Event>>, oks: seq<bool>): seq<Event>
    requires |victims| == |between| == |oks|
  {
    if victims == [] then []
    else
      var n := |victims| - 1;
      Turns(victims[..n], between[..n], oks[..n]) + between[n] + [Evict(victims[n], oks[n])]
  }

  lemma {:induction false} RunAppend(f: Fleet, a: seq<Event>, b: seq<Event>)
    ensures Run(f, a + b) == Run(Run(f, a), b)
    decreases |b|
  {
    if b == [] {
      assert a + b == a;
    } else {
      assert (a + b)[..|a + b| - 1] == a + b[..|b| - 1];
      RunAppend(f, a, b[..|b| - 1]);
    }
  }

  /** The tick's loop: a victim whose backup or deletion fails is passed over, and the next one has its turn. */
  method EvictVictims(f: Fleet, victims: seq<string>, between: seq<seq<Event>>, oks: seq<bool>) returns (after: Fleet)
    requires |victims| == |between| == |oks|
    ensures after == Run(f, Turns(victims, between, oks))
  {
    after := f;
    for n := 0 to |victims|
      invariant after == Run(f, Turns(victims[..n], between[..n], oks[..n]))
    {
      ghost var done := Turns(victims[..n], between[..n], oks[..n]);
      ghost var turn := [Evict(victims[n], oks[n])];
      assert victims[..n + 1][..n] == victims[..n] && between[..n + 1][..n] == between[..n] && oks[..n + 1][..n] == oks[..n];
      RunAppend(f, done, between[n]);
      RunAppend(f, done + between[n], turn);
      assert turn[..0] == [];
      after := Run(after, between[n]);
      if oks[n] { after := after - {victims[n]}; }
    }
    assert victims[..|victims|] == victims && between[..|victims|] == between && oks[..|victims|] == oks;
  }

  lemma {:induction false} GoneStaysGone(f: Fleet, es: seq<Event>, id: string)
    requires id !in f
    ensures id !in Run(f, es)
    decreases |es|
  {
    if es != [] { GoneStaysGone(f, es[..|es| - 1], id); }
  }

  /** Up to the turn of victim n. */
  function UpTo(victims: seq<string>, between: seq<seq<Event>>, oks: seq<bool>, n: nat): seq<Event>
    requires |victims| == |between| == |oks| && n < |victims|
  {
    Turns(victims[..n], between[..n], oks[..n]) + between[n]
  }

  /** A victim whose backup and deletion went through is gone when the loop ends. */
  lemma {:induction false} VictimsGo(f: Fleet, victims: seq<string>, between: seq<seq<Event>>, oks: seq<bool>, n: nat)
    requires |victims| == |between| == |oks| && n < |victims| && oks[n]
    ensures victims[n] !in Run(f, Turns(victims, between, oks))
    decreases |victims|
  {
    var last := |victims| - 1;
    var pre := Turns(victims[..last], between[..last], oks[..last]);
    var turn := [Evict(victims[last], oks[last])];
    RunAppend(f, pre + between[last], turn);
    assert turn[..0] == [];
    if n < last {
      VictimsGo(f, victims[..last], between[..last], oks[..last], n);
      RunAppend(f, pre, between[last]);
      GoneStaysGone(Run(f, pre), between[last], victims[n]);
    }
  }

  /** A run for every project that was ever selected: it wakes on a request, and is deleted while it serves it. */
  lemma EvictedInUse(f: Fleet, id: string, selected: Age)
    requires id in f && selected.Evicts(f[id]) && selected.minAge > 0
    ensures var es := [Used(id, selected.now), Guards(id, true)];
      id in Run(f, es) && !selected.Evicts(Run(f, es)[id]) && id !in Run(f, es + [Evict(id, true)])
  {
    var es := [Used(id, selected.now), Guards(id, true)];
    assert es[..1] == [Used(id, selected.now)] && es[..1][..0] == [];
    assert Run(f, es[..1]) == f[id := f[id].(lastActive := selected.now)];
    assert (es + [Evict(id, true)])[..2] == es;
  }

  /**
   * The exact condition: when its turn comes a victim is guarded, or was active
   * within the minimum age, if and only if since the selection it was last
   * guarded, or its clock last stamped within that age. It is gone all the same.
   */
  lemma EvictedInUseIff(f: Fleet, victims: seq<string>, between: seq<seq<Event>>, oks: seq<bool>, n: nat, selected: Age, now: int)
    requires |victims| == |between| == |oks| && n < |victims| && selected.now <= now
    requires victims[n] in f && selected.Evicts(f[victims[n]]) && victims[n] in Run(f, UpTo(victims, between, oks, n))
    ensures var id, es, age := victims[n], UpTo(victims, between, oks, n), Age(selected.minAge, now);
      !age.Evicts(Run(f, es)[id]) <==> GuardedAgain(es, id) || UsedAgain(es, id, age)
    ensures oks[n] ==> victims[n] !in Run(f, Turns(victims, between, oks))
  {
    NowOf(f, UpTo(victims, between, oks, n), victims[n], Age(selected.minAge, now));
    if oks[n] { VictimsGo(f, victims, between, oks, n); }
  }
}
