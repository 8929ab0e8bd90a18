/**
 * The meter itself: 32 shards of open buckets and the hijacked connections it
 * drains. Its methods are runs of the Ledger, and the shards refine one flat
 * map of buckets.
 */
module Meter {
  import opened Common
  import opened Ledger

  ghost predicate AllBalanced(s: State) {
    forall w, f :: Balanced(s, w, f)
  }

  /** The two swaps of a drain, or those of a release, are to be made. */
  predicate Bookable(s: State, id: nat) {
    id in s.conns && s.flights == map[] && (s.conns[id].stage.Live? || s.conns[id].stage.Closing?)
  }

  function AfterSwaps(stage: Stage): Stage { if stage.Closing? then Released else stage }

  /** Both counters swapped to zero, and their bytes booked if there are any. */
  function Booked(s: State, id: nat, minute: int): State
    requires id in s.conns
  {
    var c := s.conns[id];
    var zeroed := s.(conns := s.conns[id := c.(inBytes := 0, outBytes := 0, stage := AfterSwaps(c.stage))]);
    if c.inBytes == 0 && c.outBytes == 0 then zeroed
    else zeroed.(open := Add(s.open, Key(minute, c.workload), c.project, Bytes(c.inBytes, c.outBytes)))
  }

  /** The buckets took what c carried since it was last booked, at the given minute, and nothing else. */
  ghost predicate BookedAt(c: Conn, was: map<Key, Val>, now: map<Key, Val>, minute: int) {
    if c.inBytes == 0 && c.outBytes == 0 then now == was
    else AddedAt(was, now, Key(minute, c.workload), c.project, Counters(0, c.inBytes, c.outBytes, 0, 0, 0, 0))
  }

  /** The buckets of every other minute are as they were. */
  ghost predicate SameBut(was: map<Key, Val>, now: map<Key, Val>, minute: int) {
    forall k: Key :: k.minute != minute ==> (k in now <==> k in was) && (k in was ==> now[k] == was[k])
  }

  /** Both counters of a connection in flight, to be booked at the given minute. */
  function Taken(s: State, id: nat, minute: int): State
    requires id in s.conns
  {
    var c := s.conns[id];
    s.(conns := s.conns[id := c.(inBytes := 0, outBytes := 0, stage := AfterSwaps(c.stage))],
       flights := map[0 := Flight(id, minute, c.workload, c.project, Bytes(c.inBytes, c.outBytes), false, c.stage.Live?)])
  }

  lemma SwapsTake(s: State, id: nat, minute: int)
    requires Bookable(s, id)
    ensures Next(Next(s, SwapIn(0, id, minute)), SwapOut(0)) == Taken(s, id, minute)
  {
    var c := s.conns[id];
    var f := Flight(id, minute, c.workload, c.project, Bytes(c.inBytes, 0), true, c.stage.Live?);
    var s1 := s.(conns := s.conns[id := c.(inBytes := 0, stage := if c.stage.Live? then Live else InRead)], flights := map[0 := f]);
    assert Next(s, SwapIn(0, id, minute)) == s1;
    assert s1.flights[0 := f.(counters := Bytes(c.inBytes, c.outBytes), half := false)] == Taken(s, id, minute).flights;
    assert s1.conns[id := s1.conns[id].(outBytes := 0, stage := AfterSwaps(c.stage))] == Taken(s, id, minute).conns;
  }

  lemma LandingBooks(s: State, id: nat, minute: int)
    requires Bookable(s, id)
    ensures Next(Taken(s, id, minute), Land(0)) == Booked(s, id, minute)
  {
    assert Taken(s, id, minute).flights - {0} == map[];
  }

  /** Booking is a swap of each counter and a landing, with nothing in between. */
  lemma BookedIsARun(s: State, id: nat, minute: int)
    requires Bookable(s, id)
    ensures Booked(s, id, minute) == Next(Next(Next(s, SwapIn(0, id, minute)), SwapOut(0)), Land(0))
  {
    SwapsTake(s, id, minute);
    LandingBooks(s, id, minute);
  }

  lemma BookedBalances(s: State, id: nat, minute: int)
    requires Bookable(s, id) && AllBalanced(s)
    ensures AllBalanced(Booked(s, id, minute))
  {
    BookedIsARun(s, id, minute);
    forall w, f ensures Balanced(Booked(s, id, minute), w, f) {
      BalancedStep(s, SwapIn(0, id, minute), w, f);
      BalancedStep(Next(s, SwapIn(0, id, minute)), SwapOut(0), w, f);
      BalancedStep(Next(Next(s, SwapIn(0, id, minute)), SwapOut(0)), Land(0), w, f);
    }
  }

  /** The limit of a shutdown drain: 1<<62 - 1 minutes. */
  const FOREVER: int := 0x3fff_ffff_ffff_ffff

  predicate DistinctKeys(out: seq<Bucket>) {
    forall i, j :: 0 <= i < j < |out| ==> out[i].key != out[j].key
  }

  function Before(m: map<Key, Val>, limit: int): map<Key, Val> {
    map k | k in m && k.minute < limit :: m[k]
  }

  /** The entries of one shard before the limit, in whatever order the map gives them. */
  method ListBefore(m: map<Key, Val>, limit: int) returns (out: seq<Bucket>)
    ensures Lists(out, Before(m, limit))
  {
    out := [];
    ghost var part := Before(m, limit);
    var todo := set k | k in m && k.minute < limit;
    assert todo == part.Keys && |part| == |part.Keys|;
    while todo != {}
      invariant todo <= part.Keys && |out| + |todo| == |part|
      invariant forall n :: 0 <= n < |out| ==> out[n].key in part && out[n].key !in todo && out[n].val == part[out[n].key]
      invariant DistinctKeys(out)
      decreases |todo|
    {
      var k :| k in todo;
      out, todo := out + [Bucket(k, m[k])], todo - {k};
    }
  }

  /** The shards hold the flat map: each bucket in the shard of its workload, and nowhere else. */
  ghost predicate Refines(shards: seq<map<Key, Val>>, open: map<Key, Val>) {
    && |shards| == SHARDS
    && (forall k :: k in open ==> k in shards[ShardOf(k.workload)] && shards[ShardOf(k.workload)][k] == open[k])
    && (forall i, k :: 0 <= i < SHARDS && k in shards[i] ==> ShardOf(k.workload) == i && k in open)
  }

  lemma RefinesAdd(shards: seq<map<Key, Val>>, open: map<Key, Val>, k: Key, v: Val)
    requires Refines(shards, open)
    ensures var i := ShardOf(k.workload); Refines(shards[i := shards[i][k := v]], open[k := v])
  {}

  lemma RefinesDrain(shards: seq<map<Key, Val>>, open: map<Key, Val>, i: nat, limit: int)
    requires Refines(shards, open) && i < SHARDS
    ensures Before(shards[i], limit) == Part(open, i, limit)
    ensures Refines(shards[i := shards[i] - Before(shards[i], limit).Keys], open - Part(open, i, limit).Keys)
  {
    var p, b := Part(open, i, limit), Before(shards[i], limit);
    assert forall k :: k in p <==> k in b;
  }

  lemma DrainBalances(s: State, i: nat, limit: int, out: seq<Bucket>)
    requires AllBalanced(s) && Lists(out, Part(s.open, i, limit))
    ensures AllBalanced(Next(s, DrainShard(i, limit, out)))
  {
    forall w, f ensures Balanced(Next(s, DrainShard(i, limit, out)), w, f) {
      BalancedStep(s, DrainShard(i, limit, out), w, f);
    }
  }

  /** The buckets before the limit in the first i shards. */
  function UpTo(open: map<Key, Val>, i: nat, limit: int): map<Key, Val> {
    map k | k in open && ShardOf(k.workload) < i && k.minute < limit :: open[k]
  }

  function Beyond(open: map<Key, Val>, i: nat, limit: int): map<Key, Val> {
    map k | k in open && !(ShardOf(k.workload) < i && k.minute < limit) :: open[k]
  }

  /** The first i shards gave just these, each once, and nothing else went. */
  ghost predicate DrainedUpTo(was: map<Key, Val>, now: map<Key, Val>, out: seq<Bucket>, i: nat, limit: int) {
    Lists(out, UpTo(was, i, limit)) && now == Beyond(was, i, limit)
  }

  lemma ListsJoin(a: seq<Bucket>, p: map<Key, Val>, b: seq<Bucket>, q: map<Key, Val>)
    requires Lists(a, p) && Lists(b, q) && p.Keys !! q.Keys
    ensures Lists(a + b, p + q)
  {
    assert (p + q).Keys == p.Keys + q.Keys;
    assert |p + q| == |(p + q).Keys| && |p| == |p.Keys| && |q| == |q.Keys|;
  }

  lemma DrainGoesOn(was: map<Key, Val>, now: map<Key, Val>, out: seq<Bucket>, i: nat, limit: int, more: seq<Bucket>)
    requires DrainedUpTo(was, now, out, i, limit) && Lists(more, Part(now, i, limit))
    ensures DrainedUpTo(was, now - Part(now, i, limit).Keys, out + more, i + 1, limit)
  {
    UpToGrows(was, i, limit);
    ListsJoin(out, UpTo(was, i, limit), more, Part(now, i, limit));
  }

  lemma UpToGrows(was: map<Key, Val>, i: nat, limit: int)
    ensures var now := Beyond(was, i, limit);
      && UpTo(was, i, limit).Keys !! Part(now, i, limit).Keys
      && UpTo(was, i + 1, limit) == UpTo(was, i, limit) + Part(now, i, limit)
      && now - Part(now, i, limit).Keys == Beyond(was, i + 1, limit)
  {}

  lemma NothingDrained(open: map<Key, Val>, limit: int)
    ensures DrainedUpTo(open, open, [], 0, limit)
  {
    assert UpTo(open, 0, limit) == map[] && Beyond(open, 0, limit) == open;
  }

  /** What is gone after a whole drain is what was before the limit. */
  lemma AllDrained(was: map<Key, Val>, now: map<Key, Val>, out: seq<Bucket>, limit: int)
    requires DrainedUpTo(was, now, out, SHARDS, limit)
    ensures DistinctKeys(out)
    ensures forall n :: 0 <= n < |out| ==>
      out[n].key.minute < limit && out[n].key in was && was[out[n].key] == out[n].val
    ensures forall k :: k in now ==> k.minute >= limit && k in was && now[k] == was[k]
    ensures forall k :: k in was ==> if k.minute < limit then Bucket(k, was[k]) in out else k in now
  {
    var part := UpTo(was, SHARDS, limit);
    ListingCovers(out, part);
    forall k | k in part ensures Bucket(k, was[k]) in out {
      assert k in (set j | 0 <= j < |out| :: out[j].key);
    }
  }

  class TrafficMeter {
    const shards: array<map<Key, Val>>
    var conns: map<nat, Conn>
    var live: set<nat>
    ghost var open: map<Key, Val>
    ghost var drained: seq<Bucket>
    ghost var recorded: seq<Entry>

    ghost function View(): State
      reads this
    {
      State(open, conns, map[], drained, recorded)
    }

    /** The 32 shards refine one flat map of buckets. */
    ghost predicate Valid()
      reads this, shards
    {
      && shards.Length == SHARDS && Refines(shards[..], open)
      && forall id :: id in live <==> id in conns && conns[id].stage.Live?
    }

    constructor ()
      ensures Valid() && View() == Empty && fresh(shards) && live == {}
    {
      shards := new map<Key, Val>[SHARDS](_ => map[]);
      conns, live := map[], {};
      open, drained, recorded := map[], [], [];
    }

    method AddTo(k: Key, project: Name, c: Counters)
      requires Valid()
      modifies this`open, shards
      ensures Valid() && open == Add(old(open), k, project, c) && AddedAt(old(open), open, k, project, c)
    {
      var i := ShardOf(k.workload);
      var s := shards[i];
      var v := if k in s then s[k].(counters := Plus(s[k].counters, c)) else Val(project, c);
      RefinesAdd(shards[..], open, k, v);
      assert shards[..][i] == s;
      shards[i] := s[k := v];
      open := Add(open, k, project, c);
      assert shards[..] == old(shards[..])[i := s[k := v]];
    }

    method RecordRequest(minute: int, workload: Name, project: Name, status: int, i: int, o: int)
      requires Valid()
      modifies this`open, this`recorded, shards
      ensures Valid() && View() == Next(old(View()), Record(minute, workload, project, OneRequest(status, i, o)))
      ensures |recorded| == |old(recorded)| + 1 && recorded[..|old(recorded)|] == old(recorded)
      ensures var e := recorded[|old(recorded)|];
        && e.workload == workload && CountsOne(e.counters, status, i, o)
        && AddedAt(old(open), open, Key(minute, workload), project, e.counters)
    {
      AddTo(Key(minute, workload), project, OneRequest(status, i, o));
      recorded := recorded + [Entry(workload, OneRequest(status, i, o))];
    }

    method TrackConn(id: nat, workload: Name, project: Name)
      requires Valid() && id !in conns
      modifies this`conns, this`live
      ensures Valid() && View() == Next(old(View()), Track(id, workload, project)) && live == old(live) + {id}
    {
      conns, live := conns[id := Conn(workload, project, 0, 0, Live)], live + {id};
    }

    /** A read or a write that returns, before the connection's release or after. */
    method CarryBytes(id: nat, i: nat, o: nat)
      requires Valid() && id in conns
      modifies this`conns, this`recorded
      ensures Valid() && View() == Next(old(View()), Carry(id, i, o))
      ensures conns.Keys == old(conns).Keys && forall j :: j in conns && j != id ==> conns[j] == old(conns)[j]
      ensures conns[id].inBytes == old(conns)[id].inBytes + i && conns[id].outBytes == old(conns)[id].outBytes + o
    {
      var c := conns[id];
      conns := conns[id := c.(inBytes := c.inBytes + i, outBytes := c.outBytes + o)];
      recorded := recorded + [Entry(c.workload, Bytes(i, o))];
    }

    /** Take the connection's bytes and book them at the given minute. */
    method Book(id: nat, minute: int)
      requires Valid() && Bookable(View(), id)
      modifies this`conns, this`open, shards
      ensures Valid() && View() == Booked(old(View()), id, minute)
      ensures BookedAt(old(conns)[id], old(open), open, minute)
    {
      var c := conns[id];
      conns := conns[id := c.(inBytes := 0, outBytes := 0, stage := AfterSwaps(c.stage))];
      if c.inBytes != 0 || c.outBytes != 0 {
        AddTo(Key(minute, c.workload), c.project, Bytes(c.inBytes, c.outBytes));
      }
    }

    method UntrackConn(id: nat, minute: int)
      requires Valid() && id in conns && conns[id].stage.Live?
      modifies this`conns, this`live, this`open, shards
      ensures Valid() && View() == Booked(Next(old(View()), Untrack(id)), id, minute) && live == old(live) - {id}
      ensures BookedAt(old(conns)[id], old(open), open, minute) && conns[id].inBytes == conns[id].outBytes == 0
    {
      conns, live := conns[id := conns[id].(stage := Closing)], live - {id};
      Book(id, minute);
    }

    /** One shard's part of a drain, under the shard's lock. */
    method DrainOne(i: nat, limit: int) returns (out: seq<Bucket>)
      requires Valid() && i < SHARDS
      modifies this`open, this`drained, shards
      ensures Valid() && Lists(out, Part(old(open), i, limit))
      ensures View() == Next(old(View()), DrainShard(i, limit, out))
      ensures open == old(open) - Part(old(open), i, limit).Keys && drained == old(drained) + out
    {
      var s := shards[i];
      RefinesDrain(shards[..], open, i, limit);
      assert shards[..][i] == s;
      out := ListBefore(s, limit);
      shards[i] := s - Before(s, limit).Keys;
      assert shards[..] == old(shards[..])[i := s - Before(s, limit).Keys];
      open, drained := open - Part(open, i, limit).Keys, drained + out;
    }

    /** Book what the open connections carried since the last drain. */
    method BookLive(minute: int)
      requires Valid() && AllBalanced(View())
      modifies this`conns, this`open, shards
      ensures Valid() && AllBalanced(View()) && SameBut(old(open), open, minute)
      ensures forall id :: id in live ==> conns[id].inBytes == conns[id].outBytes == 0
    {
      var todo := live;
      while todo != {}
        invariant Valid() && AllBalanced(View()) && todo <= live && SameBut(old(open), open, minute)
        invariant forall id :: id in live - todo ==> conns[id].inBytes == conns[id].outBytes == 0
        decreases |todo|
      {
        var id :| id in todo;
        BookedBalances(View(), id, minute);
        Book(id, minute);
        todo := todo - {id};
      }
    }

    method DrainNext(out: seq<Bucket>, i: nat, limit: int, ghost was: State) returns (all: seq<Bucket>)
      requires Valid() && i < SHARDS && AllBalanced(View()) && drained == was.drained + out
      requires DrainedUpTo(was.open, open, out, i, limit)
      modifies this`open, this`drained, shards
      ensures Valid() && AllBalanced(View()) && drained == was.drained + all
      ensures DrainedUpTo(was.open, open, all, i + 1, limit)
    {
      ghost var s := View();
      var more := DrainOne(i, limit);
      all := out + more;
      assert AllBalanced(View()) by { DrainBalances(s, i, limit, more); }
      assert DrainedUpTo(was.open, open, all, i + 1, limit) by { DrainGoesOn(was.open, s.open, out, i, limit, more); }
    }

    method DrainShards(limit: int) returns (out: seq<Bucket>)
      requires Valid() && AllBalanced(View())
      modifies this`open, this`drained, shards
      ensures Valid() && AllBalanced(View()) && drained == old(drained) + out
      ensures DrainedUpTo(old(open), open, out, SHARDS, limit)
    {
      out := [];
      NothingDrained(open, limit);
      for i := 0 to SHARDS
        invariant Valid() && AllBalanced(View()) && drained == old(drained) + out
        invariant DrainedUpTo(old(open), open, out, i, limit)
      {
        out := DrainNext(out, i, limit, old(View()));
      }
    }

    /**
     * Drain: book what open connections carried, then empty every shard of the
     * minutes before the limit. Conservation survives it, no key is returned
     * twice, and no bucket before the limit is left behind. What connections
     * carried goes to the minute just ended, or on shutdown to this one; the
     * buckets of every other minute are returned, or stay, as they were.
     */
    method Drain(all: bool, beforeMinute: int, nowMinute: int) returns (out: seq<Bucket>)
      requires Valid() && AllBalanced(View())
      modifies this`conns, this`open, this`drained, shards
      ensures Valid() && AllBalanced(View()) && drained == old(drained) + out && DistinctKeys(out)
      ensures var limit := if all then FOREVER else beforeMinute;
        (forall i :: 0 <= i < |out| ==> out[i].key.minute < limit) && (forall k :: k in open ==> k.minute >= limit)
      ensures forall id :: id in live ==> conns[id].inBytes == conns[id].outBytes == 0
      ensures var limit := if all then 0x3fff_ffff_ffff_ffff else beforeMinute;
        forall k: Key :: k in old(open) && k.minute != (if all then nowMinute else nowMinute - 1) ==>
          if k.minute < limit then Bucket(k, old(open)[k]) in out else k in open && open[k] == old(open)[k]
      ensures forall n :: 0 <= n < |out| && out[n].key.minute != (if all then nowMinute else nowMinute - 1) ==>
        out[n].key in old(open) && old(open)[out[n].key] == out[n].val
    {
      var limit, liveMinute := beforeMinute, nowMinute - 1;
      if all { limit, liveMinute := FOREVER, nowMinute; }
      BookLive(liveMinute);
      ghost var booked := open;
      out := DrainShards(limit);
      AllDrained(booked, open, out, limit);
    }
  }
}
