/**
 * Which projects the LRU eviction deletes. The candidates are sorted newest
 * first, in any order among ties, and the oldest unprotected ones beyond the
 * first keep are taken, a batch per tick.
 */
module LruSelect {
  import opened Sorting

  datatype Candidate = Candidate(id: string, lastActive: int, guarded: bool)

  /** The minimum idle age, and the instant it is measured at. */
  datatype Age = Age(minAge: int, now: int) {
    predicate Evicts(c: Candidate) { !c.guarded && now - c.lastActive >= minAge }
  }

  predicate Ranked(s: seq<Candidate>) {
    forall i, j :: 0 <= i < j < |s| ==> s[i].lastActive >= s[j].lastActive
  }

  predicate DistinctIds(s: seq<Candidate>) {
    forall i, j :: 0 <= i < j < |s| ==> s[i].id != s[j].id
  }

  function Ids(s: seq<Candidate>): (r: seq<string>)
    ensures |r| == |s| && forall i :: 0 <= i < |s| ==> r[i] == s[i].id
  {
    seq(|s|, i requires 0 <= i < |s| => s[i].id)
  }

  /** Walking the tail from its end: the first batch candidates that may go. */
  function Victims(tail: seq<Candidate>, batch: nat, age: Age): seq<Candidate> {
    if tail == [] || batch == 0 then []
    else
      var c, rest := tail[|tail| - 1], tail[..|tail| - 1];
      if age.Evicts(c) then [c] + Victims(rest, batch - 1, age) else Victims(rest, batch, age)
  }

  /** What the same walk leaves of the tail. */
  function Left(tail: seq<Candidate>, batch: nat, age: Age): seq<Candidate> {
    if tail == [] || batch == 0 then tail
    else
      var c, rest := tail[|tail| - 1], tail[..|tail| - 1];
      if age.Evicts(c) then Left(rest, batch - 1, age) else Left(rest, batch, age) + [c]
  }

  /** How many candidates of s satisfy p. */
  function Count(s: seq<Candidate>, p: Candidate -> bool): nat {
    if s == [] then 0 else Count(s[..|s| - 1], p) + if p(s[|s| - 1]) then 1 else 0
  }

  function Evictable(age: Age): Candidate -> bool { (c: Candidate) => age.Evicts(c) }

  /** One tick's victims, in the order they are deleted. */
  function Selected(ranked: seq<Candidate>, keep: int, batch: int, age: Age): seq<Candidate> {
    if keep <= 0 || batch <= 0 || |ranked| <= keep then [] else Victims(ranked[keep..], batch, age)
  }

  method SelectEvictions(cands: array<Candidate>, keep: int, batch: int, age: Age) returns (evict: seq<string>)
    modifies cands
    ensures multiset(cands[..]) == multiset(old(cands[..]))
    ensures if keep > 0 && batch > 0 && cands.Length > keep then Ranked(cands[..]) else cands[..] == old(cands[..])
    ensures evict == Ids(Selected(cands[..], keep, batch, age))
  {
    evict := [];
    if keep <= 0 || batch <= 0 || cands.Length <= keep { return; }
    SortNewestFirst(cands, (c: Candidate) => c.lastActive);
    evict := WalkFromOldest(cands, keep, batch, age);
  }

  /** The backward loop: oldest first, skipping who may not go, until the batch is full. */
  method WalkFromOldest(cands: array<Candidate>, keep: nat, batch: nat, age: Age) returns (evict: seq<string>)
    requires keep < cands.Length && batch > 0
    ensures evict == Ids(Victims(cands[keep..], batch, age))
  {
    evict := [];
    ghost var tail := cands[keep..];
    assert tail[..|tail|] == tail;
    var i := cands.Length - 1;
    while i >= keep
      invariant keep - 1 <= i < cands.Length && |evict| < batch
      invariant Ids(Victims(tail, batch, age)) == evict + Pending(tail, i + 1 - keep, batch - |evict|, age)
    {
      var c := cands[i];
      assert c == tail[i - keep];
      PendingOne(tail, i + 1 - keep, batch - |evict|, age);
      i := i - 1;
      if c.guarded || age.now - c.lastActive < age.minAge { continue; }
      assert evict + ([c.id] + Pending(tail, i + 1 - keep, batch - |evict| - 1, age))
        == (evict + [c.id]) + Pending(tail, i + 1 - keep, batch - |evict| - 1, age);
      evict := evict + [c.id];
      if |evict| >= batch { break; }
    }
  }

  /** What the walk has still to take, with the first k of the tail before it. */
  function Pending(tail: seq<Candidate>, k: nat, room: nat, age: Age): seq<string>
    requires k <= |tail|
  {
    Ids(Victims(tail[..k], room, age))
  }

  lemma PendingOne(tail: seq<Candidate>, k: nat, room: nat, age: Age)
    requires 0 < k <= |tail| && room > 0
    ensures Pending(tail, k, room, age)
      == if age.Evicts(tail[k - 1]) then [tail[k - 1].id] + Pending(tail, k - 1, room - 1, age)
         else Pending(tail, k - 1, room, age)
  {
    assert tail[..k][..k - 1] == tail[..k - 1];
    var c, older := tail[k - 1], Victims(tail[..k - 1], room - 1, age);
    assert Ids([c] + older) == [c.id] + Ids(older);
  }

  // ------------------------------------------------------- what a tick selects

  /** Every victim may go, and stands in the tail; the walk neither invents nor repeats one. */
  lemma {:induction false} VictimsAndLeft(tail: seq<Candidate>, batch: nat, age: Age)
    ensures multiset(Victims(tail, batch, age)) + multiset(Left(tail, batch, age)) == multiset(tail)
    ensures forall i :: 0 <= i < |Victims(tail, batch, age)| ==> age.Evicts(Victims(tail, batch, age)[i])
    ensures |Victims(tail, batch, age)| <= batch
  {
    if tail != [] && batch > 0 {
      var c, rest := tail[|tail| - 1], tail[..|tail| - 1];
      assert tail == rest + [c];
      VictimsAndLeft(rest, if age.Evicts(c) then batch - 1 else batch, age);
    }
  }

  /** The batch is filled as far as there is anyone to fill it with. */
  lemma {:induction false} VictimsFillTheBatch(tail: seq<Candidate>, batch: nat, age: Age)
    ensures var n := Count(tail, Evictable(age));
      |Victims(tail, batch, age)| == if n < batch then n else batch
  {
    if tail != [] && batch > 0 {
      var c, rest := tail[|tail| - 1], tail[..|tail| - 1];
      VictimsFillTheBatch(rest, if age.Evicts(c) then batch - 1 else batch, age);
    }
  }

  lemma StaysLeft(tail: seq<Candidate>, batch: nat, age: Age, c: Candidate)
    requires c in tail && c !in Victims(tail, batch, age)
    ensures c in Left(tail, batch, age)
  {
    VictimsAndLeft(tail, batch, age);
    assert c in multiset(tail);
    assert c in multiset(Left(tail, batch, age));
  }

  lemma {:induction false} LeftIsPart(tail: seq<Candidate>, batch: nat, age: Age, c: Candidate)
    requires c in Left(tail, batch, age)
    ensures c in tail
  {
    VictimsAndLeft(tail, batch, age);
    assert c in multiset(Left(tail, batch, age));
    assert c in multiset(tail);
  }

  lemma LastIsOldest(tail: seq<Candidate>, c: Candidate)
    requires Ranked(tail) && c in tail
    ensures tail[|tail| - 1].lastActive <= c.lastActive && Ranked(tail[..|tail| - 1])
  {}

  /** Whoever could have gone and stayed is no older than any victim, and the batch was full. */
  lemma {:induction false} OldestGoFirst(tail: seq<Candidate>, batch: nat, age: Age, c: Candidate)
    requires Ranked(tail)
    requires c in Left(tail, batch, age) && age.Evicts(c)
    ensures |Victims(tail, batch, age)| == batch
    ensures forall v :: v in Victims(tail, batch, age) ==> v.lastActive <= c.lastActive
  {
    LeftIsPart(tail, batch, age, c);
    if batch > 0 {
      var d, rest := tail[|tail| - 1], tail[..|tail| - 1];
      LastIsOldest(tail, c);
      if age.Evicts(d) {
        assert c in Left(rest, batch - 1, age);
        OldestGoFirst(rest, batch - 1, age, c);
        assert Victims(tail, batch, age) == [d] + Victims(rest, batch - 1, age);
      } else {
        assert c in Left(rest, batch, age);
        OldestGoFirst(rest, batch, age, c);
      }
    }
  }

  /** Distinct ids stay distinct in any part of the list. */
  lemma PartsStayDistinct(s: seq<Candidate>, part: seq<Candidate>)
    requires DistinctIds(s) && multiset(part) <= multiset(s)
    ensures DistinctIds(part)
  {
    PartIsDistinct(s, part);
    forall i, j | 0 <= i < j < |part| ensures part[i].id != part[j].id {
      assert part[i] in s && part[j] in s;
      var a :| 0 <= a < |s| && s[a] == part[i];
      var b :| 0 <= b < |s| && s[b] == part[j];
    }
  }

  function Eligible(ranked: seq<Candidate>, keep: nat, age: Age): nat {
    if |ranked| <= keep then 0 else Count(ranked[keep..], Evictable(age))
  }

  /**
   * One tick's selection: none without a positive keep and batch, or with no
   * more projects than are kept; else distinct projects, each ranked beyond the
   * newest keep, unguarded and idle long enough; as many as are eligible, up to
   * the batch; and an eligible one left behind is no older than any that goes.
   */
  lemma SelectionIsRight(ranked: seq<Candidate>, keep: int, batch: int, age: Age)
    requires Ranked(ranked) && DistinctIds(ranked)
    ensures var v := Selected(ranked, keep, batch, age);
      if keep <= 0 || batch <= 0 || |ranked| <= keep then v == []
      else
        var n := Eligible(ranked, keep, age);
        && DistinctIds(v)
        && |v| == (if n < batch then n else batch)
        && (forall c :: c in v ==> c in ranked[keep..] && !c.guarded && c.lastActive + age.minAge <= age.now)
        && (forall c, d :: c in v && d in ranked[keep..] && d !in v && age.Evicts(d)
             ==> |v| == batch && c.lastActive <= d.lastActive)
  {
    if 0 < keep < |ranked| && batch > 0 { VictimsAreRight(ranked, keep, batch, age); }
  }

  lemma VictimsAreRight(ranked: seq<Candidate>, keep: nat, batch: nat, age: Age)
    requires Ranked(ranked) && DistinctIds(ranked) && 0 < keep < |ranked| && batch > 0
    ensures var v, n := Selected(ranked, keep, batch, age), Eligible(ranked, keep, age);
      && DistinctIds(v)
      && |v| == (if n < batch then n else batch)
      && (forall c :: c in v ==> c in ranked[keep..] && age.Evicts(c))
      && (forall c, d :: c in v && d in ranked[keep..] && d !in v && age.Evicts(d)
           ==> |v| == batch && c.lastActive <= d.lastActive)
  {
    var tail := ranked[keep..];
    var v := Selected(ranked, keep, batch, age);
    VictimsAndLeft(tail, batch, age);
    VictimsFillTheBatch(tail, batch, age);
    PartsStayDistinct(tail, v);
    forall c | c in v ensures c in tail && age.Evicts(c) {
      assert c in multiset(v);
      assert c in multiset(tail);
    }
    forall d | d in tail && d !in v && age.Evicts(d)
      ensures |v| == batch && forall c :: c in v ==> c.lastActive <= d.lastActive
    {
      StaysLeft(tail, batch, age, d);
      OldestGoFirst(tail, batch, age, d);
    }
  }
}
