/**
 * Repeated ticks of the LRU eviction over an idle fleet: every tick sorts what
 * is left, in whatever order it likes among ties, and deletes what it selects.
 */
module LruTicks {
  import opened LruSelect
  import opened Sorting

  // ------------------------------------------------------------------ counting

  function EvictableBelow(age: Age, t: int): Candidate -> bool { (c: Candidate) => age.Evicts(c) && c.lastActive < t }
  function EvictableAt(age: Age, t: int): Candidate -> bool { (c: Candidate) => age.Evicts(c) && c.lastActive == t }
  function Below(t: int): Candidate -> bool { (c: Candidate) => c.lastActive < t }

  lemma {:induction false} CountAppends(a: seq<Candidate>, b: seq<Candidate>, p: Candidate -> bool)
    ensures Count(a + b, p) == Count(a, p) + Count(b, p)
  {
    if b == [] {
      assert a + b == a;
    } else {
      assert (a + b)[..|a + b| - 1] == a + b[..|b| - 1];
      CountAppends(a, b[..|b| - 1], p);
    }
  }

  lemma {:induction false} CountNone(s: seq<Candidate>, p: Candidate -> bool)
    ensures Count(s, p) == 0 <==> forall c :: c in s ==> !p(c)
  {
    if s != [] {
      CountNone(s[..|s| - 1], p);
      assert forall c :: c in s <==> c in s[..|s| - 1] || c == s[|s| - 1];
    }
  }

  lemma {:induction false} CountSplits(s: seq<Candidate>, p: Candidate -> bool, q: Candidate -> bool, r: Candidate -> bool)
    requires forall c :: c in s ==> (p(c) <==> q(c) || r(c)) && !(q(c) && r(c))
    ensures Count(s, p) == Count(s, q) + Count(s, r)
  {
    if s != [] { CountSplits(s[..|s| - 1], p, q, r); }
  }

  lemma {:induction false} CountAll(s: seq<Candidate>, p: Candidate -> bool)
    requires forall c :: c in s ==> p(c)
    ensures Count(s, p) == |s|
  {
    if s != [] { CountAll(s[..|s| - 1], p); }
  }

  function Without(s: seq<Candidate>, i: nat): seq<Candidate>
    requires i < |s|
  {
    s[..i] + s[i + 1..]
  }

  lemma WithoutPermutes(s: seq<Candidate>, i: nat)
    requires i < |s|
    ensures multiset(s) == multiset(Without(s, i)) + multiset{s[i]}
  {
    assert s == s[..i] + [s[i]] + s[i + 1..];
  }

  lemma CountWithout(s: seq<Candidate>, i: nat, p: Candidate -> bool)
    requires i < |s|
    ensures Count(s, p) == Count(Without(s, i), p) + if p(s[i]) then 1 else 0
  {
    var l, r := s[..i + 1], s[i + 1..];
    assert s == l + r;
    CountAppends(l, r, p);
    assert l[..|l| - 1] == s[..i];
    CountAppends(s[..i], r, p);
  }

  lemma {:induction false} CountPermutes(a: seq<Candidate>, b: seq<Candidate>, p: Candidate -> bool)
    requires multiset(a) == multiset(b)
    ensures Count(a, p) == Count(b, p) && |a| == |b|
    decreases |a|
  {
    if a == [] {
      assert forall c :: c in b ==> c in multiset(b);
    } else {
      assert a[0] in multiset(b);
      var i :| 0 <= i < |b| && b[i] == a[0];
      RemovedPermutes(a, b, i);
      CountPermutes(Without(a, 0), Without(b, i), p);
      CountWithout(a, 0, p);
      CountWithout(b, i, p);
    }
  }

  lemma RemovedPermutes(a: seq<Candidate>, b: seq<Candidate>, i: nat)
    requires multiset(a) == multiset(b) && a != [] && i < |b| && b[i] == a[0]
    ensures multiset(Without(a, 0)) == multiset(Without(b, i))
  {
    WithoutPermutes(a, 0);
    WithoutPermutes(b, i);
    assert multiset(a) - multiset{a[0]} == multiset(Without(a, 0));
    assert multiset(b) - multiset{a[0]} == multiset(Without(b, i));
  }

  lemma FewBelow(s: seq<Candidate>, i: nat, t: int)
    requires Ranked(s) && i < |s| && s[i].lastActive >= t
    ensures Count(s, Below(t)) <= |s| - i - 1
  {
    assert s == s[..i + 1] + s[i + 1..];
    CountAppends(s[..i + 1], s[i + 1..], Below(t));
    CountNone(s[..i + 1], Below(t));
    CountAtMost(s[i + 1..], Below(t));
  }

  lemma ManyBelow(s: seq<Candidate>, i: nat, t: int)
    requires Ranked(s) && i < |s| && s[i].lastActive < t
    ensures Count(s, Below(t)) >= |s| - i
  {
    assert s == s[..i] + s[i..];
    CountAppends(s[..i], s[i..], Below(t));
    CountAll(s[i..], Below(t));
  }

  /** Two sorts of the same candidates have the same activity at every rank. */
  lemma RanksAgree(o: seq<Candidate>, p: seq<Candidate>, i: nat)
    requires Ranked(o) && Ranked(p) && multiset(o) == multiset(p) && i < |o|
    ensures |o| == |p| && p[i].lastActive == o[i].lastActive
  {
    CountPermutes(o, p, Below(o[i].lastActive));
    CountPermutes(o, p, Below(p[i].lastActive));
    if p[i].lastActive > o[i].lastActive {
      ManyBelow(o, i, p[i].lastActive);
      FewBelow(p, i, p[i].lastActive);
    } else if p[i].lastActive < o[i].lastActive {
      ManyBelow(p, i, o[i].lastActive);
      FewBelow(o, i, o[i].lastActive);
    }
  }

  lemma {:induction false} CountAtMost(s: seq<Candidate>, p: Candidate -> bool)
    ensures Count(s, p) <= |s|
  {
    if s != [] { CountAtMost(s[..|s| - 1], p); }
  }

  // -------------------------------------------------------------------- a tick

  /** What one tick leaves, in the order it was ranked in. */
  function Survivors(ranked: seq<Candidate>, keep: nat, batch: nat, age: Age): seq<Candidate> {
    if |ranked| <= keep then ranked else ranked[..keep] + Left(ranked[keep..], batch, age)
  }

  /** Some candidates tie across the keep boundary, and not all of them may go. */
  ghost predicate MixedTie(ranked: seq<Candidate>, keep: nat, age: Age)
  {
    0 < keep < |ranked| && ranked[keep - 1].lastActive == ranked[keep].lastActive
    && exists i, j :: InTie(ranked, keep, i) && InTie(ranked, keep, j)
         && age.Evicts(ranked[i]) && !age.Evicts(ranked[j])
  }

  ghost predicate InTie(ranked: seq<Candidate>, keep: nat, i: int)
    requires keep < |ranked|
  {
    0 <= i < |ranked| && ranked[i].lastActive == ranked[keep].lastActive
  }

  lemma {:induction false} LeftStaysRanked(tail: seq<Candidate>, batch: nat, age: Age)
    requires Ranked(tail)
    ensures Ranked(Left(tail, batch, age))
  {
    if tail != [] && batch > 0 {
      var c, rest := tail[|tail| - 1], tail[..|tail| - 1];
      LeftStaysRanked(rest, if age.Evicts(c) then batch - 1 else batch, age);
      if !age.Evicts(c) {
        forall d | d in Left(rest, batch, age) ensures d.lastActive >= c.lastActive {
          LeftIsPart(rest, batch, age, d);
        }
      }
    }
  }

  /** The survivors are in rank order, and the newest keep are untouched. */
  lemma SurvivorsStayRanked(ranked: seq<Candidate>, keep: nat, batch: nat, age: Age)
    requires Ranked(ranked)
    ensures Ranked(Survivors(ranked, keep, batch, age))
    ensures forall c :: c in Survivors(ranked, keep, batch, age) ==> c in ranked
  {
    if |ranked| > keep {
      var tail := ranked[keep..];
      LeftStaysRanked(tail, batch, age);
      var left := Left(tail, batch, age);
      forall c | c in left ensures c in tail && forall d :: d in ranked[..keep] ==> d.lastActive >= c.lastActive {
        LeftIsPart(tail, batch, age, c);
        var k :| 0 <= k < |tail| && tail[k] == c;
        assert ranked[keep + k] == c;
      }
      var s := ranked[..keep] + left;
      forall i, j | 0 <= i < j < |s| ensures s[i].lastActive >= s[j].lastActive {
        if i < keep <= j { assert ranked[..keep][i] in ranked[..keep] && left[j - keep] in left; }
        if keep <= i { assert left[i - keep].lastActive >= left[j - keep].lastActive; }
      }
    }
  }

  lemma {:induction false} CountLeft(tail: seq<Candidate>, batch: nat, age: Age)
    ensures Count(tail, Evictable(age)) == Count(Left(tail, batch, age), Evictable(age)) + |Victims(tail, batch, age)|
  {
    if tail != [] && batch > 0 {
      var c, rest := tail[|tail| - 1], tail[..|tail| - 1];
      CountLeft(rest, if age.Evicts(c) then batch - 1 else batch, age);
      if !age.Evicts(c) { assert (Left(rest, batch, age) + [c])[..|Left(rest, batch, age)|] == Left(rest, batch, age); }
    }
  }

  /** One tick removes a batch of what is eligible, or all of it. */
  lemma TickTakesABatch(ranked: seq<Candidate>, keep: nat, batch: nat, age: Age)
    requires Ranked(ranked) && keep > 0 && batch > 0
    ensures var n := Eligible(ranked, keep, age);
      Eligible(Survivors(ranked, keep, batch, age), keep, age) == if n < batch then 0 else n - batch
  {
    if |ranked| > keep {
      var tail := ranked[keep..];
      var s := Survivors(ranked, keep, batch, age);
      VictimsFillTheBatch(tail, batch, age);
      CountLeft(tail, batch, age);
      assert s[keep..] == Left(tail, batch, age);
      CountNone(s[keep..], Evictable(age));
    }
  }

  lemma TickKeepsUnmixed(ranked: seq<Candidate>, keep: nat, batch: nat, age: Age)
    requires Ranked(ranked) && keep > 0 && !MixedTie(ranked, keep, age)
    ensures !MixedTie(Survivors(ranked, keep, batch, age), keep, age)
  {
    var s := Survivors(ranked, keep, batch, age);
    SurvivorsStayRanked(ranked, keep, batch, age);
    if MixedTie(s, keep, age) {
      assert s[keep - 1] == ranked[keep - 1];
      var k := IndexIn(ranked, s, keep, batch, age, keep);
      BoundaryIsFirst(ranked, keep, batch, age);
      var i, j :| InTie(s, keep, i) && InTie(s, keep, j) && age.Evicts(s[i]) && !age.Evicts(s[j]);
      var i' := IndexIn(ranked, s, keep, batch, age, i);
      var j' := IndexIn(ranked, s, keep, batch, age, j);
      assert InTie(ranked, keep, i') && InTie(ranked, keep, j');
    }
  }

  lemma IndexIn(ranked: seq<Candidate>, s: seq<Candidate>, keep: nat, batch: nat, age: Age, i: nat) returns (k: nat)
    requires Ranked(ranked) && s == Survivors(ranked, keep, batch, age) && i < |s|
    ensures k < |ranked| && ranked[k] == s[i]
  {
    SurvivorsStayRanked(ranked, keep, batch, age);
    assert s[i] in ranked;
    k :| 0 <= k < |ranked| && ranked[k] == s[i];
  }

  lemma BoundaryIsFirst(ranked: seq<Candidate>, keep: nat, batch: nat, age: Age)
    requires Ranked(ranked) && 0 < keep < |Survivors(ranked, keep, batch, age)|
    ensures keep < |ranked|
    ensures Survivors(ranked, keep, batch, age)[keep].lastActive <= ranked[keep].lastActive
  {
    if keep < |ranked| {
      var left := Left(ranked[keep..], batch, age);
      assert Survivors(ranked, keep, batch, age)[keep] == left[0];
      LeftIsPart(ranked[keep..], batch, age, left[0]);
      var k :| 0 <= k < |ranked[keep..]| && ranked[keep..][k] == left[0];
      assert ranked[keep + k] == left[0];
    }
  }

  // -------------------------------------------------------------- another order

  lemma EligibleInParts(ranked: seq<Candidate>, keep: nat, age: Age)
    requires Ranked(ranked) && 0 < keep < |ranked|
    ensures var t := ranked[keep].lastActive;
      Eligible(ranked, keep, age) == Count(ranked, EvictableBelow(age, t)) + Count(ranked[keep..], EvictableAt(age, t))
  {
    var t := ranked[keep].lastActive;
    var top, tail := ranked[..keep], ranked[keep..];
    CountSplits(tail, Evictable(age), EvictableBelow(age, t), EvictableAt(age, t));
    assert ranked == top + tail;
    CountAppends(top, tail, EvictableBelow(age, t));
    CountNone(top, EvictableBelow(age, t));
  }

  /** Without a mixed tie, how many of the tie lie beyond the boundary does not depend on the order. */
  lemma TieInTail(ranked: seq<Candidate>, keep: nat, age: Age)
    requires Ranked(ranked) && 0 < keep < |ranked| && !MixedTie(ranked, keep, age)
    ensures var t := ranked[keep].lastActive;
      Count(ranked[keep..], EvictableAt(age, t))
      == if ranked[keep - 1].lastActive > t then Count(ranked, EvictableAt(age, t))
         else if age.Evicts(ranked[keep]) then |ranked| - keep - Count(ranked, Below(t)) else 0
  {
    var t := ranked[keep].lastActive;
    var top, tail := ranked[..keep], ranked[keep..];
    assert ranked == top + tail;
    if ranked[keep - 1].lastActive > t {
      CountAppends(top, tail, EvictableAt(age, t));
      CountNone(top, EvictableAt(age, t));
    } else {
      assert InTie(ranked, keep, keep);
      assert forall i :: InTie(ranked, keep, i) ==> age.Evicts(ranked[i]) == age.Evicts(ranked[keep]);
      UniformTail(ranked, keep, age);
    }
  }

  lemma UniformMembers(ranked: seq<Candidate>, keep: nat, age: Age)
    requires Ranked(ranked) && keep < |ranked|
    requires forall i :: InTie(ranked, keep, i) ==> age.Evicts(ranked[i]) == age.Evicts(ranked[keep])
    ensures forall c :: c in ranked[keep..] ==> c.lastActive <= ranked[keep].lastActive
    ensures forall c :: c in ranked[keep..] && c.lastActive == ranked[keep].lastActive
              ==> age.Evicts(c) == age.Evicts(ranked[keep])
  {
    forall c | c in ranked[keep..] && c.lastActive == ranked[keep].lastActive
      ensures age.Evicts(c) == age.Evicts(ranked[keep])
    {
      var i :| 0 <= i < |ranked[keep..]| && ranked[keep..][i] == c;
      assert InTie(ranked, keep, keep + i);
    }
  }

  lemma UniformTail(ranked: seq<Candidate>, keep: nat, age: Age)
    requires Ranked(ranked) && 0 < keep < |ranked|
    requires ranked[keep - 1].lastActive == ranked[keep].lastActive
    requires forall i :: InTie(ranked, keep, i) ==> age.Evicts(ranked[i]) == age.Evicts(ranked[keep])
    ensures var t := ranked[keep].lastActive;
      Count(ranked[keep..], EvictableAt(age, t))
      == if age.Evicts(ranked[keep]) then |ranked| - keep - Count(ranked, Below(t)) else 0
  {
    var t := ranked[keep].lastActive;
    var top, tail := ranked[..keep], ranked[keep..];
    assert ranked == top + tail;
    CountAppends(top, tail, Below(t));
    CountNone(top, Below(t));
    UniformMembers(ranked, keep, age);
    if age.Evicts(ranked[keep]) {
      CountTwo(tail, Below(t), EvictableAt(age, t));
    } else {
      CountNone(tail, EvictableAt(age, t));
    }
  }

  lemma {:induction false} CountTwo(s: seq<Candidate>, p: Candidate -> bool, q: Candidate -> bool)
    requires forall c :: c in s ==> p(c) != q(c)
    ensures Count(s, p) + Count(s, q) == |s|
  {
    if s != [] { CountTwo(s[..|s| - 1], p, q); }
  }

  /** Sorting again cannot change what is eligible, unless a mixed tie crosses the boundary. */
  lemma AnotherOrder(o: seq<Candidate>, p: seq<Candidate>, keep: nat, age: Age)
    requires Ranked(o) && Ranked(p) && multiset(o) == multiset(p) && keep > 0
    requires !MixedTie(o, keep, age)
    ensures Eligible(p, keep, age) == Eligible(o, keep, age) && !MixedTie(p, keep, age)
  {
    CountPermutes(o, p, Evictable(age));
    if keep < |o| {
      var t := o[keep].lastActive;
      RanksAgree(o, p, keep);
      RanksAgree(o, p, keep - 1);
      SameTie(o, p, keep, age);
      EligibleInParts(o, keep, age);
      EligibleInParts(p, keep, age);
      CountPermutes(o, p, EvictableBelow(age, t));
      CountPermutes(o, p, EvictableAt(age, t));
      CountPermutes(o, p, Below(t));
      TieInTail(o, keep, age);
      TieInTail(p, keep, age);
    }
  }

  lemma SameTie(o: seq<Candidate>, p: seq<Candidate>, keep: nat, age: Age)
    requires Ranked(o) && Ranked(p) && multiset(o) == multiset(p) && 0 < keep < |o| == |p|
    requires o[keep].lastActive == p[keep].lastActive && o[keep - 1].lastActive == p[keep - 1].lastActive
    requires !MixedTie(o, keep, age)
    ensures !MixedTie(p, keep, age)
    ensures o[keep - 1].lastActive == o[keep].lastActive ==> age.Evicts(o[keep]) == age.Evicts(p[keep])
  {
    forall i | InTie(p, keep, i)
      ensures exists j :: InTie(o, keep, j) && o[j] == p[i]
    {
      assert p[i] in multiset(o);
      var j :| 0 <= j < |o| && o[j] == p[i];
      assert InTie(o, keep, j);
    }
    assert InTie(o, keep, keep) && InTie(p, keep, keep);
  }

  // ------------------------------------------------------------------ the runs

  /** Each entry is the fleet as one tick ranks it; the next tick ranks the survivors anew. */
  ghost predicate IsRun(run: seq<seq<Candidate>>, keep: nat, batch: nat, age: Age) {
    && run != []
    && (forall k :: 0 <= k < |run| ==> Ranked(run[k]))
    && (forall k :: 0 < k < |run| ==> multiset(run[k]) == multiset(Survivors(run[k - 1], keep, batch, age)))
  }

  /** However ties fall and however many ticks pass, at least keep projects stay. */
  lemma {:induction false} NeverFewerThanKeep(run: seq<seq<Candidate>>, keep: nat, batch: nat, age: Age)
    requires IsRun(run, keep, batch, age)
    ensures var last := run[|run| - 1];
      |last| >= keep || (|last| == |run[0]| < keep && multiset(last) == multiset(run[0]))
  {
    if |run| > 1 {
      var before := run[..|run| - 1];
      NeverFewerThanKeep(before, keep, batch, age);
      var s := Survivors(before[|before| - 1], keep, batch, age);
      CountPermutes(run[|run| - 1], s, Evictable(age));
    }
  }

  function Minus(n: nat, m: nat): nat { if n < m then 0 else n - m }

  lemma NextTick(o: seq<Candidate>, p: seq<Candidate>, keep: nat, batch: nat, age: Age)
    requires Ranked(o) && Ranked(p) && multiset(p) == multiset(Survivors(o, keep, batch, age))
    requires keep > 0 && batch > 0 && !MixedTie(o, keep, age)
    ensures Eligible(p, keep, age) == Minus(Eligible(o, keep, age), batch) && !MixedTie(p, keep, age)
  {
    SurvivorsStayRanked(o, keep, batch, age);
    TickTakesABatch(o, keep, batch, age);
    TickKeepsUnmixed(o, keep, batch, age);
    AnotherOrder(Survivors(o, keep, batch, age), p, keep, age);
  }

  lemma {:induction false} TicksTakeBatches(run: seq<seq<Candidate>>, keep: nat, batch: nat, age: Age)
    requires IsRun(run, keep, batch, age) && keep > 0 && batch > 0 && !MixedTie(run[0], keep, age)
    ensures Eligible(run[|run| - 1], keep, age) == Minus(Eligible(run[0], keep, age), (|run| - 1) * batch)
    ensures !MixedTie(run[|run| - 1], keep, age)
    decreases |run|
  {
    if |run| > 1 {
      var before := run[..|run| - 1];
      TicksTakeBatches(before, keep, batch, age);
      NextTick(before[|before| - 1], run[|run| - 1], keep, batch, age);
      MinusTwice(Eligible(run[0], keep, age), |run| - 2, batch);
    }
  }

  lemma MinusTwice(n: nat, k: nat, batch: nat)
    ensures Minus(Minus(n, k * batch), batch) == Minus(n, (k + 1) * batch)
  {
    assert (k + 1) * batch == k * batch + batch;
  }

  /** Every run that begins with this fleet is done once its ticks could have held all that was eligible. */
  ghost predicate StopsInTime(fleet: seq<Candidate>, keep: nat, batch: nat, age: Age) {
    forall run ::
      IsRun(run, keep, batch, age) && multiset(run[0]) == multiset(fleet)
      && (|run| - 1) * batch >= Eligible(run[0], keep, age)
      ==> Eligible(run[|run| - 1], keep, age) == 0
  }

  lemma SwapTied(s: seq<Candidate>, i: nat, j: nat)
    requires Ranked(s) && i < |s| && j < |s| && s[i].lastActive == s[j].lastActive
    ensures Ranked(Swapped(s, i, j)) && multiset(Swapped(s, i, j)) == multiset(s)
  {
    SwapPermutes(s, i, j);
  }

  /** One of a tie that may go is kept, and one that may not lies beyond. */
  predicate Worst(s: seq<Candidate>, keep: nat, age: Age, i: nat, j: nat) {
    i < keep <= j < |s| && s[i].lastActive == s[j].lastActive && age.Evicts(s[i]) && !age.Evicts(s[j])
  }

  /** A mixed tie can be ranked that way. */
  lemma WorstRanking(s: seq<Candidate>, keep: nat, age: Age) returns (o: seq<Candidate>, i: nat, j: nat)
    requires Ranked(s) && MixedTie(s, keep, age)
    ensures Ranked(o) && multiset(o) == multiset(s)
    ensures Worst(o, keep, age, i, j)
  {
    var a: int, b: int :| InTie(s, keep, a) && InTie(s, keep, b) && age.Evicts(s[a]) && !age.Evicts(s[b]);
    if a < keep && b < keep {
      o, j := Beyond(s, keep, age, b);
      i := a;
    } else if keep <= a && keep <= b {
      o, i := Within(s, keep, age, a);
      j := b;
    } else if a < keep {
      o, i, j := s, a, b;
    } else {
      SwapTied(s, a, b);
      o, i, j := Swapped(s, a, b), b, a;
    }
  }

  /** Ranks keep - 1 and keep lie in the tie: one that may not go can be put at rank keep. */
  lemma Beyond(s: seq<Candidate>, keep: nat, age: Age, b: nat) returns (o: seq<Candidate>, j: nat)
    requires Ranked(s) && b < keep < |s| && s[b].lastActive == s[keep].lastActive && !age.Evicts(s[b])
    ensures Ranked(o) && multiset(o) == multiset(s) && |o| == |s|
    ensures j == keep && o[keep].lastActive == s[keep].lastActive && !age.Evicts(o[keep])
    ensures forall i :: 0 <= i < keep && i != b ==> o[i] == s[i]
  {
    o, j := s, keep;
    if age.Evicts(s[keep]) {
      SwapTied(s, b, keep);
      o := Swapped(s, b, keep);
    }
  }

  /** Likewise, one that may go can be put at rank keep - 1. */
  lemma Within(s: seq<Candidate>, keep: nat, age: Age, a: nat) returns (o: seq<Candidate>, i: nat)
    requires Ranked(s) && 0 < keep <= a < |s| && s[a].lastActive == s[keep - 1].lastActive && age.Evicts(s[a])
    ensures Ranked(o) && multiset(o) == multiset(s) && |o| == |s|
    ensures i == keep - 1 && o[i].lastActive == s[i].lastActive && age.Evicts(o[i])
    ensures forall j :: keep <= j < |s| && j != a ==> o[j] == s[j]
  {
    o, i := s, keep - 1;
    if !age.Evicts(s[keep - 1]) {
      SwapTied(s, keep - 1, a);
      o := Swapped(s, keep - 1, a);
    }
  }

  /** A tick that leaves the survivors in their order leaves it so. */
  lemma WorstStays(o: seq<Candidate>, keep: nat, batch: nat, age: Age, i: nat, j: nat) returns (k: nat)
    requires Ranked(o) && Worst(o, keep, age, i, j)
    ensures var s := Survivors(o, keep, batch, age); Ranked(s) && Worst(s, keep, age, i, k)
  {
    SurvivorsStayRanked(o, keep, batch, age);
    k := StaysBeyond(o, keep, batch, age, j);
  }

  /** And so do any number of them. */
  lemma {:induction false} WorstRun(o: seq<Candidate>, keep: nat, batch: nat, age: Age, i: nat, j: nat, n: nat)
      returns (run: seq<seq<Candidate>>, k: nat)
    requires Ranked(o) && Worst(o, keep, age, i, j)
    ensures IsRun(run, keep, batch, age) && |run| == n + 1 && run[0] == o && Worst(run[n], keep, age, i, k)
  {
    if n == 0 {
      run, k := [o], j;
    } else {
      var before, m := WorstRun(o, keep, batch, age, i, j, n - 1);
      k := WorstStays(before[n - 1], keep, batch, age, i, m);
      run := OneTickMore(before, Survivors(before[n - 1], keep, batch, age), keep, batch, age);
    }
  }

  /** From such a ranking, the next one can leave someone to take, however much has been taken. */
  lemma AnotherIsEligible(o: seq<Candidate>, keep: nat, batch: nat, age: Age, i: nat, j: nat) returns (p: seq<Candidate>)
    requires Ranked(o) && Worst(o, keep, age, i, j)
    ensures Ranked(p) && multiset(p) == multiset(Survivors(o, keep, batch, age)) && Eligible(p, keep, age) > 0
  {
    var s := Survivors(o, keep, batch, age);
    var k := WorstStays(o, keep, batch, age, i, j);
    p := Swapped(s, i, k);
    SwapTied(s, i, k);
    SomeEligible(p, keep, age, k);
  }

  lemma StaysBeyond(o: seq<Candidate>, keep: nat, batch: nat, age: Age, j: nat) returns (k: nat)
    requires keep <= j < |o| && !age.Evicts(o[j])
    ensures keep <= k < |Survivors(o, keep, batch, age)| && Survivors(o, keep, batch, age)[k] == o[j]
  {
    var left := Left(o[keep..], batch, age);
    assert o[j] == o[keep..][j - keep];
    VictimsAndLeft(o[keep..], batch, age);
    StaysLeft(o[keep..], batch, age, o[j]);
    var i :| 0 <= i < |left| && left[i] == o[j];
    k := keep + i;
  }

  lemma SomeEligible(p: seq<Candidate>, keep: nat, age: Age, k: nat)
    requires keep <= k < |p| && age.Evicts(p[k])
    ensures Eligible(p, keep, age) > 0
  {
    assert p[keep..][k - keep] == p[k];
    assert p[k] in p[keep..] && Evictable(age)(p[k]);
    CountNone(p[keep..], Evictable(age));
  }

  /**
   * For every batch: repeated ticks without activity stop after eligible / batch
   * of them, rounded up, whatever the sort does with ties, exactly when no tie
   * of candidates that may go with candidates that may not crosses the keep
   * boundary.
   */
  lemma StopsInTimeIff(fleet: seq<Candidate>, keep: nat, batch: nat, age: Age)
    requires Ranked(fleet) && keep > 0 && batch > 0
    ensures StopsInTime(fleet, keep, batch, age) <==> !MixedTie(fleet, keep, age)
  {
    if MixedTie(fleet, keep, age) {
      var run := LateRun(fleet, keep, batch, age);
      assert IsRun(run, keep, batch, age) && Eligible(run[|run| - 1], keep, age) > 0;
    } else {
      forall run | IsRun(run, keep, batch, age) && multiset(run[0]) == multiset(fleet)
          && (|run| - 1) * batch >= Eligible(run[0], keep, age)
        ensures Eligible(run[|run| - 1], keep, age) == 0
      {
        AnotherOrder(fleet, run[0], keep, age);
        TicksTakeBatches(run, keep, batch, age);
      }
    }
  }

  /** With a mixed tie, enough ticks to take everything can end with someone left to take. */
  lemma LateRun(fleet: seq<Candidate>, keep: nat, batch: nat, age: Age) returns (run: seq<seq<Candidate>>)
    requires Ranked(fleet) && MixedTie(fleet, keep, age) && batch > 0
    ensures IsRun(run, keep, batch, age) && multiset(run[0]) == multiset(fleet)
    ensures (|run| - 1) * batch >= Eligible(run[0], keep, age)
    ensures Eligible(run[|run| - 1], keep, age) > 0
  {
    var o, i, j := WorstRanking(fleet, keep, age);
    var n := Eligible(o, keep, age);
    var before, k := WorstRun(o, keep, batch, age, i, j, n);
    var p := AnotherIsEligible(before[n], keep, batch, age, i, k);
    run := OneTickMore(before, p, keep, batch, age);
    assert (n + 1) * batch >= n + 1;
  }

  lemma OneTickMore(before: seq<seq<Candidate>>, p: seq<Candidate>, keep: nat, batch: nat, age: Age)
      returns (run: seq<seq<Candidate>>)
    requires IsRun(before, keep, batch, age) && Ranked(p)
    requires multiset(p) == multiset(Survivors(before[|before| - 1], keep, batch, age))
    ensures IsRun(run, keep, batch, age) && run == before + [p] && run[0] == before[0] && run[|before|] == p
  {
    run := before + [p];
  }
}
