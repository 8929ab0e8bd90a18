/** Sorting in place, with no promise about the order of elements that compare equal. */
module Sorting {
  predicate Sorted<T>(s: seq<T>, le: (T, T) -> bool) {
    forall i, j :: 0 <= i < j < |s| ==> le(s[i], s[j])
  }

  ghost predicate TotalPreorder<T(!new)>(le: (T, T) -> bool) {
    && (forall x, y :: le(x, y) || le(y, x))
    && (forall x, y, z :: le(x, y) && le(y, z) ==> le(x, z))
  }

  /** The first n elements are in place: sorted, and no greater than what follows. */
  predicate Placed<T>(s: seq<T>, le: (T, T) -> bool, n: int) {
    forall i, j :: 0 <= i < j < |s| && i < n ==> le(s[i], s[j])
  }

  function Swapped<T>(s: seq<T>, i: nat, j: nat): seq<T>
    requires i < |s| && j < |s|
  {
    s[i := s[j]][j := s[i]]
  }

  lemma SwapPermutes<T>(s: seq<T>, i: nat, j: nat)
    requires i < |s| && j < |s|
    ensures multiset(Swapped(s, i, j)) == multiset(s)
  {}

  lemma SwapPlaces<T(!new)>(s: seq<T>, le: (T, T) -> bool, n: nat, least: nat)
    requires TotalPreorder(le) && n <= least < |s| && Placed(s, le, n)
    requires forall j :: n <= j < |s| ==> le(s[least], s[j])
    ensures Placed(Swapped(s, n, least), le, n + 1)
  {}

  method Least<T(!new)>(a: array<T>, le: (T, T) -> bool, n: nat) returns (least: nat)
    requires TotalPreorder(le) && n < a.Length
    ensures n <= least < a.Length
    ensures forall j :: n <= j < a.Length ==> le(a[least], a[j])
  {
    least := n;
    for k := n + 1 to a.Length
      invariant n <= least < k
      invariant forall j :: n <= j < k ==> le(a[least], a[j])
    {
      if !le(a[least], a[k]) { least := k; }
    }
  }

  method Sort<T(!new)>(a: array<T>, le: (T, T) -> bool)
    requires TotalPreorder(le)
    modifies a
    ensures multiset(a[..]) == multiset(old(a[..]))
    ensures Sorted(a[..], le)
  {
    for n := 0 to a.Length
      invariant multiset(a[..]) == multiset(old(a[..]))
      invariant Placed(a[..], le, n)
    {
      var least := Least(a, le, n);
      ghost var before := a[..];
      a[n], a[least] := a[least], a[n];
      assert a[..] == Swapped(before, n, least);
      SwapPermutes(before, n, least);
      SwapPlaces(before, le, n, least);
    }
  }

  // -------------------------------------------------------------- newest first

  predicate NewestFirst<T>(s: seq<T>, time: T -> int) {
    forall i, j :: 0 <= i < j < |s| ==> time(s[i]) >= time(s[j])
  }

  method SortNewestFirst<T(!new)>(a: array<T>, time: T -> int)
    modifies a
    ensures multiset(a[..]) == multiset(old(a[..]))
    ensures NewestFirst(a[..], time)
  {
    Sort(a, (x, y) => time(x) >= time(y));
  }

  // ------------------------------------------------------- distinct elements

  predicate Distinct<T(==)>(s: seq<T>) {
    forall i, j :: 0 <= i < j < |s| ==> s[i] != s[j]
  }

  lemma {:induction false} OnceEach<T>(s: seq<T>, x: T)
    requires Distinct(s)
    ensures multiset(s)[x] <= 1
  {
    if s != [] {
      var rest := s[..|s| - 1];
      assert s == rest + [s[|s| - 1]];
      OnceEach(rest, x);
      if x == s[|s| - 1] { assert x !in rest; }
    }
  }

  lemma TwiceIn<T>(s: seq<T>, i: nat, j: nat)
    requires i < j < |s| && s[i] == s[j]
    ensures multiset(s)[s[i]] >= 2
  {
    assert s == s[..j] + [s[j]] + s[j + 1..];
    assert s[i] == s[..j][i];
  }

  /** Distinct elements stay distinct in any part, in any order. */
  lemma PartIsDistinct<T>(s: seq<T>, part: seq<T>)
    requires Distinct(s) && multiset(part) <= multiset(s)
    ensures Distinct(part)
    ensures forall x :: x in part ==> x in s
  {
    forall i, j | 0 <= i < j < |part| ensures part[i] != part[j] {
      if part[i] == part[j] {
        TwiceIn(part, i, j);
        OnceEach(s, part[i]);
      }
    }
    forall x | x in part ensures x in s { assert x in multiset(part) && x in multiset(s); }
  }
}
