/** Slash-separated names: how a relative name is resolved below a directory, and how a path is spelled. */
module PathNames {
  import opened Common
  import opened DiskOps

  predicate PlainName(c: Name) { c != "" && c != "." && c != ".." && '/' !in c }

  predicate NoSlash(p: Path) { forall i :: 0 <= i < |p| ==> '/' !in p[i] }

  predicate PlainPath(p: Path) { forall i :: 0 <= i < |p| ==> PlainName(p[i]) }

  /** A character in front of a path, by its components. */
  function Prepend(c: char, r: seq<Name>): seq<Name>
    requires r != []
  {
    if c == '/' then [""] + r else [[c] + r[0]] + r[1..]
  }

  /** The components between slashes. */
  function Split(s: string): (r: seq<Name>)
    ensures r != [] && forall i :: 0 <= i < |r| ==> '/' !in r[i]
  {
    if s == "" then [""] else Prepend(s[0], Split(s[1..]))
  }

  /** What a cleaned path is made of: plain names, after parent steps if it is not rooted. */
  predicate Settled(rooted: bool, p: Path) {
    forall i :: 0 <= i < |p| ==> PlainName(p[i]) || (p[i] == ".." && !rooted && forall j :: 0 <= j < i ==> p[j] == "..")
  }

  function Onto(rooted: bool, p: Path, c: Name): (q: Path)
    requires Settled(rooted, p) && '/' !in c
    ensures Settled(rooted, q) && |q| <= |p| + 1
  {
    if c == "" || c == "." then p
    else if c != ".." then p + [c]
    else if p != [] && p[|p| - 1] != ".." then p[..|p| - 1]
    else if rooted then p
    else p + [c]
  }

  function Walk(rooted: bool, p: Path, cs: seq<Name>): (q: Path)
    requires Settled(rooted, p) && NoSlash(cs)
    ensures Settled(rooted, q) && |q| <= |p| + |cs|
    decreases |cs|
  {
    if cs == [] then p else Walk(rooted, Onto(rooted, p, cs[0]), cs[1..])
  }

  /**
   * filepath.Clean on components: a parent step removes the name before it; where
   * there is none it stays, or stops at the root.
   */
  function Normal(rooted: bool, cs: seq<Name>): (p: Path)
    requires NoSlash(cs)
    ensures Settled(rooted, p) && |p| <= |cs|
  {
    Walk(rooted, [], cs)
  }

  /** Components joined with slashes. */
  function Spell(p: Path): string {
    if p == [] then "" else if |p| == 1 then p[0] else p[0] + "/" + Spell(p[1..])
  }

  function Rooted(s: string): bool { s != "" && s[0] == '/' }

  /** A path of these components. */
  function FromParts(rooted: bool, p: Path): string {
    if rooted then "/" + Spell(p) else if p == [] then "." else Spell(p)
  }

  /** filepath.Clean */
  function Clean(s: string): string { FromParts(Rooted(s), Normal(Rooted(s), Split(s))) }

  /** filepath.Join of two, the second not empty. */
  function Join(a: string, b: string): string { if a == "" then Clean(b) else Clean(a + "/" + b) }

  /** safeJoin: None where the result is neither the root nor, by its spelling, below it. */
  function SafeJoin(root: string, rel: string): Option<string> {
    var p := Join(root, Clean("/" + rel));
    if p != root && !(root + "/" <= p) then None else Some(p)
  }

  /** Where a name leads below the directory it is joined to. */
  function Resolve(rel: string): (p: Path)
    ensures PlainPath(p)
  {
    Normal(true, Split(rel))
  }

  lemma {:induction false} SplitPlain(c: Name)
    requires '/' !in c
    ensures Split(c) == [c]
  {
    if c != "" {
      SplitPlain(c[1..]);
      assert [c[0]] + c[1..] == c;
    }
  }

  lemma PrependAppend(c: char, r: seq<Name>, q: seq<Name>)
    requires r != []
    ensures Prepend(c, r + q) == Prepend(c, r) + q
  {
    assert (r + q)[0] == r[0] && (r + q)[1..] == r[1..] + q;
  }

  lemma {:induction false} SplitAtSlash(a: string, b: string)
    ensures Split(a + "/" + b) == Split(a) + Split(b)
  {
    if a == "" {
      assert a + "/" + b == "/" + b;
      assert ("/" + b)[1..] == b;
    } else {
      SplitAtSlash(a[1..], b);
      assert (a + "/" + b)[1..] == a[1..] + "/" + b;
      PrependAppend(a[0], Split(a[1..]), Split(b));
    }
  }

  lemma {:induction false} SplitUndoesSpell(p: Path)
    requires NoSlash(p) && p != []
    ensures Split(Spell(p)) == p
  {
    if |p| == 1 {
      SplitPlain(p[0]);
    } else {
      SplitUndoesSpell(p[1..]);
      SplitAtSlash(p[0], Spell(p[1..]));
      SplitPlain(p[0]);
      assert [p[0]] + p[1..] == p;
    }
  }

  lemma {:induction false} SpellUndoesSplit(s: string)
    ensures Spell(Split(s)) == s
  {
    if s != "" {
      SpellUndoesSplit(s[1..]);
      var r := Split(s[1..]);
      assert [s[0]] + s[1..] == s;
      if s[0] == '/' {
        assert ([""] + r)[1..] == r;
      } else {
        assert ([[s[0]] + r[0]] + r[1..])[1..] == r[1..];
        if |r| > 1 { assert [s[0]] + (r[0] + "/" + Spell(r[1..])) == [s[0]] + r[0] + "/" + Spell(r[1..]); }
      }
    }
  }

  lemma {:induction false} SpellAppend(p: Path, q: Path)
    requires p != [] && q != []
    ensures Spell(p + q) == Spell(p) + "/" + Spell(q)
  {
    if |p| == 1 {
      assert (p + q)[1..] == q;
    } else {
      SpellAppend(p[1..], q);
      assert (p + q)[1..] == p[1..] + q;
      assert p[0] + "/" + (Spell(p[1..]) + "/" + Spell(q)) == p[0] + "/" + Spell(p[1..]) + "/" + Spell(q);
    }
  }

  // ---------------------------------------------------------------- normal forms

  lemma {:induction false} WalkOn(rooted: bool, p: Path, a: seq<Name>, b: seq<Name>)
    requires Settled(rooted, p) && NoSlash(a) && NoSlash(b)
    ensures NoSlash(a + b) && Walk(rooted, p, a + b) == Walk(rooted, Walk(rooted, p, a), b)
    decreases |a|
  {
    if a == [] {
      assert a + b == b;
    } else {
      assert (a + b)[1..] == a[1..] + b;
      WalkOn(rooted, Onto(rooted, p, a[0]), a[1..], b);
    }
  }

  /** Settled components stay as they are. */
  lemma {:induction false} WalkSettled(rooted: bool, p: Path, q: Path)
    requires Settled(rooted, p + q)
    ensures Settled(rooted, p) && NoSlash(q) && Walk(rooted, p, q) == p + q
    decreases |q|
  {
    SettledPart(rooted, p, q);
    if q == [] {
      assert p + q == p;
    } else {
      assert (p + [q[0]]) + q[1..] == p + q;
      WalkSettled(rooted, p + [q[0]], q[1..]);
    }
  }

  lemma SettledPart(rooted: bool, p: Path, q: Path)
    requires Settled(rooted, p + q)
    ensures Settled(rooted, p) && NoSlash(q) && (q != [] ==> Onto(rooted, p, q[0]) == p + [q[0]])
  {
    var all := p + q;
    assert forall i :: 0 <= i < |p| ==> p[i] == all[i];
    assert forall i :: 0 <= i < |q| ==> q[i] == all[|p| + i];
  }

  lemma NormalOfSettled(rooted: bool, p: Path)
    requires Settled(rooted, p)
    ensures NoSlash(p) && Normal(rooted, p) == p
  {
    assert [] + p == p;
    WalkSettled(rooted, [], p);
  }

  lemma WalkOverEmpty(rooted: bool, p: Path, cs: seq<Name>)
    requires Settled(rooted, p) && NoSlash(cs)
    ensures NoSlash([""] + cs) && Walk(rooted, p, [""] + cs) == Walk(rooted, p, cs)
  {
    assert ([""] + cs)[1..] == cs;
  }

  lemma NormalAfterEmpty(rooted: bool, cs: seq<Name>)
    requires NoSlash(cs)
    ensures NoSlash([""] + cs) && Normal(rooted, [""] + cs) == Normal(rooted, cs)
  {
    WalkOverEmpty(rooted, [], cs);
  }

  /** The components of a cleaned path, as its spelling splits. */
  function PartsSplit(rooted: bool, p: Path): seq<Name> {
    if rooted then [""] + (if p == [] then [""] else p) else if p == [] then ["."] else p
  }

  lemma SplitOfParts(rooted: bool, p: Path)
    requires Settled(rooted, p)
    ensures Split(FromParts(rooted, p)) == PartsSplit(rooted, p) && Rooted(FromParts(rooted, p)) == rooted
  {
    NormalOfSettled(rooted, p);
    if p != [] {
      SplitUndoesSpell(p);
      SpellStarts(p);
    }
    if rooted { assert ("/" + Spell(p))[1..] == Spell(p); } else if p == [] { SplitPlain("."); }
  }

  lemma SpellStarts(p: Path)
    requires p != [] && NoSlash(p) && p[0] != ""
    ensures Spell(p) != "" && Spell(p)[0] == p[0][0] && Spell(p)[0] != '/'
  {}

  lemma RootedSplits(s: string)
    requires Rooted(s)
    ensures Split(s) == [""] + Split(s[1..])
  {}

  /** The joined path has the root's own components, cleaned, and then the name's. */
  lemma JoinIsBoth(root: string, rel: string)
    ensures Join(root, Clean("/" + rel))
         == FromParts(root == "" || Rooted(root), (if root == "" then [] else Normal(Rooted(root), Split(root))) + Resolve(rel))
  {
    var t := Resolve(rel);
    CleanOfRel(rel);
    var b := "/" + Spell(t);
    SplitOfParts(true, t);
    var tail := if t == [] then [""] else t;
    if root == "" {
      SplitNormal(true, [], t);
      assert [] + ([""] + tail) == [""] + tail && [] + t == t;
    } else {
      SplitAtSlash(root, b);
      SplitNormal(Rooted(root), Split(root), t);
      assert Rooted(root + "/" + b) == Rooted(root);
    }
  }

  lemma CleanOfRel(rel: string)
    ensures Clean("/" + rel) == "/" + Spell(Resolve(rel))
  {
    assert ("/" + rel)[1..] == rel;
    NormalAfterEmpty(true, Split(rel));
  }

  lemma SplitNormal(rooted: bool, cs: seq<Name>, t: Path)
    requires NoSlash(cs) && PlainPath(t)
    ensures var all := cs + ([""] + (if t == [] then [""] else t));
      NoSlash(all) && Normal(rooted, all) == Normal(rooted, cs) + t
  {
    var tail := if t == [] then [""] else t;
    WalkOn(rooted, [], cs, [""] + tail);
    var n := Normal(rooted, cs);
    WalkOverEmpty(rooted, n, tail);
    if t == [] {
      assert [""] + [] == [""] && n + [] == n;
      WalkOverEmpty(rooted, n, []);
    } else {
      WalkSettled(rooted, n, t);
    }
  }

  // -------------------------------------------------------------- main results

  /** What safeJoin returns when it returns something: the root, or a path below it with no parent step. */
  function Under(root: string, t: Path): string {
    if t != [] then root + "/" + Spell(t) else if root == "" then "/" else root
  }

  /**
   * No name leads out of the root, and it is refused if and only if the root is
   * not clean, or is "/" or "." (whose spelling no path below begins with) and
   * the name means something below it. An empty root stands for "/".
   */
  lemma SafeJoinIff(root: string, rel: string)
    ensures SafeJoin(root, rel).Some?
      <==> root == "" || (Clean(root) == root && ((root != "/" && root != ".") || Resolve(rel) == []))
    ensures SafeJoin(root, rel).Some? ==> SafeJoin(root, rel).value == Under(root, Resolve(rel))
  {
    var t := Resolve(rel);
    JoinIsBoth(root, rel);
    if root == "" {
      assert [] + t == t;
    } else if t == [] {
      JoinOfNothing(root);
    } else if Clean(root) == root {
      JoinBelowClean(root, t);
    } else {
      JoinBelowUnclean(root, t);
    }
  }

  lemma JoinOfNothing(root: string)
    requires root != ""
    ensures var n := Normal(Rooted(root), Split(root));
      FromParts(Rooted(root), n + []) == Clean(root) && !(root + "/" <= Clean(root))
  {
    var rooted, r := Rooted(root), Split(root);
    var n := Normal(rooted, r);
    assert n + [] == n;
    SplitOfParts(rooted, n);
    if rooted {
      RootedSplits(root);
      NormalAfterEmpty(true, Split(root[1..]));
    }
    if root + "/" <= Clean(root) { PrefixSplits(root, Clean(root)); }
  }

  lemma PrefixSplits(root: string, p: string)
    requires root + "/" <= p
    ensures |Split(root)| < |Split(p)| && Split(root) <= Split(p)
  {
    var x := p[|root| + 1..];
    assert p == root + "/" + x;
    SplitAtSlash(root, x);
  }

  lemma JoinBelowClean(root: string, t: Path)
    requires root != "" && Clean(root) == root && t != [] && PlainPath(t)
    ensures var p := FromParts(Rooted(root), Normal(Rooted(root), Split(root)) + t);
      if root == "/" || root == "." then p != root && !(root + "/" <= p) else p == root + "/" + Spell(t)
  {
    var rooted := Rooted(root);
    var n := Normal(rooted, Split(root));
    SplitOfParts(rooted, n);
    if n != [] {
      PartsAppend(rooted, n, t);
      assert root != "/" && root != "." by { SplitPlain("."); SlashSplits(); }
    } else {
      assert n + t == t;
      NoDotsBelow(t);
    }
  }

  lemma SlashSplits()
    ensures Split("/") == ["", ""]
  {
    assert "/"[1..] == "";
  }

  lemma PartsAppend(rooted: bool, n: Path, t: Path)
    requires n != [] && t != []
    ensures FromParts(rooted, n + t) == FromParts(rooted, n) + "/" + Spell(t)
  {
    SpellAppend(n, t);
    assert "/" + (Spell(n) + "/" + Spell(t)) == "/" + Spell(n) + "/" + Spell(t);
  }

  lemma NoDotsBelow(t: Path)
    requires t != [] && PlainPath(t)
    ensures Spell(t) != "." && !("./" <= Spell(t)) && !("//" <= "/" + Spell(t)) && "/" + Spell(t) != "/"
  {
    SpellStarts(t);
    SplitUndoesSpell(t);
    SplitPlain(".");
    if "./" <= Spell(t) { PrefixSplits(".", Spell(t)); }
    assert ("/" + Spell(t))[1] == Spell(t)[0] && "//"[1] == '/';
  }

  lemma JoinBelowUnclean(root: string, t: Path)
    requires root != "" && Clean(root) != root && t != [] && PlainPath(t)
    ensures var p := FromParts(Rooted(root), Normal(Rooted(root), Split(root)) + t);
      p != root && !(root + "/" <= p)
  {
    var rooted, r := Rooted(root), Split(root);
    var n := Normal(rooted, r);
    var p := FromParts(rooted, n + t);
    assert Settled(rooted, n + t);
    SplitOfParts(rooted, n + t);
    NormalOfSettled(rooted, n + t);
    assert |n + t| > |n|;
    if rooted { NormalAfterEmpty(true, n + t); }
    if p != root && root + "/" <= p {
      PrefixSplits(root, p);
      PrefixIsClean(root, n + t);
    }
  }

  lemma PrefixIsClean(root: string, q: Path)
    requires root != "" && q != [] && Settled(Rooted(root), q) && Split(root) <= PartsSplit(Rooted(root), q)
    ensures Clean(root) == root
  {
    var r := Split(root);
    if Rooted(root) {
      RootedSplits(root);
      var rest := Split(root[1..]);
      assert r[1..] == rest && PartsSplit(true, q)[1..] == q && rest <= q && rest == q[..|rest|];
      SettledUpTo(true, q, |rest|);
      NormalAfterEmpty(true, rest);
      SpellUndoesSplit(root[1..]);
    } else {
      assert r == q[..|r|];
      SettledUpTo(false, q, |r|);
      SpellUndoesSplit(root);
    }
  }

  lemma SettledUpTo(rooted: bool, q: Path, n: nat)
    requires Settled(rooted, q) && n <= |q|
    ensures Settled(rooted, q[..n]) && NoSlash(q[..n]) && Normal(rooted, q[..n]) == q[..n]
  {
    assert forall i :: 0 <= i < n ==> q[..n][i] == q[i];
    NormalOfSettled(rooted, q[..n]);
  }

  /** For which roots no name at all is refused. */
  lemma NothingRefusedIff(root: string)
    ensures (forall rel :: SafeJoin(root, rel).Some?) <==> root == "" || (Clean(root) == root && root != "/" && root != ".")
  {
    forall rel { SafeJoinIff(root, rel); }
    SplitPlain("a");
    assert Resolve("a") == ["a"] by { assert ["a"][..0] == []; }
    SafeJoinIff(root, "a");
  }

  /** A plain path, spelled and resolved, is the path it was. */
  lemma ResolveUndoesSpell(p: Path)
    requires PlainPath(p)
    ensures Resolve(Spell(p)) == p
  {
    if p != [] {
      SplitUndoesSpell(p);
      NormalOfSettled(true, p);
    } else {
      assert Split("") == [""];
      assert [""][..0] == [];
    }
  }
}
