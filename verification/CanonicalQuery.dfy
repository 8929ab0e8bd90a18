/**
 * The canonical query string a request is signed with: every key in order, each
 * key's values in order, each encoded; and its reading back by the receiver.
 */
module CanonicalQuery {
  import opened Common
  import opened Sorting
  import opened UriEncode

  /** url.Values: the values of each key, in the order they were added. */
  type Values = map<Bytes, seq<Bytes>>

  datatype Pair = Pair(key: Bytes, value: Bytes)

  const AMPERSAND: Byte := 0x26
  const EQUALS: Byte := 0x3D
  const SEMICOLON: Byte := 0x3B

  // ------------------------------------------------------------------ the order

  /** Byte-wise lexicographic order, as strings compare. */
  predicate StringLe(a: Bytes, b: Bytes) {
    a == [] || (b != [] && (a[0] < b[0] || (a[0] == b[0] && StringLe(a[1..], b[1..]))))
  }

  lemma {:induction false} StringLeTotal(a: Bytes, b: Bytes)
    ensures StringLe(a, b) || StringLe(b, a)
    ensures StringLe(a, b) && StringLe(b, a) ==> a == b
  {
    if a != [] && b != [] {
      StringLeTotal(a[1..], b[1..]);
      assert a == [a[0]] + a[1..] && b == [b[0]] + b[1..];
    }
  }

  lemma {:induction false} StringLeTransitive(a: Bytes, b: Bytes, c: Bytes)
    requires StringLe(a, b) && StringLe(b, c)
    ensures StringLe(a, c)
  {
    if a != [] && b != [] && c != [] && a[0] == b[0] == c[0] { StringLeTransitive(a[1..], b[1..], c[1..]); }
  }

  lemma StringsCompare()
    ensures TotalPreorder(StringLe)
  {
    forall a, b ensures StringLe(a, b) || StringLe(b, a) { StringLeTotal(a, b); }
    forall a, b, c | StringLe(a, b) && StringLe(b, c) ensures StringLe(a, c) { StringLeTransitive(a, b, c); }
  }

  predicate PairLe(p: Pair, q: Pair) {
    if p.key == q.key then StringLe(p.value, q.value) else StringLe(p.key, q.key)
  }

  lemma PairLeAntisymmetric(p: Pair, q: Pair)
    requires PairLe(p, q) && PairLe(q, p)
    ensures p == q
  {
    StringLeTotal(p.key, q.key);
    StringLeTotal(p.value, q.value);
  }

  // ------------------------------------------------------------- the multimap

  /** How often the values hold a pair: an empty list of values is no pair at all. */
  function Times(v: Values, p: Pair): nat { if p.key in v then multiset(v[p.key])[p.value] else 0 }

  ghost predicate SameMultimap(v: Values, w: Values) { forall p :: Times(v, p) == Times(w, p) }

  /** The pairs of the values, each as often as it occurs, in order. */
  ghost predicate IsCanonical(v: Values, pairs: seq<Pair>) {
    Sorted(pairs, PairLe) && forall p :: multiset(pairs)[p] == Times(v, p)
  }

  lemma FirstIsLeast(s: seq<Pair>, p: Pair)
    requires Sorted(s, PairLe) && p in s
    ensures s[0] == p || PairLe(s[0], p)
  {}

  lemma {:induction false} SortedIsUnique(s: seq<Pair>, t: seq<Pair>)
    requires Sorted(s, PairLe) && Sorted(t, PairLe) && multiset(s) == multiset(t)
    ensures s == t
  {
    assert forall p :: p in t ==> p in multiset(t);
    if s != [] {
      assert s[0] in multiset(t);
      assert t[0] in multiset(s);
      FirstIsLeast(s, t[0]);
      FirstIsLeast(t, s[0]);
      if s[0] != t[0] { PairLeAntisymmetric(s[0], t[0]); }
      TailsPermute(s, t);
      SortedIsUnique(s[1..], t[1..]);
      assert s == [s[0]] + s[1..] && t == [t[0]] + t[1..];
    }
  }

  lemma TailsPermute(s: seq<Pair>, t: seq<Pair>)
    requires multiset(s) == multiset(t) && s != [] && t != [] && s[0] == t[0]
    ensures multiset(s[1..]) == multiset(t[1..])
  {
    assert s == [s[0]] + s[1..] && t == [t[0]] + t[1..];
    assert multiset(s[1..]) == multiset(s) - multiset{s[0]};
    assert multiset(t[1..]) == multiset(t) - multiset{t[0]};
  }

  // ----------------------------------------------------------------- the string

  function Part(p: Pair): Bytes { Encode(p.key, true) + [EQUALS] + Encode(p.value, true) }

  function Join(parts: seq<Bytes>): Bytes {
    if parts == [] then [] else if |parts| == 1 then parts[0] else parts[0] + [AMPERSAND] + Join(parts[1..])
  }

  function Parts(pairs: seq<Pair>): (r: seq<Bytes>)
    ensures |r| == |pairs|
  {
    seq(|pairs|, i requires 0 <= i < |pairs| => Part(pairs[i]))
  }

  function Query(pairs: seq<Pair>): Bytes { Join(Parts(pairs)) }

  /** A piece of a query, and what follows the separator; nothing follows when there is none. */
  function Cut(s: Bytes, sep: Byte): (r: (Bytes, Bytes))
    ensures |r.1| <= |s| && (s != [] ==> |r.1| < |s|)
  {
    if s == [] then ([], [])
    else if s[0] == sep then ([], s[1..])
    else var r := Cut(s[1..], sep); ([s[0]] + r.0, r.1)
  }

  /** One piece, read as the receiver reads it; a malformed piece is dropped. */
  function ReadPiece(piece: Bytes): seq<Pair> {
    var (k, v) := Cut(piece, EQUALS);
    if piece == [] || SEMICOLON in piece || Decode(k, true).None? || Decode(v, true).None? then []
    else [Pair(Decode(k, true).value, Decode(v, true).value)]
  }

  function Parse(query: Bytes): seq<Pair>
    decreases |query|
  {
    if query == [] then []
    else
      var (piece, rest) := Cut(query, AMPERSAND);
      ReadPiece(piece) + Parse(rest)
  }

  /** The values a list of pairs is read into. */
  function ToValues(pairs: seq<Pair>): Values {
    if pairs == [] then map[]
    else
      var v, p := ToValues(pairs[..|pairs| - 1]), pairs[|pairs| - 1];
      v[p.key := (if p.key in v then v[p.key] else []) + [p.value]]
  }

  lemma {:induction false} CutAt(a: Bytes, sep: Byte, b: Bytes)
    requires sep !in a
    ensures Cut(a + [sep] + b, sep) == (a, b)
    ensures Cut(a, sep) == (a, [])
  {
    if a == [] {
      assert ([sep] + b)[1..] == b;
      assert a + [sep] + b == [sep] + b;
    } else {
      CutAt(a[1..], sep, b);
      assert (a + [sep] + b)[1..] == a[1..] + [sep] + b;
      assert [a[0]] + a[1..] == a;
    }
  }

  lemma PartReadsBack(p: Pair)
    ensures ReadPiece(Part(p)) == [p] && AMPERSAND !in Part(p)
  {
    EncodedBytes(p.key, true);
    EncodedBytes(p.value, true);
    DecodeUndoesEncode(p.key, true, true);
    DecodeUndoesEncode(p.value, true, true);
    CutAt(Encode(p.key, true), EQUALS, Encode(p.value, true));
  }

  /** The receiver reads exactly the pairs that were signed, in their order. */
  lemma {:induction false} ParseUndoesQuery(pairs: seq<Pair>)
    ensures Parse(Query(pairs)) == pairs
  {
    if pairs != [] {
      var part, rest := Part(pairs[0]), Query(pairs[1..]);
      PartReadsBack(pairs[0]);
      CutAt(part, AMPERSAND, rest);
      assert Parts(pairs)[1..] == Parts(pairs[1..]);
      assert part[|Encode(pairs[0].key, true)|] == EQUALS;
      if |pairs| > 1 { ParseUndoesQuery(pairs[1..]); }
      assert pairs == [pairs[0]] + pairs[1..];
    }
  }

  lemma {:induction false} TimesRead(pairs: seq<Pair>, p: Pair)
    ensures Times(ToValues(pairs), p) == multiset(pairs)[p]
  {
    if pairs != [] {
      var before, last := pairs[..|pairs| - 1], pairs[|pairs| - 1];
      TimesRead(before, p);
      assert pairs == before + [last];
    }
  }

  // ------------------------------------------------------------ main results

  /**
   * The canonical string depends on the multimap and nothing else, and fixes
   * it: two sets of values have the same string exactly when every pair occurs
   * equally often in both.
   */
  lemma CanonicalIffSameMultimap(v: Values, w: Values, ps: seq<Pair>, qs: seq<Pair>)
    requires IsCanonical(v, ps) && IsCanonical(w, qs)
    ensures Query(ps) == Query(qs) <==> SameMultimap(v, w)
  {
    if SameMultimap(v, w) {
      forall p ensures multiset(ps)[p] == multiset(qs)[p] { assert Times(v, p) == Times(w, p); }
      assert multiset(ps) == multiset(qs);
      SortedIsUnique(ps, qs);
    }
    if Query(ps) == Query(qs) {
      ParseUndoesQuery(ps);
      ParseUndoesQuery(qs);
      forall p ensures Times(v, p) == Times(w, p) { assert multiset(ps)[p] == multiset(qs)[p]; }
    }
  }

  /** What the receiver reads is the multimap that was signed, and canonicalising it again changes nothing. */
  lemma CanonicalIsStable(v: Values, ps: seq<Pair>, qs: seq<Pair>)
    requires IsCanonical(v, ps) && IsCanonical(ToValues(Parse(Query(ps))), qs)
    ensures SameMultimap(v, ToValues(Parse(Query(ps)))) && Query(qs) == Query(ps)
  {
    ParseUndoesQuery(ps);
    forall p ensures Times(v, p) == Times(ToValues(ps), p) { TimesRead(ps, p); }
    CanonicalIffSameMultimap(v, ToValues(ps), ps, qs);
  }

  // --------------------------------------------- the order of the encoded string

  /** At the first byte where they differ, the smaller one is literal and the larger one is escaped. */
  predicate Misordered(a: Bytes, b: Bytes) {
    && a != [] && b != []
    && if a[0] == b[0] then Misordered(a[1..], b[1..])
       else Literal(if a[0] < b[0] then a[0] else b[0], true) && !Literal(if a[0] < b[0] then b[0] else a[0], true)
  }

  lemma ConsCompare(x: Byte, y: Byte, s: Bytes, t: Bytes)
    ensures StringLe([x] + s, [y] + t) <==> x < y || (x == y && StringLe(s, t))
  {
    assert ([x] + s)[1..] == s && ([y] + t)[1..] == t;
  }

  lemma EscapeIs(c: Byte, s: Bytes)
    requires !Literal(c, true)
    ensures EncodeByte(c, true) + s == [PERCENT] + ([HexDigit(c / 16)] + ([HexDigit(c % 16)] + s))
  {}

  lemma EscapesCompare(x: Byte, y: Byte, s: Bytes, t: Bytes)
    requires !Literal(x, true) && !Literal(y, true)
    ensures StringLe(EncodeByte(x, true) + s, EncodeByte(y, true) + t) <==> x < y || (x == y && StringLe(s, t))
  {
    EscapeIs(x, s);
    EscapeIs(y, t);
    var x1, y1 := [HexDigit(x % 16)] + s, [HexDigit(y % 16)] + t;
    ConsCompare(HexDigit(x % 16), HexDigit(y % 16), s, t);
    ConsCompare(HexDigit(x / 16), HexDigit(y / 16), x1, y1);
    ConsCompare(PERCENT, PERCENT, [HexDigit(x / 16)] + x1, [HexDigit(y / 16)] + y1);
    HexCompares(x, y);
  }

  lemma HexCompares(x: Byte, y: Byte)
    ensures var (a, b, c, d) := (HexDigit(x / 16), HexDigit(x % 16), HexDigit(y / 16), HexDigit(y % 16));
      (x < y <==> a < c || (a == c && b < d)) && (x == y <==> a == c && b == d)
  {
    assert x == x / 16 * 16 + x % 16 && y == y / 16 * 16 + y % 16;
  }

  lemma SameHead(c: Byte, s: Bytes, t: Bytes)
    ensures StringLe(EncodeByte(c, true) + s, EncodeByte(c, true) + t) <==> StringLe(s, t)
  {
    if Literal(c, true) { ConsCompare(c, c, s, t); } else { EscapesCompare(c, c, s, t); }
  }

  /** An escape is less than any literal byte, and escapes compare as their bytes do. */
  lemma HeadsCompare(x: Byte, y: Byte, s: Bytes, t: Bytes)
    requires x != y
    ensures StringLe(EncodeByte(x, true) + s, EncodeByte(y, true) + t)
      <==> if Literal(x, true) == Literal(y, true) then x < y else !Literal(x, true)
  {
    if !Literal(x, true) && !Literal(y, true) {
      EscapesCompare(x, y, s, t);
    } else if !Literal(x, true) {
      EscapeIs(x, s);
    } else if !Literal(y, true) {
      EscapeIs(y, t);
    }
  }

  /** Byte strings compare as their encodings do if and only if they are not misordered. */
  lemma {:induction false} EncodedOrderIff(a: Bytes, b: Bytes)
    ensures (StringLe(a, b) <==> StringLe(Encode(a, true), Encode(b, true))) <==> !Misordered(a, b)
  {
    if a != [] && b != [] {
      if a[0] == b[0] {
        EncodedOrderIff(a[1..], b[1..]);
        SameHead(a[0], Encode(a[1..], true), Encode(b[1..], true));
      } else {
        HeadsCompare(a[0], b[0], Encode(a[1..], true), Encode(b[1..], true));
      }
    }
  }

  predicate EncodedLe(p: Pair, q: Pair) {
    if p.key == q.key then StringLe(Encode(p.value, true), Encode(q.value, true))
    else StringLe(Encode(p.key, true), Encode(q.key, true))
  }

  predicate PairMisordered(p: Pair, q: Pair) {
    if p.key == q.key then Misordered(p.value, q.value) else Misordered(p.key, q.key)
  }

  /**
   * The pairs are sorted before they are encoded, where the signature's rule
   * sorts the encoded ones. The two orders agree if and only if no two keys, and
   * no two values of one key, are misordered.
   */
  lemma RawOrderIsEncodedOrderIff(pairs: seq<Pair>)
    requires Sorted(pairs, PairLe)
    ensures Sorted(pairs, EncodedLe) <==> forall i, j :: 0 <= i < j < |pairs| ==> !PairMisordered(pairs[i], pairs[j])
  {
    forall i, j | 0 <= i < j < |pairs| ensures EncodedLe(pairs[i], pairs[j]) <==> !PairMisordered(pairs[i], pairs[j]) {
      EncodedOrderIff(pairs[i].key, pairs[j].key);
      EncodedOrderIff(pairs[i].value, pairs[j].value);
    }
  }

  /** The keys "aZ" and "a{" sort one way as they are and the other way encoded. */
  lemma RawOrderCanDiffer(v: Bytes)
    ensures var pairs := [Pair([0x61, 0x5A], v), Pair([0x61, 0x7B], v)];
      Sorted(pairs, PairLe) && !Sorted(pairs, EncodedLe)
  {
    var a, b := [0x61, 0x5A], [0x61, 0x7B];
    var pairs := [Pair(a, v), Pair(b, v)];
    assert a[1..] == [0x5A] && b[1..] == [0x7B];
    assert PairMisordered(pairs[0], pairs[1]);
    RawOrderIsEncodedOrderIff(pairs);
  }

  // ----------------------------------------------------------------- the method

  /** sort.Strings on a copy. */
  method SortStrings(s: seq<Bytes>) returns (sorted: seq<Bytes>)
    ensures multiset(sorted) == multiset(s)
    ensures Sorted(sorted, StringLe)
  {
    var a := new Bytes[|s|](i requires 0 <= i < |s| => s[i]);
    assert a[..] == s;
    StringsCompare();
    Sort(a, StringLe);
    sorted := a[..];
  }

  /** The keys in any order, as ranging over the map gives them. */
  method KeysOf(v: Values) returns (keys: seq<Bytes>)
    ensures multiset(keys) == multiset(v.Keys)
  {
    keys := [];
    var rest := v.Keys;
    while rest != {}
      invariant rest <= v.Keys
      invariant multiset(keys) == multiset(v.Keys - rest)
      decreases |rest|
    {
      var k :| k in rest;
      keys := keys + [k];
      assert v.Keys - (rest - {k}) == (v.Keys - rest) + {k};
      rest := rest - {k};
    }
    assert v.Keys - rest == v.Keys;
  }

  function PairsOf(key: Bytes, vals: seq<Bytes>): (r: seq<Pair>)
    ensures |r| == |vals|
  {
    seq(|vals|, i requires 0 <= i < |vals| => Pair(key, vals[i]))
  }

  /** The pairs of the keys done so far. */
  ghost predicate CanonicalUpTo(v: Values, done: seq<Bytes>, pairs: seq<Pair>) {
    && Sorted(pairs, PairLe)
    && (forall p :: multiset(pairs)[p] == if p.key in done then Times(v, p) else 0)
  }

  lemma {:induction false} CountPairs(key: Bytes, vals: seq<Bytes>, p: Pair)
    ensures multiset(PairsOf(key, vals))[p] == if p.key == key then multiset(vals)[p.value] else 0
  {
    if vals != [] {
      var before := vals[..|vals| - 1];
      CountPairs(key, before, p);
      assert vals == before + [vals[|vals| - 1]];
      assert PairsOf(key, vals) == PairsOf(key, before) + [Pair(key, vals[|vals| - 1])];
    }
  }

  lemma KeyAppends(v: Values, done: seq<Bytes>, pairs: seq<Pair>, key: Bytes, vals: seq<Bytes>)
    requires CanonicalUpTo(v, done, pairs) && key in v && key !in done
    requires multiset(vals) == multiset(v[key]) && Sorted(vals, StringLe)
    requires forall k :: k in done ==> StringLe(k, key)
    ensures CanonicalUpTo(v, done + [key], pairs + PairsOf(key, vals))
  {
    var ps := PairsOf(key, vals);
    forall p ensures multiset(pairs + ps)[p] == if p.key in done + [key] then Times(v, p) else 0 {
      CountPairs(key, vals, p);
    }
    forall p | p in pairs ensures p.key in done {
      assert multiset(pairs)[p] > 0;
    }
    LaterKeySorts(pairs, key, vals);
  }

  lemma LaterKeySorts(pairs: seq<Pair>, key: Bytes, vals: seq<Bytes>)
    requires Sorted(pairs, PairLe) && Sorted(vals, StringLe)
    requires forall p :: p in pairs ==> p.key != key && StringLe(p.key, key)
    ensures Sorted(pairs + PairsOf(key, vals), PairLe)
  {
    var all, n := pairs + PairsOf(key, vals), |pairs|;
    forall i, j | 0 <= i < j < |all| ensures PairLe(all[i], all[j]) {
      if i < n <= j { assert all[i] in pairs && all[j].key == key; }
    }
  }

  /** The inner loop: one key's encoded pairs. */
  method KeyParts(key: Bytes, vals: seq<Bytes>) returns (parts: seq<Bytes>)
    ensures parts == Parts(PairsOf(key, vals))
  {
    parts := [];
    for i := 0 to |vals|
      invariant parts == Parts(PairsOf(key, vals)[..i])
    {
      var k := AwsUriEncode(key, true);
      var val := AwsUriEncode(vals[i], true);
      assert PairsOf(key, vals)[..i + 1] == PairsOf(key, vals)[..i] + [Pair(key, vals[i])];
      parts := parts + [k + [EQUALS] + val];
    }
  }

  lemma PartsAppend(a: seq<Pair>, b: seq<Pair>)
    ensures Parts(a + b) == Parts(a) + Parts(b)
  {}

  /** The outer loop's body: one more key, with its values in order. */
  method AppendKey(v: Values, ghost done: seq<Bytes>, k: Bytes, parts: seq<Bytes>, ghost pairs: seq<Pair>)
      returns (parts': seq<Bytes>, ghost pairs': seq<Pair>)
    requires CanonicalUpTo(v, done, pairs) && parts == Parts(pairs) && k in v && k !in done
    requires forall j :: j in done ==> StringLe(j, k)
    ensures CanonicalUpTo(v, done + [k], pairs') && parts' == Parts(pairs')
  {
    var vals := SortStrings(v[k]);
    var more := KeyParts(k, vals);
    KeyAppends(v, done, pairs, k, vals);
    PartsAppend(pairs, PairsOf(k, vals));
    parts', pairs' := parts + more, pairs + PairsOf(k, vals);
  }

  method CanonicalQueryString(v: Values) returns (query: Bytes)
    ensures exists pairs :: IsCanonical(v, pairs) && query == Query(pairs)
  {
    var any := KeysOf(v);
    var keys := SortStrings(any);
    var parts: seq<Bytes> := [];
    ghost var pairs: seq<Pair> := [];
    KeysAreDistinct(v, keys);
    for i := 0 to |keys|
      invariant CanonicalUpTo(v, keys[..i], pairs)
      invariant parts == Parts(pairs)
    {
      assert keys[..i + 1] == keys[..i] + [keys[i]];
      parts, pairs := AppendKey(v, keys[..i], keys[i], parts, pairs);
    }
    assert keys[..|keys|] == keys;
    assert IsCanonical(v, pairs);
    query := Join(parts);
  }

  lemma KeysAreDistinct(v: Values, keys: seq<Bytes>)
    requires multiset(keys) == multiset(v.Keys)
    ensures forall k :: k in keys <==> k in v
    ensures forall i, j :: 0 <= i < j < |keys| ==> keys[i] != keys[j]
  {
    forall k ensures k in keys <==> k in v {
      assert k in multiset(keys) <==> k in multiset(v.Keys);
    }
    forall i, j | 0 <= i < j < |keys| ensures keys[i] != keys[j] {
      if keys[i] == keys[j] { TwiceIn(keys, i, j); }
    }
  }
}
