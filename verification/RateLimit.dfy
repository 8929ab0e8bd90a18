/**
 * The control API's token bucket, one bucket per key. Time is in seconds and,
 * like tokens, a real number; rounding is not modelled.
 */
module RateLimit {
  import opened Common

  type Key = string

  datatype Bucket = Bucket(tokens: real, last: real)

  datatype Limits = Limits(rate: real, burst: real) {
    predicate Valid() { rate > 0.0 && burst >= 20.0 }
  }

  /** newRateLimiter: no limiter at all for perMin <= 0, else about ten seconds of headroom, at least 20. */
  function ForPerMinute(perMin: int): (r: Option<Limits>)
    ensures r.Some? <==> perMin > 0
    ensures r.Some? ==> r.value.rate * 60.0 == perMin as real
    ensures r.Some? ==> r.value.Valid() && r.value.burst >= 10.0 * r.value.rate
    ensures r.Some? && r.value.burst > 20.0 ==> r.value.burst == 10.0 * r.value.rate
  {
    if perMin <= 0 then None
    else
      var b := perMin as real / 6.0;
      Some(Limits(perMin as real / 60.0, if b < 20.0 then 20.0 else b))
  }

  /** The tokens earned between two instants. */
  function Earned(l: Limits, since: real, until: real): real { (until - since) * l.rate }

  function Capped(l: Limits, t: real): real { if t > l.burst then l.burst else t }

  /** The bucket refilled up to now, and never past the burst. */
  function Refilled(l: Limits, b: Bucket, now: real): Bucket {
    Bucket(Capped(l, b.tokens + Earned(l, b.last, now)), now)
  }

  lemma MulNonNegative(x: real, y: real)
    requires x >= 0.0 && y >= 0.0
    ensures x * y >= 0.0
  {}

  lemma EarnedNonNegative(l: Limits, a: real, b: real)
    requires l.Valid() && a <= b
    ensures Earned(l, a, b) >= 0.0
  {
    MulNonNegative(b - a, l.rate);
  }

  lemma EarnedAdds(l: Limits, a: real, b: real, c: real)
    requires l.Valid() && a <= b <= c
    ensures Earned(l, a, b) >= 0.0 && Earned(l, b, c) >= 0.0
    ensures Earned(l, a, c) == Earned(l, a, b) + Earned(l, b, c)
  {
    EarnedNonNegative(l, a, b);
    EarnedNonNegative(l, b, c);
  }

  function Step(l: Limits, b: Bucket, now: real): (Bucket, bool) {
    var r := Refilled(l, b, now);
    if r.tokens >= 1.0 then (r.(tokens := r.tokens - 1.0), true) else (r, false)
  }

  type Buckets = map<Key, Bucket>

  function BucketOf(l: Limits, bs: Buckets, key: Key, now: real): Bucket {
    if key in bs then bs[key] else Bucket(l.burst, now)
  }

  function Allow(l: Limits, bs: Buckets, key: Key, now: real): (Buckets, bool) {
    var (b, ok) := Step(l, BucketOf(l, bs, key, now), now);
    (bs[key := b], ok)
  }

  datatype Request = Request(key: Key, at: real)

  /** The answers to a sequence of requests. */
  function Answers(l: Limits, bs: Buckets, rs: seq<Request>): (a: seq<bool>)
    ensures |a| == |rs|
    decreases |rs|
  {
    if rs == [] then []
    else
      var (next, ok) := Allow(l, bs, rs[0].key, rs[0].at);
      [ok] + Answers(l, next, rs[1..])
  }

  predicate InOrder(rs: seq<Request>) {
    forall i, j :: 0 <= i < j < |rs| ==> rs[i].at <= rs[j].at
  }

  /** Buckets as they are before time t: between empty and full, last used no later. */
  predicate ValidAt(l: Limits, bs: Buckets, t: real) {
    forall k :: k in bs ==> 0.0 <= bs[k].tokens <= l.burst && bs[k].last <= t
  }

  lemma AllowKeepsValid(l: Limits, bs: Buckets, key: Key, now: real)
    requires l.Valid() && ValidAt(l, bs, now)
    ensures ValidAt(l, Allow(l, bs, key, now).0, now)
  {
    var b := BucketOf(l, bs, key, now);
    EarnedAdds(l, b.last, now, now);
    var r := Refilled(l, b, now);
    assert 0.0 <= r.tokens <= l.burst;
  }

  /** How many of the key's requests are allowed. */
  function Allowed(rs: seq<Request>, answers: seq<bool>, key: Key): nat
    requires |rs| == |answers|
    decreases |rs|
  {
    if rs == [] then 0
    else (if rs[0].key == key && answers[0] then 1 else 0) + Allowed(rs[1..], answers[1..], key)
  }

  /** The tokens a key has at time t, refilled. */
  function TokensAt(l: Limits, bs: Buckets, key: Key, t: real): real {
    Refilled(l, BucketOf(l, bs, key, t), t).tokens
  }

  /** Waiting earns at most rate tokens a second. */
  lemma EarnedMeanwhile(l: Limits, bs: Buckets, key: Key, t: real, now: real)
    requires l.Valid() && ValidAt(l, bs, t) && t <= now
    ensures TokensAt(l, bs, key, now) <= TokensAt(l, bs, key, t) + Earned(l, t, now)
    ensures TokensAt(l, bs, key, t) >= 0.0
  {
    EarnedAdds(l, BucketOf(l, bs, key, t).last, t, now);
  }

  /** One request spends what it is allowed, and another key's request spends nothing of this one's. */
  lemma OneSpends(l: Limits, bs: Buckets, r: Request, key: Key)
    requires l.Valid() && ValidAt(l, bs, r.at)
    ensures var (next, ok) := Allow(l, bs, r.key, r.at);
      TokensAt(l, next, key, r.at) == TokensAt(l, bs, key, r.at) - if r.key == key && ok then 1.0 else 0.0
  {
    var (next, ok) := Allow(l, bs, r.key, r.at);
    AllowKeepsValid(l, bs, r.key, r.at);
    EarnedAdds(l, r.at, r.at, r.at);
    if r.key == key {
      assert BucketOf(l, next, key, r.at) == next[key];
    } else {
      assert BucketOf(l, next, key, r.at) == BucketOf(l, bs, key, r.at);
    }
  }

  lemma {:induction false} SpendingIsBounded(l: Limits, bs: Buckets, rs: seq<Request>, key: Key, t: real, u: real)
    requires l.Valid() && ValidAt(l, bs, t) && InOrder(rs)
    requires t <= u && forall i :: 0 <= i < |rs| ==> t <= rs[i].at <= u
    ensures Allowed(rs, Answers(l, bs, rs), key) as real <= TokensAt(l, bs, key, t) + Earned(l, t, u)
    decreases |rs|
  {
    EarnedMeanwhile(l, bs, key, t, t);
    EarnedAdds(l, t, t, u);
    if rs != [] {
      var now := rs[0].at;
      var next := Allow(l, bs, rs[0].key, now).0;
      AllowKeepsValid(l, bs, rs[0].key, now);
      SpendingIsBounded(l, next, rs[1..], key, now, u);
      EarnedMeanwhile(l, bs, key, t, now);
      OneSpends(l, bs, rs[0], key);
      EarnedAdds(l, t, now, u);
      AllowedSplits(l, bs, rs, key);
    }
  }

  lemma AllowedSplits(l: Limits, bs: Buckets, rs: seq<Request>, key: Key)
    requires rs != []
    ensures var (next, ok) := Allow(l, bs, rs[0].key, rs[0].at);
      Allowed(rs, Answers(l, bs, rs), key)
      == (if rs[0].key == key && ok then 1 else 0) + Allowed(rs[1..], Answers(l, next, rs[1..]), key)
  {
    var next := Allow(l, bs, rs[0].key, rs[0].at).0;
    assert Answers(l, bs, rs)[1..] == Answers(l, next, rs[1..]);
  }

  function After(l: Limits, bs: Buckets, rs: seq<Request>): Buckets
    decreases |rs|
  {
    if rs == [] then bs else After(l, Allow(l, bs, rs[0].key, rs[0].at).0, rs[1..])
  }

  lemma {:induction false} AfterIsValid(l: Limits, bs: Buckets, rs: seq<Request>, t: real, u: real)
    requires l.Valid() && ValidAt(l, bs, t) && InOrder(rs) && t <= u
    requires forall i :: 0 <= i < |rs| ==> t <= rs[i].at <= u
    ensures ValidAt(l, After(l, bs, rs), u)
    decreases |rs|
  {
    if rs != [] {
      AllowKeepsValid(l, bs, rs[0].key, rs[0].at);
      AfterIsValid(l, Allow(l, bs, rs[0].key, rs[0].at).0, rs[1..], rs[0].at, u);
    }
  }

  lemma {:induction false} AnswersSplit(l: Limits, bs: Buckets, a: seq<Request>, b: seq<Request>)
    ensures Answers(l, bs, a + b) == Answers(l, bs, a) + Answers(l, After(l, bs, a), b)
    decreases |a|
  {
    if a == [] {
      assert a + b == b;
    } else {
      assert (a + b)[1..] == a[1..] + b;
      AnswersSplit(l, Allow(l, bs, a[0].key, a[0].at).0, a[1..], b);
    }
  }

  // ------------------------------------------------------------ main results

  /**
   * In every window of every run, a key is allowed at most burst + rate * length
   * requests: window is the requests made in [t, u], before and after the rest.
   */
  lemma WindowIsBounded(l: Limits, before: seq<Request>, window: seq<Request>, after: seq<Request>,
                        key: Key, t: real, u: real)
    requires l.Valid() && InOrder(before + window + after) && t <= u
    requires forall i :: 0 <= i < |before| ==> 0.0 <= before[i].at <= t
    requires forall i :: 0 <= i < |window| ==> t <= window[i].at <= u
    requires 0.0 <= t
    ensures var all := Answers(l, map[], before + window + after);
      Allowed(window, all[|before|..|before| + |window|], key) as real <= l.burst + Earned(l, t, u)
  {
    var rs := before + window + after;
    assert forall i :: 0 <= i < |before| ==> rs[i] == before[i];
    assert forall i :: 0 <= i < |window| ==> rs[|before| + i] == window[i];
    var bs := After(l, map[], before);
    AfterIsValid(l, map[], before, 0.0, t);
    SpendingIsBounded(l, bs, window, key, t, u);
    AnswersSplit(l, map[], before, window);
    AnswersSplit(l, map[], before + window, after);
    assert Answers(l, map[], rs)[|before|..|before| + |window|] == Answers(l, bs, window);
    var b := BucketOf(l, bs, key, t);
    assert TokensAt(l, bs, key, t) <= l.burst;
  }

  function Only(rs: seq<Request>, key: Key): seq<Request> {
    if rs == [] then [] else (if rs[0].key == key then [rs[0]] else []) + Only(rs[1..], key)
  }

  function OnlyAnswers(rs: seq<Request>, answers: seq<bool>, key: Key): seq<bool>
    requires |rs| == |answers|
    decreases |rs|
  {
    if rs == [] then [] else (if rs[0].key == key then [answers[0]] else []) + OnlyAnswers(rs[1..], answers[1..], key)
  }

  /** One key's traffic never changes another's answers: a key is answered as if it were alone. */
  lemma {:induction false} KeysAreIndependent(l: Limits, bs: Buckets, cs: Buckets, rs: seq<Request>, key: Key)
    requires key in bs <==> key in cs
    requires key in bs ==> bs[key] == cs[key]
    ensures OnlyAnswers(rs, Answers(l, bs, rs), key) == Answers(l, cs, Only(rs, key))
    decreases |rs|
  {
    if rs != [] {
      var r := rs[0];
      var next := Allow(l, bs, r.key, r.at).0;
      assert Answers(l, bs, rs)[1..] == Answers(l, next, rs[1..]);
      if r.key == key {
        var alone := Allow(l, cs, r.key, r.at).0;
        KeysAreIndependent(l, next, alone, rs[1..], key);
        assert ([r] + Only(rs[1..], key))[1..] == Only(rs[1..], key);
      } else {
        KeysAreIndependent(l, next, cs, rs[1..], key);
        assert [] + Only(rs[1..], key) == Only(rs[1..], key);
      }
    }
  }

  predicate Spaced(l: Limits, rs: seq<Request>, from: real)
    requires l.Valid()
    decreases |rs|
  {
    rs == [] || (rs[0].at >= from && Spaced(l, rs[1..], rs[0].at + 1.0 / l.rate))
  }

  /** A key that spaces its requests at least 1 / rate apart is never refused. */
  lemma {:induction false} SpacedIsNeverRefused(l: Limits, bs: Buckets, rs: seq<Request>, key: Key, from: real)
    requires l.Valid() && (forall i :: 0 <= i < |rs| ==> rs[i].key == key) && Spaced(l, rs, from)
    requires key in bs ==> bs[key].last + 1.0 / l.rate <= from && 0.0 <= bs[key].tokens
    ensures forall i :: 0 <= i < |rs| ==> Answers(l, bs, rs)[i]
    decreases |rs|
  {
    if rs != [] {
      var now := rs[0].at;
      OneIsAllowed(l, bs, key, now);
      var next := Allow(l, bs, key, now).0;
      SpacedIsNeverRefused(l, next, rs[1..], key, now + 1.0 / l.rate);
      var rest := Answers(l, next, rs[1..]);
      assert Answers(l, bs, rs) == [true] + rest;
      forall i | 0 <= i < |rs| ensures Answers(l, bs, rs)[i] {
        if i > 0 { assert Answers(l, bs, rs)[i] == rest[i - 1]; }
      }
    }
  }

  /** And this holds whatever the other keys send in between. */
  lemma SpacedAmongOthers(l: Limits, rs: seq<Request>, key: Key, from: real)
    requires l.Valid() && Spaced(l, Only(rs, key), from)
    ensures forall i :: 0 <= i < |OnlyAnswers(rs, Answers(l, map[], rs), key)|
              ==> OnlyAnswers(rs, Answers(l, map[], rs), key)[i]
  {
    KeysAreIndependent(l, map[], map[], rs, key);
    OnlyKeeps(rs, key);
    SpacedIsNeverRefused(l, map[], Only(rs, key), key, from);
  }

  lemma {:induction false} OnlyKeeps(rs: seq<Request>, key: Key)
    ensures forall i :: 0 <= i < |Only(rs, key)| ==> Only(rs, key)[i].key == key
  {
    if rs != [] { OnlyKeeps(rs[1..], key); }
  }

  lemma OneIsAllowed(l: Limits, bs: Buckets, key: Key, now: real)
    requires l.Valid()
    requires key in bs ==> bs[key].last + 1.0 / l.rate <= now && 0.0 <= bs[key].tokens
    ensures var (next, ok) := Allow(l, bs, key, now);
      ok && key in next && next[key].last == now && next[key].tokens >= 0.0
  {
    if key in bs { EarnsOne(l, now - bs[key].last); } else { EarnedAdds(l, now, now, now); }
    var b := BucketOf(l, bs, key, now);
    assert b.tokens + Earned(l, b.last, now) >= 1.0;
  }

  lemma EarnsOne(l: Limits, d: real)
    requires l.Valid() && d >= 1.0 / l.rate
    ensures d * l.rate >= 1.0
  {
    assert (1.0 / l.rate) * l.rate == 1.0;
    assert (d - 1.0 / l.rate) * l.rate >= 0.0;
  }

  // ------------------------------------------------- a refusal is never idle

  /** What the bound of WindowIsBounded leaves at now of the window that begins with request i. */
  ghost function LeftOf(l: Limits, h: seq<Request>, i: nat, key: Key, now: real): real
    requires i < |h|
  {
    l.burst + Earned(l, h[i].at, now) - Allowed(h[i..], Answers(l, map[], h)[i..], key) as real
  }

  lemma {:induction false} AllowedGrows(rs: seq<Request>, answers: seq<bool>, r: Request, ok: bool, key: Key)
    requires |rs| == |answers|
    ensures Allowed(rs + [r], answers + [ok], key)
      == Allowed(rs, answers, key) + if r.key == key && ok then 1 else 0
    decreases |rs|
  {
    if rs != [] {
      assert (rs + [r])[1..] == rs[1..] + [r] && (answers + [ok])[1..] == answers[1..] + [ok];
      AllowedGrows(rs[1..], answers[1..], r, ok, key);
    }
  }

  /** One more request takes at most one from every window that it ends. */
  lemma LeftShrinks(l: Limits, h: seq<Request>, i: nat, r: Request, now: real)
    requires l.Valid() && i < |h| && h[i].at <= r.at <= now
    ensures var ok := Allow(l, After(l, map[], h), r.key, r.at).1;
      LeftOf(l, h + [r], i, r.key, now)
      == LeftOf(l, h, i, r.key, r.at) + Earned(l, r.at, now) - if ok then 1.0 else 0.0
  {
    var ok := Allow(l, After(l, map[], h), r.key, r.at).1;
    AnswersSplit(l, map[], h, [r]);
    var answers := Answers(l, map[], h);
    assert Answers(l, map[], h + [r]) == answers + [ok];
    assert (h + [r])[i..] == h[i..] + [r] && (answers + [ok])[i..] == answers[i..] + [ok];
    AllowedGrows(h[i..], answers[i..], r, ok, r.key);
    EarnedAdds(l, h[i].at, r.at, now);
  }

  lemma LeftOfTheLast(l: Limits, h: seq<Request>, r: Request, now: real)
    requires l.Valid() && r.at <= now
    ensures var ok := Allow(l, After(l, map[], h), r.key, r.at).1;
      LeftOf(l, h + [r], |h|, r.key, now) == l.burst + Earned(l, r.at, now) - if ok then 1.0 else 0.0
  {
    var ok := Allow(l, After(l, map[], h), r.key, r.at).1;
    AnswersSplit(l, map[], h, [r]);
    assert Answers(l, map[], h + [r]) == Answers(l, map[], h) + [ok];
    assert (h + [r])[|h|..] == [r] && (Answers(l, map[], h) + [ok])[|h|..] == [ok];
    AllowedGrows([], [], r, ok, r.key);
    assert [] + [r] == [r] && [] + [ok] == [ok];
  }

  lemma {:induction false} AfterSplits(l: Limits, bs: Buckets, a: seq<Request>, r: Request)
    ensures After(l, bs, a + [r]) == Allow(l, After(l, bs, a), r.key, r.at).0
    decreases |a|
  {
    if a == [] {
      assert a + [r] == [r];
    } else {
      assert (a + [r])[1..] == a[1..] + [r];
      AfterSplits(l, Allow(l, bs, a[0].key, a[0].at).0, a[1..], r);
    }
  }

  /** One key's requests, in order, up to now. */
  ghost predicate History(h: seq<Request>, key: Key, now: real) {
    && InOrder(h)
    && forall i :: 0 <= i < |h| ==> h[i].key == key && 0.0 <= h[i].at <= now
  }

  ghost function Lefts(l: Limits, h: seq<Request>, key: Key, now: real): seq<real> {
    seq(|h|, i requires 0 <= i < |h| => LeftOf(l, h, i, key, now))
  }

  /** t is the burst or one of the numbers, and none of these is less. */
  predicate IsLeast(t: real, lefts: seq<real>, burst: real, i: nat) {
    && t <= burst && (forall j :: 0 <= j < |lefts| ==> t <= lefts[j])
    && i <= |lefts| && t == if i < |lefts| then lefts[i] else burst
  }

  /** The least of windows that all gained e and lost one request, and a new one. */
  lemma LeastOfMore(t: real, was: seq<real>, now: seq<real>, l: Limits, i: nat, e: real, spent: real) returns (k: nat)
    requires IsLeast(t, was, l.burst, i) && |now| == |was| + 1
    requires forall j :: 0 <= j < |was| ==> now[j] == was[j] + e - spent
    requires now[|was|] == l.burst + e - spent
    ensures IsLeast(Capped(l, t + e - spent), now, l.burst, k)
  {
    k := if t + e - spent >= l.burst then |now| else i;
    assert i < |was| ==> now[i] == was[i] + e - spent;
  }

  /** What the key's bucket pays for r. */
  ghost function Spent(l: Limits, h: seq<Request>, r: Request): real {
    if Allow(l, After(l, map[], h), r.key, r.at).1 then 1.0 else 0.0
  }

  lemma OneMoreLeft(l: Limits, h: seq<Request>, r: Request, now: real)
    requires l.Valid() && r.at <= now && forall i :: 0 <= i < |h| ==> h[i].at <= r.at
    ensures var spent, was, lefts := Spent(l, h, r), Lefts(l, h, r.key, r.at), Lefts(l, h + [r], r.key, now);
      && (forall j :: 0 <= j < |h| ==> lefts[j] == was[j] + Earned(l, r.at, now) - spent)
      && lefts[|h|] == l.burst + Earned(l, r.at, now) - spent
  {
    LeftOfTheLast(l, h, r, now);
    var spent := Spent(l, h, r);
    forall j | 0 <= j < |h|
      ensures LeftOf(l, h + [r], j, r.key, now) == LeftOf(l, h, j, r.key, r.at) + Earned(l, r.at, now) - spent
    {
      LeftShrinks(l, h, j, r, now);
    }
  }

  /** What one more request leaves, some time later. */
  lemma TokensAfterOne(l: Limits, h: seq<Request>, r: Request, now: real)
    requires l.Valid() && History(h, r.key, r.at) && 0.0 <= r.at <= now
    ensures TokensAt(l, After(l, map[], h + [r]), r.key, now)
      == Capped(l, TokensAt(l, After(l, map[], h), r.key, r.at) + Earned(l, r.at, now) - Spent(l, h, r))
  {
    var bs := After(l, map[], h);
    AfterIsValid(l, map[], h, 0.0, r.at);
    AfterSplits(l, map[], h, r);
    OneSpends(l, bs, r, r.key);
    AllowKeepsValid(l, bs, r.key, r.at);
    TokensGrow(l, Allow(l, bs, r.key, r.at).0, r.key, r.at, now);
  }

  lemma OneMoreIsLeast(l: Limits, h: seq<Request>, r: Request, now: real, k: nat) returns (i: nat)
    requires l.Valid() && History(h, r.key, r.at) && 0.0 <= r.at <= now
    requires IsLeast(TokensAt(l, After(l, map[], h), r.key, r.at), Lefts(l, h, r.key, r.at), l.burst, k)
    ensures IsLeast(TokensAt(l, After(l, map[], h + [r]), r.key, now), Lefts(l, h + [r], r.key, now), l.burst, i)
  {
    OneMoreLeft(l, h, r, now);
    TokensAfterOne(l, h, r, now);
    i := LeastOfMore(TokensAt(l, After(l, map[], h), r.key, r.at), Lefts(l, h, r.key, r.at), Lefts(l, h + [r], r.key, now),
                     l, k, Earned(l, r.at, now), Spent(l, h, r));
  }

  /**
   * The bucket holds the least that any window up to now has left, or is full:
   * no window has less than the tokens, and window i, if there is one, has just them.
   */
  lemma {:induction false} TokensAreTheLeastLeft(l: Limits, h: seq<Request>, key: Key, now: real) returns (i: nat)
    requires l.Valid() && History(h, key, now)
    ensures IsLeast(TokensAt(l, After(l, map[], h), key, now), Lefts(l, h, key, now), l.burst, i)
    decreases |h|
  {
    if h == [] {
      i := 0;
      EarnedAdds(l, now, now, now);
    } else {
      var n := |h| - 1;
      var before, r := h[..n], h[n];
      assert h == before + [r] && r.key == key;
      var k := TokensAreTheLeastLeft(l, before, key, r.at);
      i := OneMoreIsLeast(l, before, r, now, k);
    }
  }

  lemma TokensGrow(l: Limits, bs: Buckets, key: Key, t: real, now: real)
    requires l.Valid() && ValidAt(l, bs, t) && key in bs && bs[key].last == t && t <= now
    ensures TokensAt(l, bs, key, now) == Capped(l, TokensAt(l, bs, key, t) + Earned(l, t, now))
  {
    EarnedAdds(l, t, t, now);
  }

  /** A key's bucket is the one it would have alone. */
  lemma {:induction false} BucketsAreIndependent(l: Limits, bs: Buckets, cs: Buckets, rs: seq<Request>, key: Key)
    requires key in bs <==> key in cs
    requires key in bs ==> bs[key] == cs[key]
    ensures var (a, b) := (After(l, bs, rs), After(l, cs, Only(rs, key)));
      (key in a <==> key in b) && (key in a ==> a[key] == b[key])
    decreases |rs|
  {
    if rs != [] {
      var r := rs[0];
      var next := Allow(l, bs, r.key, r.at).0;
      if r.key == key {
        BucketsAreIndependent(l, next, Allow(l, cs, r.key, r.at).0, rs[1..], key);
        assert ([r] + Only(rs[1..], key))[1..] == Only(rs[1..], key);
      } else {
        BucketsAreIndependent(l, next, cs, rs[1..], key);
        assert [] + Only(rs[1..], key) == Only(rs[1..], key);
      }
    }
  }

  lemma {:induction false} OnlyIsInOrder(rs: seq<Request>, key: Key, now: real)
    requires InOrder(rs) && forall i :: 0 <= i < |rs| ==> 0.0 <= rs[i].at <= now
    ensures History(Only(rs, key), key, now)
    ensures rs != [] ==> forall i :: 0 <= i < |Only(rs, key)| ==> rs[0].at <= Only(rs, key)[i].at
  {
    if rs != [] {
      OnlyIsInOrder(rs[1..], key, now);
    }
  }

  /**
   * The converse of WindowIsBounded: a request is refused if and only if one more
   * allowed request would break that bound in some window of its own key's that ends with it.
   */
  lemma RefusedIffAWindowIsFull(l: Limits, rs: seq<Request>, r: Request)
    requires l.Valid() && InOrder(rs + [r]) && forall i :: 0 <= i < |rs + [r]| ==> (rs + [r])[i].at >= 0.0
    ensures var mine := Only(rs, r.key);
      !Answers(l, map[], rs + [r])[|rs|]
      <==> exists i :: 0 <= i < |mine| && LeftOf(l, mine, i, r.key, r.at) < 1.0
  {
    var mine := Only(rs, r.key);
    AnswersSplit(l, map[], rs, [r]);
    forall i | 0 <= i < |rs| ensures 0.0 <= rs[i].at <= r.at {
      assert (rs + [r])[i] == rs[i] && (rs + [r])[|rs|] == r;
    }
    assert InOrder(rs) by {
      forall i, j | 0 <= i < j < |rs| ensures rs[i].at <= rs[j].at {
        assert (rs + [r])[i] == rs[i] && (rs + [r])[j] == rs[j];
      }
    }
    OnlyIsInOrder(rs, r.key, r.at);
    BucketsAreIndependent(l, map[], map[], rs, r.key);
    var i := TokensAreTheLeastLeft(l, mine, r.key, r.at);
    var lefts := Lefts(l, mine, r.key, r.at);
    assert forall j :: 0 <= j < |mine| ==> lefts[j] == LeftOf(l, mine, j, r.key, r.at);
    assert Answers(l, map[], rs + [r])[|rs|] == (TokensAt(l, After(l, map[], mine), r.key, r.at) >= 1.0);
  }

  /** n requests of the key at one instant. */
  function AtOnce(key: Key, now: real, n: nat): (rs: seq<Request>)
    ensures |rs| == n
  {
    if n == 0 then [] else [Request(key, now)] + AtOnce(key, now, n - 1)
  }

  /** Allowed are the first answers, as many as there are whole tokens. */
  ghost predicate FirstOnes(answers: seq<bool>, tokens: real) {
    forall i :: 0 <= i < |answers| ==> (answers[i] <==> i as real + 1.0 <= tokens)
  }

  /** Of requests at one instant the first ones are allowed, as many as there are whole tokens. */
  lemma {:induction false} BurstIsAllowed(l: Limits, bs: Buckets, key: Key, now: real, n: nat)
    requires l.Valid() && 0.0 <= TokensAt(l, bs, key, now) <= l.burst
    ensures FirstOnes(Answers(l, bs, AtOnce(key, now, n)), TokensAt(l, bs, key, now))
    decreases n
  {
    if n > 0 {
      var rs, rest := AtOnce(key, now, n), AtOnce(key, now, n - 1);
      var (next, ok) := Allow(l, bs, key, now);
      OneAtOnce(l, bs, key, now);
      BurstIsAllowed(l, next, key, now, n - 1);
      assert rs[1..] == rest;
      assert Answers(l, bs, rs) == [ok] + Answers(l, next, rest);
      NextAnswers(ok, Answers(l, next, rest), TokensAt(l, bs, key, now), TokensAt(l, next, key, now));
    }
  }

  lemma NextAnswers(ok: bool, rest: seq<bool>, had: real, left: real)
    requires had >= 0.0 && (ok <==> had >= 1.0) && left == had - if ok then 1.0 else 0.0
    requires FirstOnes(rest, left)
    ensures FirstOnes([ok] + rest, had)
  {
    forall i | 0 <= i < |rest| + 1 ensures ([ok] + rest)[i] <==> i as real + 1.0 <= had {
      if i > 0 {
        assert ([ok] + rest)[i] == rest[i - 1];
        assert (i - 1) as real + 1.0 == i as real;
      }
    }
  }

  lemma OneAtOnce(l: Limits, bs: Buckets, key: Key, now: real)
    requires l.Valid() && 0.0 <= TokensAt(l, bs, key, now) <= l.burst
    ensures var (next, ok) := Allow(l, bs, key, now);
      && (ok <==> TokensAt(l, bs, key, now) >= 1.0)
      && TokensAt(l, next, key, now) == TokensAt(l, bs, key, now) - if ok then 1.0 else 0.0
  {
    EarnedAdds(l, now, now, now);
  }

  // -------------------------------------------------------------- the limiter

  class RateLimiter {
    const limits: Limits
    var buckets: Buckets

    constructor (limits: Limits)
      requires limits.Valid()
      ensures this.limits == limits && buckets == map[]
    {
      this.limits, buckets := limits, map[];
    }

    method IsAllowed(key: Key, now: real) returns (ok: bool)
      modifies this`buckets
      ensures (buckets, ok) == Allow(limits, old(buckets), key, now)
    {
      var b := Bucket(limits.burst, now);
      if key in buckets { b := buckets[key]; }
      var tokens := b.tokens + Earned(limits, b.last, now);
      if tokens > limits.burst { tokens := limits.burst; }
      b := Bucket(tokens, now);
      ok := b.tokens >= 1.0;
      if ok { b := b.(tokens := b.tokens - 1.0); }
      buckets := buckets[key := b];
    }
  }
}
