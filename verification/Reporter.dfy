/**
 * The reporter: drained buckets become aggregates in an outbox, which is pruned
 * by age and count and posted in batches, oldest first, with backoff.
 */
module Reporter {
  import opened Common
  import opened Ledger
  import opened Meter

  const MINUTE: int := 60 * SECOND
  const MAX_BATCH: nat := 500
  const MIN_BACKOFF: int := 5 * SECOND
  const MAX_BACKOFF: int := 300 * SECOND

  /** What the website's answer means: taken, refused as malformed (400), or any other failure. */
  datatype Reply = Accepted | Malformed | Unavailable

  /** What became of an aggregate that left the outbox. */
  datatype Fate = Sent | Refused | Pruned

  function Started(b: Bucket): int { b.key.minute * MINUTE }

  // ------------------------------------------------------------------ pruning

  /** The head of the outbox must go: past the buffer, or one of too many. */
  predicate MustDrop(outbox: seq<Bucket>, cutoff: int, maxPending: nat) {
    outbox != [] && (Started(outbox[0]) < cutoff || |outbox| > maxPending)
  }

  function DropCount(outbox: seq<Bucket>, cutoff: int, maxPending: nat): (d: nat)
    ensures d <= |outbox|
  {
    if MustDrop(outbox, cutoff, maxPending) then 1 + DropCount(outbox[1..], cutoff, maxPending) else 0
  }

  /** Pruning drops the shortest prefix that leaves at most maxPending with a head inside the buffer. */
  lemma {:induction false} DropsTheLeast(outbox: seq<Bucket>, cutoff: int, maxPending: nat)
    ensures var d := DropCount(outbox, cutoff, maxPending);
      && !MustDrop(outbox[d..], cutoff, maxPending)
      && forall k :: 0 <= k < d ==> MustDrop(outbox[k..], cutoff, maxPending)
  {
    var d := DropCount(outbox, cutoff, maxPending);
    assert outbox[0..] == outbox;
    if MustDrop(outbox, cutoff, maxPending) {
      DropsTheLeast(outbox[1..], cutoff, maxPending);
      assert outbox[1..][d - 1..] == outbox[d..];
      forall k | 0 <= k < d ensures MustDrop(outbox[k..], cutoff, maxPending) {
        if k > 0 { assert outbox[1..][k - 1..] == outbox[k..]; }
      }
    }
  }

  lemma PrunedIsFresh(outbox: seq<Bucket>, cutoff: int, maxPending: nat)
    ensures var rest := outbox[DropCount(outbox, cutoff, maxPending)..];
      |rest| <= maxPending && (rest != [] ==> rest[0].key.minute * 60 * SECOND >= cutoff)
  {
    DropsTheLeast(outbox, cutoff, maxPending);
  }

  /** Nothing that pruning keeps is past the buffer. */
  predicate KeepsOnlyFresh(outbox: seq<Bucket>, cutoff: int, maxPending: nat) {
    forall j :: DropCount(outbox, cutoff, maxPending) <= j < |outbox| ==> Started(outbox[j]) >= cutoff
  }

  /** Entry j is past the buffer, and so is, or is one of too many, every entry before it. */
  predicate Reached(outbox: seq<Bucket>, cutoff: int, maxPending: nat, j: nat)
    requires j < |outbox|
  {
    forall i :: 0 <= i <= j ==> Started(outbox[i]) < cutoff || |outbox| - i > maxPending
  }

  /**
   * The exact condition: pruning leaves nothing past the buffer if and only if
   * no such aggregate stands behind one that is inside it and within the count.
   */
  lemma PruningIsExactIff(outbox: seq<Bucket>, cutoff: int, maxPending: nat)
    ensures KeepsOnlyFresh(outbox, cutoff, maxPending) <==>
      forall j :: 0 <= j < |outbox| && Started(outbox[j]) < cutoff ==> Reached(outbox, cutoff, maxPending, j)
  {
    var d := DropCount(outbox, cutoff, maxPending);
    DropsTheLeast(outbox, cutoff, maxPending);
    forall j | d <= j < |outbox| && Reached(outbox, cutoff, maxPending, j) ensures false {
      assert outbox[d..][0] == outbox[d];
      assert MustDrop(outbox[d..], cutoff, maxPending);
    }
    forall j | 0 <= j < d ensures Reached(outbox, cutoff, maxPending, j) {
      forall i | 0 <= i <= j ensures Started(outbox[i]) < cutoff || |outbox| - i > maxPending {
        assert MustDrop(outbox[i..], cutoff, maxPending);
      }
    }
  }

  predicate OldestFirst(outbox: seq<Bucket>) {
    forall i, j :: 0 <= i < j < |outbox| ==> Started(outbox[i]) <= Started(outbox[j])
  }

  /** So an outbox sorted by minute is pruned exactly. */
  lemma SortedPruningIsExact(outbox: seq<Bucket>, cutoff: int, maxPending: nat)
    requires OldestFirst(outbox)
    ensures |outbox| - DropCount(outbox, cutoff, maxPending) <= maxPending && KeepsOnlyFresh(outbox, cutoff, maxPending)
  {
    DropsTheLeast(outbox, cutoff, maxPending);
    PruningIsExactIff(outbox, cutoff, maxPending);
  }

  /** A request of workload w in a newer minute, one in an older, and a drain that lists them in that order. */
  function UnsortedRun(w: Name, older: int, newer: int, limit: int): (seq<Event>, seq<Bucket>) {
    var c := OneRequest(200, 0, 0);
    var out := [Bucket(Key(newer, w), Val([], c)), Bucket(Key(older, w), Val([], c))];
    ([Record(newer, w, [], c), Record(older, w, [], c), DrainShard(ShardOf(w), limit, out)], out)
  }

  /**
   * A meter's map has no order, so one drain can return such minutes; then the
   * older one stays in the outbox past the buffer, behind the newer.
   */
  lemma OnlyTheHeadIsFresh(w: Name, older: int, newer: int, limit: int, cutoff: int, maxPending: nat)
    requires older < newer < limit && older * MINUTE < cutoff <= newer * MINUTE && maxPending >= 2
    ensures var (es, out) := UnsortedRun(w, older, newer, limit);
      Run(Empty, es).drained == out && !KeepsOnlyFresh(out, cutoff, maxPending)
  {
    var (es, out) := UnsortedRun(w, older, newer, limit);
    var s1 := Next(Empty, es[0]);
    var s2 := Next(s1, es[1]);
    var part := Part(s2.open, ShardOf(w), limit);
    assert part == map[Key(newer, w) := out[0].val, Key(older, w) := out[1].val];
    assert |part| == |part.Keys| == |{Key(newer, w), Key(older, w)}|;
    assert Lists(out, part);
    assert es[1..][1..] == [es[2]] && es[2..][1..] == [];
    assert Run(s2, [es[2]]) == Next(s2, es[2]);
    assert Run(Empty, es) == Run(s1, es[1..]) == Run(s2, es[1..][1..]);
    assert !Reached(out, cutoff, maxPending, 1) by { assert Started(out[0]) >= cutoff; }
    PruningIsExactIff(out, cutoff, maxPending);
  }

  // ------------------------------------------------------------------ backoff

  function Pow2(k: nat): nat { if k == 0 then 1 else 2 * Pow2(k - 1) }

  /** The backoff after k failures in a row. */
  function BackoffAfter(k: nat): int {
    if k == 0 then 0 else Min(MIN_BACKOFF * Pow2(k - 1), MAX_BACKOFF)
  }

  /** The doubling the code does on its last backoff is this closed form. */
  lemma BackoffDoubles(k: nat)
    ensures Min(Max(BackoffAfter(k) * 2, MIN_BACKOFF), MAX_BACKOFF) == BackoffAfter(k + 1) == Min(5 * SECOND * Pow2(k), 300 * SECOND)
  {
    if k > 0 { Pow2Positive(k - 1); }
  }

  lemma {:induction false} Pow2Positive(k: nat)
    ensures Pow2(k) >= 1
  {
    if k > 0 { Pow2Positive(k - 1); }
  }

  // ------------------------------------------------------------------ wake-up

  /** drainSettle: after a boundary, so that requests ending on it are in. */
  const SETTLE: int := 2 * SECOND

  /** Run's next drain: interval and settle past the last boundary, or one interval sooner. */
  function NextDrain(now: int, interval: int): int
    requires interval > 0
  {
    var next := now - now % interval + interval + SETTLE;
    if next - now > interval then next - interval else next
  }

  predicate IsDrainInstant(t: int, interval: int)
    requires interval > 0
  {
    (t - SETTLE) % interval == 0
  }

  lemma ModUnique(a: int, b: int, n: int)
    requires n > 0 && a % n == b % n && -n < a - b < n
    ensures a == b
  {
    assert a == (a / n) * n + a % n && b == (b / n) * n + b % n;
    var q := a / n - b / n;
    assert a - b == q * n;
  }

  lemma ModShift(q: int, n: int)
    requires n > 0
    ensures (q * n) % n == 0
  {
    var r := (q * n) % n;
    assert q * n == (q * n / n) * n + r;
    var d := q - q * n / n;
    assert d * n == r;
  }

  /** A drain is due at the first settled boundary after now: none is skipped and none comes early. */
  lemma NextDrainIsTheFirst(now: int, interval: int)
    requires interval >= SETTLE
    ensures var next := NextDrain(now, interval);
      && now < next <= now + interval && IsDrainInstant(next, interval) && (next - 2 * SECOND) % interval == 0
      && forall t :: now < t < next ==> !IsDrainInstant(t, interval)
  {
    var next := NextDrain(now, interval);
    var q := now / interval;
    assert now == q * interval + now % interval;
    assert next - SETTLE == q * interval || next - SETTLE == (q + 1) * interval;
    ModShift(q, interval);
    ModShift(q + 1, interval);
    forall t | now < t < next ensures !IsDrainInstant(t, interval) {
      if IsDrainInstant(t, interval) { ModUnique(t - SETTLE, next - SETTLE, interval); }
    }
  }

  /** With an interval under the settle time the wait can exceed the interval, exactly just after a boundary. */
  lemma ShortIntervalWaits(now: int, interval: int)
    requires 0 < interval < SETTLE
    ensures NextDrain(now, interval) - now <= interval <==> now % interval >= SETTLE - interval
  {}

  /** Run's next turn: the next drain, or the next try before it while something waits to be sent. */
  function NextWake(now: int, interval: int, waiting: bool, nextTry: Option<int>): int
    requires interval > 0
  {
    var next := NextDrain(now, interval);
    Max(now, if waiting && nextTry.Some? && nextTry.value < next then nextTry.value else next)
  }

  /**
   * The reporter sleeps past no settled boundary, and past no due retry of a
   * waiting outbox; when it wakes before a boundary, its retry is due.
   */
  lemma WakesForBoth(now: int, interval: int, waiting: bool, nextTry: Option<int>)
    requires interval >= SETTLE
    ensures var wake := NextWake(now, interval, waiting, nextTry);
      && now <= wake <= now + interval && (forall t :: now < t < wake ==> !IsDrainInstant(t, interval))
      && (waiting && nextTry.Some? ==> wake <= Max(now, nextTry.value))
      && ((wake > now && IsDrainInstant(wake, interval)) || (waiting && nextTry.Some? && nextTry.value <= wake))
  {
    NextDrainIsTheFirst(now, interval);
  }

  // ------------------------------------------------------------------- totals

  /** The share of the aggregates that met one fate. */
  function FateSum(bs: seq<Bucket>, fates: seq<Fate>, kind: Fate, w: Name, f: Field): int
    requires |fates| <= |bs|
  {
    if fates == [] then 0
    else
      var i := |fates| - 1;
      FateSum(bs, fates[..i], kind, w, f) + if fates[i] == kind then OpenShare(w, f)(bs[i].key, bs[i].val) else 0
  }

  lemma {:induction false} FatesPartition(bs: seq<Bucket>, fates: seq<Fate>, w: Name, f: Field)
    requires |fates| <= |bs|
    ensures DrainedSum(bs[..|fates|], w, f)
         == FateSum(bs, fates, Sent, w, f) + FateSum(bs, fates, Refused, w, f) + FateSum(bs, fates, Pruned, w, f)
    decreases |fates|
  {
    if fates != [] {
      var i := |fates| - 1;
      FatesPartition(bs, fates[..i], w, f);
      assert bs[..|fates|][..i] == bs[..i];
    }
  }

  function Count(fates: seq<Fate>, kind: Fate): nat {
    if fates == [] then 0
    else Count(fates[..|fates| - 1], kind) + if fates[|fates| - 1] == kind then 1 else 0
  }

  function Repeat(kind: Fate, n: nat): (r: seq<Fate>)
    ensures |r| == n
  {
    seq(n, _ => kind)
  }

  lemma {:induction false} CountRepeat(fates: seq<Fate>, kind: Fate, n: nat, k: Fate)
    ensures Count(fates + Repeat(kind, n), k) == Count(fates, k) + if k == kind then n else 0
  {
    var all := fates + Repeat(kind, n);
    if n == 0 {
      assert all == fates;
    } else {
      CountRepeat(fates, kind, n - 1, k);
      assert all[..|all| - 1] == fates + Repeat(kind, n - 1);
    }
  }

  // -------------------------------------------------------------- project ids

  /** What a workload's project resolved to, per project: its id, or nothing if it was not found. */
  type Resolutions = map<Name, Option<Name>>

  function PidOf(resolved: Resolutions, lookup: Name -> Option<Name>, project: Name): Option<Name> {
    if project in resolved then resolved[project] else lookup(project)
  }

  /** The resolutions after a drain: those of its own projects, and the old ones if it was empty. */
  function Resolved(resolved: Resolutions, lookup: Name -> Option<Name>, buckets: seq<Bucket>): Resolutions {
    if buckets == [] then resolved
    else map b | b in buckets :: b.val.project := PidOf(resolved, lookup, b.val.project)
  }

  function ResolvedAfter(resolved: Resolutions, drains: seq<seq<Bucket>>, lookups: seq<Name -> Option<Name>>): Resolutions
    requires |drains| == |lookups|
  {
    if drains == [] then resolved
    else
      var n := |drains| - 1;
      Resolved(ResolvedAfter(resolved, drains[..n], lookups[..n]), lookups[n], drains[n])
  }

  predicate Names(buckets: seq<Bucket>, project: Name) { exists b :: b in buckets && b.val.project == project }

  /**
   * A project that every drain with traffic names is reported under the id it
   * first resolved to, whatever lookups say later: a project deleted while its
   * last minute was open keeps its id, and one not found at first is reported
   * without one for as long.
   */
  lemma {:induction false} FirstResolutionStays(resolved: Resolutions, drains: seq<seq<Bucket>>,
                                                lookups: seq<Name -> Option<Name>>, project: Name)
    requires |drains| == |lookups| && project in resolved
    requires forall i :: 0 <= i < |drains| && drains[i] != [] ==> Names(drains[i], project)
    ensures var r := ResolvedAfter(resolved, drains, lookups); project in r && r[project] == resolved[project]
    decreases |drains|
  {
    if drains != [] {
      var n := |drains| - 1;
      FirstResolutionStays(resolved, drains[..n], lookups[..n], project);
      var before := ResolvedAfter(resolved, drains[..n], lookups[..n]);
      if drains[n] != [] {
        assert Names(drains[n], project);
        var b :| b in drains[n] && b.val.project == project;
        assert b.val.project in Resolved(before, lookups[n], drains[n]);
      }
    }
  }

  /** The newest minute of a drain. */
  function Newest(bs: seq<Bucket>): int
    requires bs != []
  {
    var last := bs[|bs| - 1].key.minute;
    if |bs| == 1 then last else Max(Newest(bs[..|bs| - 1]), last)
  }

  /** The drain's buckets of one minute, in their order. */
  function OfMinute(bs: seq<Bucket>, minute: int): seq<Bucket> {
    if bs == [] then []
    else OfMinute(bs[..|bs| - 1], minute) + if bs[|bs| - 1].key.minute == minute then [bs[|bs| - 1]] else []
  }

  lemma {:induction false} NewestIsLatest(bs: seq<Bucket>, minute: int)
    ensures bs != [] ==> (exists b :: b in bs && b.key.minute == Newest(bs)) && forall b :: b in bs ==> b.key.minute <= Newest(bs)
    ensures forall b :: b in OfMinute(bs, minute) <==> b in bs && b.key.minute == minute
    decreases |bs|
  {
    if bs != [] {
      var pre, b := bs[..|bs| - 1], bs[|bs| - 1];
      NewestIsLatest(pre, minute);
      assert bs == pre + [b] && b in bs;
      assert forall c :: c in bs <==> c in pre || c == b;
    }
  }

  // ------------------------------------------------------------- the reporter

  class UsageReporter {
    const buffer: int
    const maxPending: nat
    var outbox: seq<Bucket>
    var backoff: int
    var nextTry: Option<int>
    var sent: nat
    var dropped: nat
    var resolved: Resolutions
    var last: seq<Bucket>              // the newest minute of the last drain with traffic
    ghost var collected: seq<Bucket>   // everything ever put in the outbox
    ghost var fates: seq<Fate>         // of everything that left it, in order
    ghost var discarded: seq<Bucket>   // drained while reporting was off
    ghost var fails: nat               // failures since the last success

    /** The outbox is what was collected minus a prefix of sent + dropped, and the backoff is what the failures say. */
    ghost predicate Valid()
      reads this
    {
      && sent + dropped == |fates| <= |collected|
      && outbox == collected[sent + dropped..]
      && sent == Count(fates, Sent) && dropped == Count(fates, Refused) + Count(fates, Pruned)
      && backoff == BackoffAfter(fails)
    }

    constructor (buffer: int, maxPending: nat)
      ensures Valid() && collected == [] && discarded == [] && fails == 0 && nextTry == None
      ensures this.buffer == (if buffer <= 0 then 3600 * SECOND else buffer)
      ensures this.maxPending == if maxPending == 0 then 100_000 else maxPending
    {
      this.buffer := if buffer <= 0 then 3600 * SECOND else buffer;
      this.maxPending := if maxPending == 0 then 100_000 else maxPending;
      outbox, backoff, nextTry, sent, dropped := [], 0, None, 0, 0;
      resolved, last := map[], [];
      collected, fates, discarded, fails := [], [], [], 0;
    }

    /** The first n aggregates leave the outbox with one fate. */
    ghost method Settle(n: nat, kind: Fate)
      modifies this`fates
      ensures fates == old(fates) + Repeat(kind, n)
      ensures forall k :: Count(fates, k) == Count(old(fates), k) + if k == kind then n else 0
    {
      forall k { CountRepeat(fates, kind, n, k); }
      fates := fates + Repeat(kind, n);
    }

    /** How many aggregates pruneLocked drops from the head. */
    method CountDrops(cutoff: int) returns (drop: nat)
      ensures drop == DropCount(outbox, cutoff, maxPending) && drop <= |outbox|
    {
      drop := 0;
      while drop < |outbox| && (Started(outbox[drop]) < cutoff || |outbox| - drop > maxPending)
        invariant drop <= |outbox|
        invariant DropCount(outbox, cutoff, maxPending) == drop + DropCount(outbox[drop..], cutoff, maxPending)
      {
        assert outbox[drop..][1..] == outbox[drop + 1..];
        drop := drop + 1;
      }
      assert DropCount(outbox[drop..], cutoff, maxPending) == 0;
    }

    /** pruneLocked */
    method Prune(now: int)
      requires Valid()
      modifies this`outbox, this`dropped, this`fates
      ensures Valid()
      ensures outbox == old(outbox)[DropCount(old(outbox), now - buffer, maxPending)..] && dropped == old(dropped) + |old(outbox)| - |outbox|
      ensures |outbox| <= maxPending && (outbox != [] ==> outbox[0].key.minute * 60 * SECOND >= now - buffer)
      ensures fates == old(fates) + Repeat(Pruned, |old(outbox)| - |outbox|)
    {
      var drop := CountDrops(now - buffer);
      PrunedIsFresh(outbox, now - buffer, maxPending);
      assert outbox[drop..] == collected[sent + dropped + drop..];
      Settle(drop, Pruned);
      dropped := dropped + drop;
      outbox := outbox[drop..];
    }

    /** The id each bucket is reported under; a project is looked up once, and not at all if the last drain had it. */
    method Resolve(buckets: seq<Bucket>, lookup: Name -> Option<Name>) returns (pids: seq<Option<Name>>)
      modifies this`resolved
      ensures |pids| == |buckets|
      ensures forall i :: 0 <= i < |pids| ==> pids[i] == PidOf(old(resolved), lookup, buckets[i].val.project)
      ensures resolved == Resolved(old(resolved), lookup, buckets)
    {
      pids := [];
      var now: Resolutions := map[];
      for i := 0 to |buckets|
        invariant |pids| == i && resolved == old(resolved)
        invariant forall k :: 0 <= k < i ==> buckets[k].val.project in now && pids[k] == now[buckets[k].val.project]
        invariant forall p :: p in now ==> Names(buckets[..i], p) && now[p] == PidOf(resolved, lookup, p)
      {
        var p := buckets[i].val.project;
        assert buckets[i] in buckets[..i + 1] && forall q :: Names(buckets[..i], q) ==> Names(buckets[..i + 1], q);
        if p !in now {
          var pid := if p in resolved then resolved[p] else lookup(p);
          now := now[p := pid];
        }
        pids := pids + [now[p]];
      }
      if |buckets| > 0 {
        assert buckets[..|buckets|] == buckets;
        assert now == Resolved(resolved, lookup, buckets);
        resolved := now;
      }
    }

    /** The newest minute is kept for the admin page, whether or not reporting is on. */
    method KeepLast(buckets: seq<Bucket>)
      modifies this`last
      ensures last == if buckets == [] then old(last) else OfMinute(buckets, Newest(buckets))
    {
      if |buckets| == 0 { return; }
      var newest := buckets[0].key.minute;
      for i := 1 to |buckets|
        invariant newest == Newest(buckets[..i])
      {
        assert buckets[..i + 1][..i] == buckets[..i];
        if buckets[i].key.minute > newest { newest := buckets[i].key.minute; }
      }
      assert buckets[..|buckets|] == buckets;
      last := [];
      for i := 0 to |buckets|
        invariant last == OfMinute(buckets[..i], newest)
      {
        assert buckets[..i + 1][..i] == buckets[..i];
        if buckets[i].key.minute == newest { last := last + [buckets[i]]; }
      }
    }

    method Keep(buckets: seq<Bucket>, on: bool, now: int)
      requires Valid()
      modifies this`outbox, this`dropped, this`fates, this`collected, this`discarded
      ensures Valid()
      ensures collected == old(collected) + (if on then buckets else [])
      ensures discarded == old(discarded) + (if on then [] else buckets)
      ensures !on ==> outbox == old(outbox) && fates == old(fates)
      ensures on ==> |outbox| <= maxPending && (outbox != [] ==> outbox[0].key.minute * 60 * SECOND >= now - buffer)
    {
      if !on {
        discarded := discarded + buckets;
        return;
      }
      outbox, collected := outbox + buckets, collected + buckets;
      Prune(now);
    }

    /** collect, after the drain: keep the buckets while reporting is on, discard them while it is off. */
    method Collect(buckets: seq<Bucket>, lookup: Name -> Option<Name>, on: bool, now: int) returns (pids: seq<Option<Name>>)
      requires Valid()
      modifies this
      ensures Valid() && fails == old(fails)
      ensures |pids| == |buckets| && resolved == Resolved(old(resolved), lookup, buckets)
      ensures forall i :: 0 <= i < |pids| ==> pids[i] == PidOf(old(resolved), lookup, buckets[i].val.project)
      ensures last == if buckets == [] then old(last) else OfMinute(buckets, Newest(buckets))
      ensures collected == old(collected) + (if on then buckets else [])
      ensures discarded == old(discarded) + (if on then [] else buckets)
      ensures !on ==> outbox == old(outbox) && fates == old(fates)
      ensures on ==> |outbox| <= maxPending && (outbox != [] ==> outbox[0].key.minute * 60 * SECOND >= now - buffer)
      ensures buckets != [] ==> forall b :: b in last <==> b in buckets && forall c :: c in buckets ==> c.key.minute <= b.key.minute
    {
      if buckets != [] { NewestIsLatest(buckets, Newest(buckets)); }
      pids := Resolve(buckets, lookup);
      KeepLast(buckets);
      Keep(buckets, on, now);
    }

    /** A batch the website answered leaves the outbox, and the backoff ends. */
    method Took(n: nat, malformed: bool)
      requires Valid() && 0 < n <= |outbox|
      modifies this`outbox, this`backoff, this`nextTry, this`sent, this`dropped, this`fates, this`fails
      ensures Valid() && fails == 0 && nextTry == None && outbox == old(outbox)[n..]
      ensures fates == old(fates) + Repeat(if malformed then Refused else Sent, n)
      ensures sent == old(sent) + (if malformed then 0 else n) && dropped == old(dropped) + (if malformed then n else 0)
    {
      Settle(n, if malformed then Refused else Sent);
      if malformed { dropped := dropped + n; } else { sent := sent + n; }
      outbox := outbox[n..];
      backoff, nextTry, fails := 0, None, 0;
    }

    /** A batch that failed stays, and the next try waits twice as long as the last, within bounds. */
    method BackOff(now: int)
      requires Valid()
      modifies this`backoff, this`nextTry, this`fails
      ensures Valid() && fails == old(fails) + 1 && nextTry == Some(now + Min(5 * SECOND * Pow2(old(fails)), 300 * SECOND))
    {
      BackoffDoubles(fails);
      backoff := Min(Max(backoff * 2, MIN_BACKOFF), MAX_BACKOFF);
      nextTry := Some(now + backoff);
      fails := fails + 1;
    }

    /**
     * send: batches of at most MAX_BATCH, oldest first, until the outbox is
     * empty or a batch fails. replies and clock are the environment's; batches
     * records the size of every post.
     */
    method Send(on: bool, force: bool, replies: nat -> Reply, clock: nat -> int) returns (batches: seq<nat>)
      requires Valid()
      modifies this`outbox, this`backoff, this`nextTry, this`sent, this`dropped, this`fates, this`fails
      ensures Valid() && collected == old(collected)
      ensures !on ==> batches == [] && outbox == old(outbox)
      ensures forall i :: 0 <= i < |batches| ==> 0 < batches[i] <= 500
      ensures on ==>
        || outbox == []
        || (|batches| > 0 && fails >= 1 && replies(|batches| - 1).Unavailable?)
        || (!force && nextTry.Some? && clock(|batches|) < nextTry.value)
      ensures |batches| > 0 && replies(|batches| - 1) != Unavailable ==> fails == 0 && nextTry == None
      ensures forall i :: 0 <= i < |batches| - 1 ==> replies(i) != Unavailable
    {
      batches := [];
      if !on { return; }
      while true
        invariant Valid()
        invariant forall i :: 0 <= i < |batches| ==> 0 < batches[i] <= MAX_BATCH && replies(i) != Unavailable
        invariant |batches| > 0 ==> fails == 0 && nextTry == None
        decreases |outbox|
      {
        var now := clock(|batches|);
        if |outbox| == 0 || (!force && nextTry.Some? && now < nextTry.value) { return; }
        var reply := replies(|batches|);
        var n := SendOne(reply, now);
        batches := batches + [n];
        if reply == Unavailable { return; }
      }
    }

    /** One batch is posted, and the answer noted. */
    method SendOne(reply: Reply, now: int) returns (n: nat)
      requires Valid() && outbox != []
      modifies this`outbox, this`backoff, this`nextTry, this`sent, this`dropped, this`fates, this`fails
      ensures Valid() && 0 < n <= MAX_BATCH && n == Min(|old(outbox)|, 500)
      ensures if reply == Unavailable then outbox == old(outbox) && fails == old(fails) + 1
              else outbox == old(outbox)[n..] && fails == 0 && nextTry == None
      ensures sent == old(sent) + (if reply == Accepted then n else 0) && dropped == old(dropped) + (if reply == Malformed then n else 0)
      ensures fates == old(fates) + Repeat(if reply == Malformed then Refused else Sent, if reply == Unavailable then 0 else n)
      ensures reply == Unavailable ==> nextTry == Some(now + Min(5 * SECOND * Pow2(old(fails)), 300 * SECOND))
    {
      n := if |outbox| < MAX_BATCH then |outbox| else MAX_BATCH;
      if reply == Unavailable { BackOff(now); } else { Took(n, reply == Malformed); }
    }
  }

  // ------------------------------------------------------------- main results

  /** Every drained bucket was collected or discarded, in every counter. */
  ghost predicate AllTaken(drained: seq<Bucket>, collected: seq<Bucket>, discarded: seq<Bucket>) {
    forall w, f :: Taken(drained, collected, discarded, w, f)
  }

  ghost predicate Taken(drained: seq<Bucket>, collected: seq<Bucket>, discarded: seq<Bucket>, w: Name, f: Field) {
    DrainedSum(drained, w, f) == DrainedSum(collected, w, f) + DrainedSum(discarded, w, f)
  }

  lemma TakenGrows(drained: seq<Bucket>, collected: seq<Bucket>, discarded: seq<Bucket>, out: seq<Bucket>)
    requires AllTaken(drained, collected, discarded)
    ensures AllTaken(drained + out, collected + out, discarded) && AllTaken(drained + out, collected, discarded + out)
  {
    forall w, f ensures Taken(drained + out, collected + out, discarded, w, f)
                     && Taken(drained + out, collected, discarded + out, w, f) {
      assert Taken(drained, collected, discarded, w, f);
      DrainedAppend(drained, out, w, f);
      DrainedAppend(collected, out, w, f);
      DrainedAppend(discarded, out, w, f);
    }
  }

  /** One turn of Run: drain the meter, collect what it gave, and post what can be posted. */
  method Tick(m: TrafficMeter, r: UsageReporter, shutdown: bool, beforeMinute: int, nowMinute: int, now: int,
              lookup: Name -> Option<Name>, on: bool, replies: nat -> Reply, clock: nat -> int)
    requires m.Valid() && AllBalanced(m.View()) && r.Valid() && AllTaken(m.drained, r.collected, r.discarded)
    modifies r, m`conns, m`open, m`drained, m.shards
    ensures m.Valid() && AllBalanced(m.View()) && r.Valid() && AllTaken(m.drained, r.collected, r.discarded)
  {
    ghost var drained, collected, discarded := m.drained, r.collected, r.discarded;
    var out := m.Drain(shutdown, beforeMinute, nowMinute);
    TakenGrows(drained, collected, discarded, out);
    var pids := r.Collect(out, lookup, on, now);
    assert collected + [] == collected && discarded + [] == discarded;
    var batches := r.Send(on, shutdown, replies, clock);
  }

  /**
   * From the gateway to the website: what was recorded for a workload is what the
   * website took, what it refused, what was pruned, what waits in the outbox,
   * what was discarded while reporting was off, what the meter will still read,
   * and what it lost with connections released too soon. Each aggregate meets
   * one fate.
   */
  lemma WhereTrafficGoes(s: State, collected: seq<Bucket>, fates: seq<Fate>, discarded: seq<Bucket>, w: Name, f: Field)
    requires Balanced(s, w, f) && |fates| <= |collected| && AllTaken(s.drained, collected, discarded)
    ensures RecordedSum(s.recorded, w, f)
         == FateSum(collected, fates, Sent, w, f) + FateSum(collected, fates, Refused, w, f)
          + FateSum(collected, fates, Pruned, w, f) + DrainedSum(collected[|fates|..], w, f)
          + DrainedSum(discarded, w, f) + Held(s, w, f) + Lost(s, w, f)
  {
    assert Taken(s.drained, collected, discarded, w, f);
    FatesPartition(collected, fates, w, f);
    assert collected == collected[..|fates|] + collected[|fates|..];
    DrainedAppend(collected[..|fates|], collected[|fates|..], w, f);
  }

  /**
   * Whatever the reporter does, then, the only bytes that are in none of these
   * places are those carried too late, and there are none if and only if every
   * byte is carried in time.
   */
  lemma OnlyLateBytesAreLost(es: seq<Event>, collected: seq<Bucket>, fates: seq<Fate>, discarded: seq<Bucket>)
    requires |fates| <= |collected| && AllTaken(Run(Empty, es).drained, collected, discarded)
    ensures var s := Run(Empty, es);
      (forall w, f :: AccountedFor(s, collected, fates, discarded, w, f)) <==> AllOnTime(Empty, es)
  {
    var s := Run(Empty, es);
    forall w, f ensures AccountedFor(s, collected, fates, discarded, w, f) <==> Lost(s, w, f) == 0 {
      TrafficIsConserved(es, w, f);
      WhereTrafficGoes(s, collected, fates, discarded, w, f);
    }
    NothingIsLostIff(es);
    if AllOnTime(Empty, es) {
      forall w, f ensures AccountedFor(s, collected, fates, discarded, w, f) { assert Lost(s, w, f) == 0; }
    } else {
      var w, f :| Lost(s, w, f) != 0;
      assert !AccountedFor(s, collected, fates, discarded, w, f);
    }
  }

  /** Everything recorded was reported, dropped and counted as such, discarded, or will still be drained. */
  ghost predicate AccountedFor(s: State, collected: seq<Bucket>, fates: seq<Fate>, discarded: seq<Bucket>, w: Name, f: Field)
    requires |fates| <= |collected|
  {
    RecordedSum(s.recorded, w, f)
    == FateSum(collected, fates, Sent, w, f) + FateSum(collected, fates, Refused, w, f)
     + FateSum(collected, fates, Pruned, w, f) + DrainedSum(collected[|fates|..], w, f)
     + DrainedSum(discarded, w, f) + Held(s, w, f)
  }
}
