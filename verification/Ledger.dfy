/**
 * Traffic metering as a ledger. Requests and connection bytes are recorded,
 * open buckets and connection counters hold them, an atomic swap takes bytes
 * out of a connection before they are added to a bucket, and a drain empties
 * one shard at a time. The steps are the meter's locked or atomic sections, so
 * any interleaving of requests, connections and drains is a run.
 */
module Ledger {
  import opened Common
  import opened MapSums

  type Name = seq<Byte>

  const SHARDS: nat := 32

  /** Exclusive or of two numbers' binary digits. */
  function Xor(a: nat, b: nat): nat {
    if a == 0 && b == 0 then 0
    else (if a % 2 == b % 2 then 0 else 1) + 2 * Xor(a / 2, b / 2)
  }

  /** The binary digits of a number, the lowest first. */
  function Bit(n: nat, i: nat): nat { if i == 0 then n % 2 else Bit(n / 2, i - 1) }

  lemma {:induction false} XorIsDigitwise(a: nat, b: nat, i: nat)
    ensures Bit(Xor(a, b), i) == if Bit(a, i) == Bit(b, i) then 0 else 1
    decreases i
  {
    if a == 0 && b == 0 {
      ZeroBits(i);
    } else if i > 0 {
      XorIsDigitwise(a / 2, b / 2, i - 1);
    }
  }

  lemma {:induction false} ZeroBits(i: nat)
    ensures Bit(0, i) == 0
  {
    if i > 0 { ZeroBits(i - 1); }
  }

  /** FNV-1a over the workload id, in 32-bit arithmetic. */
  function Fnv(w: Name): nat {
    if w == [] then 2166136261
    else (Xor(Fnv(w[..|w| - 1]), w[|w| - 1]) * 16777619) % 0x1_0000_0000
  }

  function ShardOf(w: Name): (i: nat)
    ensures i < SHARDS
  {
    Fnv(w) % SHARDS
  }

  /** FNV-1a's offset basis, prime and step, over one of 32 shards. */
  lemma FnvIs(w: Name, b: Byte)
    ensures Fnv([]) == 0x811C_9DC5 && Fnv(w + [b]) == (Xor(Fnv(w), b) * 0x0100_0193) % 0x1_0000_0000 && ShardOf(w) == Fnv(w) % 32
  {
    assert (w + [b])[..|w|] == w;
  }

  datatype Counters = Counters(requests: int, inBytes: int, outBytes: int, s2: int, s3: int, s4: int, s5: int)

  datatype Field = Requests | InBytes | OutBytes | S2 | S3 | S4 | S5

  const Zero: Counters := Counters(0, 0, 0, 0, 0, 0, 0)

  function Plus(a: Counters, b: Counters): Counters {
    Counters(a.requests + b.requests, a.inBytes + b.inBytes, a.outBytes + b.outBytes,
             a.s2 + b.s2, a.s3 + b.s3, a.s4 + b.s4, a.s5 + b.s5)
  }

  function Get(c: Counters, f: Field): int {
    match f
    case Requests => c.requests
    case InBytes => c.inBytes
    case OutBytes => c.outBytes
    case S2 => c.s2
    case S3 => c.s3
    case S4 => c.s4
    case S5 => c.s5
  }

  function Bytes(i: int, o: int): Counters { Zero.(inBytes := i, outBytes := o) }

  /** What one finished request counts: itself, its bytes and the class of its status. */
  function OneRequest(status: int, i: int, o: int): Counters {
    var c := Bytes(i, o).(requests := 1);
    if status == 101 || 200 <= status < 300 then c.(s2 := 1)
    else if 300 <= status < 400 then c.(s3 := 1)
    else if 400 <= status < 500 then c.(s4 := 1)
    else if 500 <= status < 600 then c.(s5 := 1)
    else c
  }

  /** The same by its parts: a request, its bytes, and one status class at most; 101 counts with the 2xx. */
  predicate CountsOne(c: Counters, status: int, i: int, o: int) {
    && c.requests == 1 && c.inBytes == i && c.outBytes == o
    && {c.s2, c.s3, c.s4, c.s5} <= {0, 1}
    && (c.s2 == 1 <==> status == 101 || 200 <= status < 300)
    && (c.s3 == 1 <==> 300 <= status < 400)
    && (c.s4 == 1 <==> 400 <= status < 500)
    && (c.s5 == 1 <==> 500 <= status < 600)
  }

  /** A final status is of the class of its first digit, if that is 2 to 5. */
  lemma ClassIsTheFirstDigit(status: int, i: int, o: int)
    requires 100 <= status < 1000
    ensures var c := OneRequest(status, i, o);
      && CountsOne(c, status, i, o)
      && c.s2 + c.s3 + c.s4 + c.s5 == (if status == 101 || 2 <= status / 100 <= 5 then 1 else 0)
      && 2 * c.s2 + 3 * c.s3 + 4 * c.s4 + 5 * c.s5
         == (if status == 101 then 2 else if 2 <= status / 100 <= 5 then status / 100 else 0)
  {}

  datatype Key = Key(minute: int, workload: Name)

  datatype Val = Val(project: Name, counters: Counters)

  datatype Bucket = Bucket(key: Key, val: Val)

  /**
   * Live: a drain reads its counters. Closing: taken off the live set, with the
   * two swaps of its release to come. InRead and Released: one, or both, of these
   * have been made, and there are no others.
   */
  datatype Stage = Live | Closing | InRead | Released

  datatype Conn = Conn(workload: Name, project: Name, inBytes: int, outBytes: int, stage: Stage)

  /**
   * Bytes swapped out of a connection on their way to a bucket. half: its second
   * counter is still to be swapped. drain: the swap is a drain's, which holds the
   * live set's lock, and not a release's.
   */
  datatype Flight = Flight(conn: nat, minute: int, workload: Name, project: Name, counters: Counters, half: bool, drain: bool)

  datatype Entry = Entry(workload: Name, counters: Counters)

  /** recorded is history: everything ever counted. */
  datatype State = State(open: map<Key, Val>, conns: map<nat, Conn>, flights: map<nat, Flight>,
                         drained: seq<Bucket>, recorded: seq<Entry>)

  datatype Event =
    | Record(minute: int, workload: Name, project: Name, c: Counters)
    | Track(id: nat, workload: Name, project: Name)
    | Carry(id: nat, i: nat, o: nat)
    | Untrack(id: nat)
    | SwapIn(t: nat, id: nat, minute: int)
    | SwapOut(t: nat)
    | Land(t: nat)
    | DrainShard(shard: nat, limit: int, out: seq<Bucket>)

  /** add: fold c into a bucket, which keeps the project it was opened with. */
  function Add(open: map<Key, Val>, k: Key, project: Name, c: Counters): map<Key, Val> {
    open[k := if k in open then open[k].(counters := Plus(open[k].counters, c)) else Val(project, c)]
  }

  /** c is a + b, counter by counter. */
  predicate IsSum(c: Counters, a: Counters, b: Counters) {
    && c.requests == a.requests + b.requests && c.inBytes == a.inBytes + b.inBytes && c.outBytes == a.outBytes + b.outBytes
    && c.s2 == a.s2 + b.s2 && c.s3 == a.s3 + b.s3 && c.s4 == a.s4 + b.s4 && c.s5 == a.s5 + b.s5
  }

  /** Only bucket k changed: it took c more, and was opened for the project if it was not there. */
  ghost predicate AddedAt(was: map<Key, Val>, now: map<Key, Val>, k: Key, project: Name, c: Counters) {
    && (forall j :: j != k ==> (j in now <==> j in was) && (j in was ==> now[j] == was[j]))
    && k in now
    && now[k].project == (if k in was then was[k].project else project)
    && IsSum(now[k].counters, if k in was then was[k].counters else Counters(0, 0, 0, 0, 0, 0, 0), c)
  }

  lemma AddAdds(open: map<Key, Val>, k: Key, project: Name, c: Counters)
    ensures AddedAt(open, Add(open, k, project, c), k, project, c)
  {}

  /** The seven counters are all there is to add up. */
  lemma CountersAreTheirFields(a: Counters, b: Counters)
    requires forall f :: Get(a, f) == Get(b, f)
    ensures a == b
  {
    assert Get(a, Requests) == Get(b, Requests) && Get(a, InBytes) == Get(b, InBytes) && Get(a, OutBytes) == Get(b, OutBytes);
    assert Get(a, S2) == Get(b, S2) && Get(a, S3) == Get(b, S3) && Get(a, S4) == Get(b, S4) && Get(a, S5) == Get(b, S5);
  }

  function Part(open: map<Key, Val>, shard: nat, limit: int): map<Key, Val> {
    map k | k in open && ShardOf(k.workload) == shard && k.minute < limit :: open[k]
  }

  /** out lists the entries of part, each once, in some order. */
  predicate Lists(out: seq<Bucket>, part: map<Key, Val>) {
    && (forall i :: 0 <= i < |out| ==> out[i].key in part && out[i].val == part[out[i].key])
    && (forall i, j :: 0 <= i < j < |out| ==> out[i].key != out[j].key)
    && |out| == |part|
  }

  /** A drain is at one of the live connections. */
  predicate LiveLocked(s: State) { exists t :: t in s.flights && s.flights[t].drain }

  /** Bytes may be carried at any time: a read or a write is counted when it returns, whoever closed the connection meanwhile. */
  predicate Enabled(s: State, e: Event) {
    match e
    case Record(_, _, _, _) => true
    case Track(id, _, _) => id !in s.conns && !LiveLocked(s)
    case Carry(id, _, _) => id in s.conns
    case Untrack(id) => id in s.conns && s.conns[id].stage.Live? && !LiveLocked(s)
    case SwapIn(t, id, _) =>
      t !in s.flights && id in s.conns && (s.conns[id].stage.Closing? || (s.conns[id].stage.Live? && !LiveLocked(s)))
    case SwapOut(t) => t in s.flights && s.flights[t].half && s.flights[t].conn in s.conns
                       && s.conns[s.flights[t].conn].workload == s.flights[t].workload
                       && s.conns[s.flights[t].conn].stage == if s.flights[t].drain then Live else InRead
    case Land(t) => t in s.flights && !s.flights[t].half
    case DrainShard(i, limit, out) => Lists(out, Part(s.open, i, limit))
  }

  function Next(s: State, e: Event): State {
    if !Enabled(s, e) then s else
    match e
    case Record(minute, w, p, c) =>
      s.(open := Add(s.open, Key(minute, w), p, c), recorded := s.recorded + [Entry(w, c)])
    case Track(id, w, p) => s.(conns := s.conns[id := Conn(w, p, 0, 0, Live)])
    case Carry(id, i, o) =>
      var c := s.conns[id];
      s.(conns := s.conns[id := c.(inBytes := c.inBytes + i, outBytes := c.outBytes + o)],
         recorded := s.recorded + [Entry(c.workload, Bytes(i, o))])
    case Untrack(id) => s.(conns := s.conns[id := s.conns[id].(stage := Closing)])
    case SwapIn(t, id, minute) =>
      var c := s.conns[id];
      s.(conns := s.conns[id := c.(inBytes := 0, stage := if c.stage.Live? then Live else InRead)],
         flights := s.flights[t := Flight(id, minute, c.workload, c.project, Bytes(c.inBytes, 0), true, c.stage.Live?)])
    case SwapOut(t) =>
      var f := s.flights[t];
      var c := s.conns[f.conn];
      s.(conns := s.conns[f.conn := c.(outBytes := 0, stage := if f.drain then Live else Released)],
         flights := s.flights[t := f.(counters := Plus(f.counters, Bytes(0, c.outBytes)), half := false)])
    case Land(t) =>
      var f := s.flights[t];
      var rest := s.(flights := s.flights - {t});
      if f.counters == Zero then rest
      else rest.(open := Add(s.open, Key(f.minute, f.workload), f.project, f.counters))
    case DrainShard(i, limit, out) =>
      s.(open := s.open - Part(s.open, i, limit).Keys, drained := s.drained + out)
  }

  /** Swapped bytes land in the bucket of the minute the swap was made for, under their connection's names. */
  lemma SwapsLandAtTheirMinute(s: State, t: nat, id: nat, minute: int)
    requires Enabled(s, SwapIn(t, id, minute))
    ensures var c, d := s.conns[id], Next(Next(Next(s, SwapIn(t, id, minute)), SwapOut(t)), Land(t));
      if c.inBytes == 0 && c.outBytes == 0 then d.open == s.open
      else AddedAt(s.open, d.open, Key(minute, c.workload), c.project,
                   Counters(0, c.inBytes, c.outBytes, 0, 0, 0, 0))
  {
    var y := SwapsTakeBoth(s, t, id, minute);
    LandsInItsBucket(y, t);
  }

  lemma SwapsTakeBoth(s: State, t: nat, id: nat, minute: int) returns (y: State)
    requires Enabled(s, SwapIn(t, id, minute))
    ensures y == Next(Next(s, SwapIn(t, id, minute)), SwapOut(t)) && y.open == s.open && Enabled(y, Land(t))
    ensures var c, f := s.conns[id], y.flights[t];
      f.minute == minute && f.workload == c.workload && f.project == c.project
      && f.counters == Counters(0, c.inBytes, c.outBytes, 0, 0, 0, 0)
  {
    var x := Next(s, SwapIn(t, id, minute));
    assert x.conns[id].workload == x.flights[t].workload && x.flights[t].half && x.flights[t].conn == id;
    assert Enabled(x, SwapOut(t));
    y := Next(x, SwapOut(t));
  }

  lemma LandsInItsBucket(s: State, t: nat)
    requires Enabled(s, Land(t))
    ensures var f, d := s.flights[t], Next(s, Land(t));
      if f.counters == Counters(0, 0, 0, 0, 0, 0, 0) then d.open == s.open
      else AddedAt(s.open, d.open, Key(f.minute, f.workload), f.project, f.counters)
  {
    var f := s.flights[t];
    AddAdds(s.open, Key(f.minute, f.workload), f.project, f.counters);
  }

  function Run(s: State, es: seq<Event>): State
    decreases |es|
  {
    if es == [] then s else Run(Next(s, es[0]), es[1..])
  }

  // -------------------------------------------------------------------- totals

  function OpenShare(w: Name, f: Field): (Key, Val) -> int {
    (k: Key, v: Val) => if k.workload == w then Get(v.counters, f) else 0
  }

  /** A swap is still to come that takes the counter. */
  predicate InAwaited(c: Conn) { c.stage.Live? || c.stage.Closing? }

  predicate OutAwaited(c: Conn) { !c.stage.Released? }

  /** What a connection's counters hold that a drain, or its release, will still take. */
  function ConnShare(w: Name, f: Field): (nat, Conn) -> int {
    (id: nat, c: Conn) =>
      if c.workload == w then Get(Bytes(if InAwaited(c) then c.inBytes else 0, if OutAwaited(c) then c.outBytes else 0), f) else 0
  }

  /** And what they hold that nobody reads again. */
  function LostShare(w: Name, f: Field): (nat, Conn) -> int {
    (id: nat, c: Conn) =>
      if c.workload == w then Get(Bytes(if InAwaited(c) then 0 else c.inBytes, if OutAwaited(c) then 0 else c.outBytes), f) else 0
  }

  function FlightShare(w: Name, f: Field): (nat, Flight) -> int {
    (t: nat, x: Flight) => if x.workload == w then Get(x.counters, f) else 0
  }

  function DrainedSum(bs: seq<Bucket>, w: Name, f: Field): int {
    if bs == [] then 0
    else DrainedSum(bs[..|bs| - 1], w, f) + OpenShare(w, f)(bs[|bs| - 1].key, bs[|bs| - 1].val)
  }

  function RecordedSum(es: seq<Entry>, w: Name, f: Field): int {
    if es == [] then 0
    else RecordedSum(es[..|es| - 1], w, f) + (if es[|es| - 1].workload == w then Get(es[|es| - 1].counters, f) else 0)
  }

  ghost function Held(s: State, w: Name, f: Field): int {
    MapSum(s.open, OpenShare(w, f)) + MapSum(s.conns, ConnShare(w, f)) + MapSum(s.flights, FlightShare(w, f))
  }

  ghost function Lost(s: State, w: Name, f: Field): int { MapSum(s.conns, LostShare(w, f)) }

  /** Everything recorded for a workload is drained, held or lost, in every counter. */
  ghost predicate Balanced(s: State, w: Name, f: Field) {
    RecordedSum(s.recorded, w, f) == DrainedSum(s.drained, w, f) + Held(s, w, f) + Lost(s, w, f)
  }

  lemma GetPlus(a: Counters, b: Counters, f: Field)
    ensures Get(Plus(a, b), f) == Get(a, f) + Get(b, f)
  {}

  lemma AddShares(open: map<Key, Val>, k: Key, project: Name, c: Counters, w: Name, f: Field)
    ensures MapSum(Add(open, k, project, c), OpenShare(w, f))
         == MapSum(open, OpenShare(w, f)) + if k.workload == w then Get(c, f) else 0
  {
    SumUpdate(open, OpenShare(w, f), k, Add(open, k, project, c)[k]);
    if k in open { GetPlus(open[k].counters, c, f); }
  }

  lemma {:induction false} DrainedAppend(a: seq<Bucket>, b: seq<Bucket>, w: Name, f: Field)
    ensures DrainedSum(a + b, w, f) == DrainedSum(a, w, f) + DrainedSum(b, w, f)
    decreases |b|
  {
    if b == [] {
      assert a + b == a;
    } else {
      assert (a + b)[..|a + b| - 1] == a + b[..|b| - 1];
      DrainedAppend(a, b[..|b| - 1], w, f);
    }
  }

  /** Moving listed entries out of the open buckets moves exactly their share to the drained side. */
  lemma {:induction false} ListedShares(open: map<Key, Val>, out: seq<Bucket>, w: Name, f: Field)
    requires forall i :: 0 <= i < |out| ==> out[i].key in open && out[i].val == open[out[i].key]
    requires forall i, j :: 0 <= i < j < |out| ==> out[i].key != out[j].key
    ensures MapSum(open, OpenShare(w, f))
         == DrainedSum(out, w, f) + MapSum(open - (set i | 0 <= i < |out| :: out[i].key), OpenShare(w, f))
    decreases |out|
  {
    var keys := set i | 0 <= i < |out| :: out[i].key;
    if out == [] {
      assert open - keys == open;
    } else {
      var b, pre := out[|out| - 1], out[..|out| - 1];
      var preKeys := set i | 0 <= i < |pre| :: pre[i].key;
      ListedShares(open, pre, w, f);
      assert keys == preKeys + {b.key};
      assert b.key !in preKeys;
      SumWithout(open - preKeys, OpenShare(w, f), b.key);
      assert open - preKeys - {b.key} == open - keys;
    }
  }

  lemma ListingCovers(out: seq<Bucket>, part: map<Key, Val>)
    requires Lists(out, part)
    ensures (set i | 0 <= i < |out| :: out[i].key) == part.Keys
  {
    KeysCount(out);
    var keys := set i | 0 <= i < |out| :: out[i].key;
    assert keys <= part.Keys;
    if keys != part.Keys {
      assert part.Keys == keys + (part.Keys - keys);
      assert |part.Keys| == |keys| + |part.Keys - keys|;
      assert |part.Keys| == |part|;
    }
  }

  lemma {:induction false} KeysCount(out: seq<Bucket>)
    requires forall i, j :: 0 <= i < j < |out| ==> out[i].key != out[j].key
    ensures |set i | 0 <= i < |out| :: out[i].key| == |out|
    decreases |out|
  {
    var keys := set i | 0 <= i < |out| :: out[i].key;
    if out != [] {
      var pre := out[..|out| - 1];
      KeysCount(pre);
      var preKeys := set i | 0 <= i < |pre| :: pre[i].key;
      assert keys == preKeys + {out[|out| - 1].key};
      assert out[|out| - 1].key !in preKeys;
    }
  }

  lemma BalancedDrain(s: State, e: Event, w: Name, f: Field)
    requires Balanced(s, w, f) && e.DrainShard? && Enabled(s, e)
    ensures Balanced(Next(s, e), w, f)
  {
    var part := Part(s.open, e.shard, e.limit);
    ListingCovers(e.out, part);
    ListedShares(s.open, e.out, w, f);
    DrainedAppend(s.drained, e.out, w, f);
  }

  /** A swap takes what was held in a counter into flight; what is lost stays so. */
  lemma SwapInMoves(s: State, e: Event, w: Name, f: Field)
    requires e.SwapIn? && Enabled(s, e)
    ensures var d := Next(s, e);
      && Lost(d, w, f) == Lost(s, w, f)
      && MapSum(d.conns, ConnShare(w, f)) + MapSum(d.flights, FlightShare(w, f))
         == MapSum(s.conns, ConnShare(w, f)) + MapSum(s.flights, FlightShare(w, f))
  {
    var d := Next(s, e);
    SumUpdate(s.conns, ConnShare(w, f), e.id, d.conns[e.id]);
    SumUpdate(s.conns, LostShare(w, f), e.id, d.conns[e.id]);
    SumUpdate(s.flights, FlightShare(w, f), e.t, d.flights[e.t]);
  }

  lemma SwapOutMoves(s: State, e: Event, w: Name, f: Field)
    requires e.SwapOut? && Enabled(s, e)
    ensures var d := Next(s, e);
      && Lost(d, w, f) == Lost(s, w, f)
      && MapSum(d.conns, ConnShare(w, f)) + MapSum(d.flights, FlightShare(w, f))
         == MapSum(s.conns, ConnShare(w, f)) + MapSum(s.flights, FlightShare(w, f))
  {
    var d := Next(s, e);
    var id := s.flights[e.t].conn;
    SumUpdate(s.conns, ConnShare(w, f), id, d.conns[id]);
    SumUpdate(s.conns, LostShare(w, f), id, d.conns[id]);
    SumUpdate(s.flights, FlightShare(w, f), e.t, d.flights[e.t]);
  }

  lemma BalancedSwap(s: State, e: Event, w: Name, f: Field)
    requires Balanced(s, w, f) && (e.SwapIn? || e.SwapOut?) && Enabled(s, e)
    ensures Balanced(Next(s, e), w, f)
  {
    if e.SwapIn? { SwapInMoves(s, e, w, f); } else { SwapOutMoves(s, e, w, f); }
  }

  /** A landing takes a flight's bytes into a bucket. */
  lemma LandMoves(s: State, t: nat, w: Name, f: Field)
    requires Enabled(s, Land(t))
    ensures var d := Next(s, Land(t));
      && d == s.(open := d.open, flights := s.flights - {t})
      && MapSum(d.open, OpenShare(w, f)) + MapSum(d.flights, FlightShare(w, f))
         == MapSum(s.open, OpenShare(w, f)) + MapSum(s.flights, FlightShare(w, f))
  {
    var x := s.flights[t];
    SumWithout(s.flights, FlightShare(w, f), t);
    AddShares(s.open, Key(x.minute, x.workload), x.project, x.counters, w, f);
  }

  lemma BalancedLand(s: State, e: Event, w: Name, f: Field)
    requires Balanced(s, w, f) && e.Land? && Enabled(s, e)
    ensures Balanced(Next(s, e), w, f)
  {
    LandMoves(s, e.t, w, f);
  }

  lemma BalancedRest(s: State, e: Event, w: Name, f: Field)
    requires Balanced(s, w, f) && (e.Record? || e.Track? || e.Carry? || e.Untrack?) && Enabled(s, e)
    ensures Balanced(Next(s, e), w, f)
  {
    var d := Next(s, e);
    if e.Record? {
      AddShares(s.open, Key(e.minute, e.workload), e.project, e.c, w, f);
      assert d.recorded[..|d.recorded| - 1] == s.recorded;
    } else {
      ConnChanges(s, e, w, f);
      if e.Carry? { assert d.recorded[..|d.recorded| - 1] == s.recorded; }
    }
  }

  /** Tracking and untracking move no bytes; carried ones are held, or lost. */
  lemma ConnChanges(s: State, e: Event, w: Name, f: Field)
    requires (e.Track? || e.Carry? || e.Untrack?) && Enabled(s, e)
    ensures var d := Next(s, e);
      MapSum(d.conns, ConnShare(w, f)) + Lost(d, w, f) - MapSum(s.conns, ConnShare(w, f)) - Lost(s, w, f)
      == if e.Carry? && s.conns[e.id].workload == w then Get(Bytes(e.i, e.o), f) else 0
  {
    var d := Next(s, e);
    SumUpdate(s.conns, ConnShare(w, f), e.id, d.conns[e.id]);
    SumUpdate(s.conns, LostShare(w, f), e.id, d.conns[e.id]);
  }

  lemma BalancedStep(s: State, e: Event, w: Name, f: Field)
    requires Balanced(s, w, f)
    ensures Balanced(Next(s, e), w, f)
  {
    if Enabled(s, e) {
      if e.DrainShard? { BalancedDrain(s, e, w, f); }
      else if e.SwapIn? || e.SwapOut? { BalancedSwap(s, e, w, f); }
      else if e.Land? { BalancedLand(s, e, w, f); }
      else { BalancedRest(s, e, w, f); }
    }
  }

  const Empty: State := State(map[], map[], map[], [], [])

  lemma {:induction false} BalancedRun(s: State, es: seq<Event>, w: Name, f: Field)
    requires Balanced(s, w, f)
    ensures Balanced(Run(s, es), w, f)
    decreases |es|
  {
    if es != [] {
      BalancedStep(s, es[0], w, f);
      BalancedRun(Next(s, es[0]), es[1..], w, f);
    }
  }

  // ------------------------------------------------------ what comes too late

  /** The part of a carry that comes after the release's swap of its counter. */
  function Late(s: State, e: Event, w: Name, f: Field): nat {
    if e.Carry? && e.id in s.conns && s.conns[e.id].workload == w then
      var c := s.conns[e.id];
      match f {
        case InBytes => if InAwaited(c) then 0 else e.i
        case OutBytes => if OutAwaited(c) then 0 else e.o
        case _ => 0
      }
    else 0
  }

  function LateSum(s: State, es: seq<Event>, w: Name, f: Field): nat
    decreases |es|
  {
    if es == [] then 0 else Late(s, es[0], w, f) + LateSum(Next(s, es[0]), es[1..], w, f)
  }

  lemma ConnsStay(s: State, e: Event)
    requires e.Record? || e.Land? || e.DrainShard? || !Enabled(s, e)
    ensures Next(s, e).conns == s.conns
  {}

  lemma LostStep(s: State, e: Event, w: Name, f: Field)
    ensures Lost(Next(s, e), w, f) == Lost(s, w, f) + Late(s, e, w, f)
  {
    if !Enabled(s, e) || e.Record? || e.Land? || e.DrainShard? { ConnsStay(s, e); }
    else if e.SwapIn? { SwapInMoves(s, e, w, f); }
    else if e.SwapOut? { SwapOutMoves(s, e, w, f); }
    else { SumUpdate(s.conns, LostShare(w, f), e.id, Next(s, e).conns[e.id]); }
  }

  /** What is lost only grows, by what is carried too late. */
  lemma {:induction false} LostIsLate(s: State, es: seq<Event>, w: Name, f: Field)
    ensures Lost(Run(s, es), w, f) == Lost(s, w, f) + LateSum(s, es, w, f)
    decreases |es|
  {
    if es != [] {
      LostStep(s, es[0], w, f);
      LostIsLate(Next(s, es[0]), es[1..], w, f);
    }
  }

  /** No byte of a carry comes after the release's swap of its counter. */
  predicate OnTime(s: State, e: Event) {
    e.Carry? && e.id in s.conns ==>
      (e.i == 0 || InAwaited(s.conns[e.id])) && (e.o == 0 || OutAwaited(s.conns[e.id]))
  }

  predicate AllOnTime(s: State, es: seq<Event>)
    decreases |es|
  {
    es == [] || (OnTime(s, es[0]) && AllOnTime(Next(s, es[0]), es[1..]))
  }

  ghost predicate NoneLate(s: State, es: seq<Event>) { forall w, f :: LateSum(s, es, w, f) == 0 }

  lemma {:induction false} LateIff(s: State, es: seq<Event>)
    ensures AllOnTime(s, es) <==> NoneLate(s, es)
    decreases |es|
  {
    if es != [] {
      var e, d := es[0], Next(s, es[0]);
      LateIff(d, es[1..]);
      if OnTime(s, e) {
        forall w, f ensures LateSum(s, es, w, f) == LateSum(d, es[1..], w, f) { assert Late(s, e, w, f) == 0; }
        if NoneLate(s, es) { forall w, f ensures LateSum(d, es[1..], w, f) == 0 { assert LateSum(s, es, w, f) == 0; } }
      } else {
        var f := if e.i == 0 || InAwaited(s.conns[e.id]) then OutBytes else InBytes;
        assert Late(s, e, s.conns[e.id].workload, f) > 0;
        assert LateSum(s, es, s.conns[e.id].workload, f) > 0;
      }
    }
  }

  // ------------------------------------------------------------ main results

  /**
   * Conservation: at every point of every interleaving, what was recorded for a
   * workload is what was drained, plus the open buckets, the counters that are
   * still read and the bytes between a swap and their bucket, plus what came on
   * a connection after its release had read it. Nothing is booked twice.
   */
  lemma TrafficIsConserved(es: seq<Event>, w: Name, f: Field)
    ensures Balanced(Run(Empty, es), w, f)
  {
    BalancedRun(Empty, es, w, f);
  }

  ghost predicate NothingIsLost(s: State) { forall w, f :: Lost(s, w, f) == 0 }

  /** The exact condition: nothing is lost, in any counter of any workload, if and only if every byte is carried in time. */
  lemma NothingIsLostIff(es: seq<Event>)
    ensures NothingIsLost(Run(Empty, es)) <==> AllOnTime(Empty, es)
  {
    LateIff(Empty, es);
    forall w, f ensures Lost(Run(Empty, es), w, f) == LateSum(Empty, es, w, f) { LostIsLate(Empty, es, w, f); }
    if NothingIsLost(Run(Empty, es)) {
      forall w, f ensures LateSum(Empty, es, w, f) == 0 { assert Lost(Run(Empty, es), w, f) == 0; }
    }
  }

  /**
   * Once every bucket and flight has been drained, what is missing sits in the
   * counters that are still read, which are those of connections not yet
   * released, and in what came too late.
   */
  lemma WhatADrainLeaves(es: seq<Event>, w: Name, f: Field)
    requires var s := Run(Empty, es); s.open == map[] && s.flights == map[]
    ensures var s := Run(Empty, es);
      RecordedSum(s.recorded, w, f) - DrainedSum(s.drained, w, f)
      == MapSum(s.conns, ConnShare(w, f)) + LateSum(Empty, es, w, f)
  {
    TrafficIsConserved(es, w, f);
    LostIsLate(Empty, es, w, f);
  }

  /** And if every connection was released too, exactly what came too late is missing. */
  lemma WhatIsMissingInTheEnd(es: seq<Event>, w: Name, f: Field)
    requires var s := Run(Empty, es);
      s.open == map[] && s.flights == map[] && forall id :: id in s.conns ==> s.conns[id].stage.Released?
    ensures var s := Run(Empty, es);
      RecordedSum(s.recorded, w, f) - DrainedSum(s.drained, w, f) == LateSum(Empty, es, w, f)
  {
    WhatADrainLeaves(es, w, f);
    NoneAwaited(Run(Empty, es).conns, w, f);
  }

  lemma {:induction false} NoneAwaited(conns: map<nat, Conn>, w: Name, f: Field)
    requires forall id :: id in conns ==> conns[id].stage.Released?
    ensures MapSum(conns, ConnShare(w, f)) == 0
    decreases |conns|
  {
    if conns != map[] {
      var id: nat :| id in conns;
      Shrinks(conns, id);
      SumWithout(conns, ConnShare(w, f), id);
      NoneAwaited(conns - {id}, w, f);
    }
  }

  /** A copy of n bytes that returns after its connection was released by another. */
  function LateRun(w: Name, n: nat): seq<Event> {
    [Track(0, w, []), Untrack(0), SwapIn(0, 0, 0), SwapOut(0), Land(0), Carry(0, n, 0)]
  }

  /** Its bytes are in no bucket and in no flight, and no drain will return them. */
  lemma LateBytesAreLost(w: Name, n: nat, later: seq<Event>)
    ensures var s := Run(Empty, LateRun(w, n));
      && RecordedSum(s.recorded, w, InBytes) == n && s.open == map[] && s.flights == map[] && Held(s, w, InBytes) == 0
      && Lost(Run(s, later), w, InBytes) >= n
  {
    var s6 := Empty.(conns := map[0 := Conn(w, [], n, 0, Released)], recorded := [Entry(w, Bytes(n, 0))]);
    var es := LateRun(w, n);
    LateStarts(w);
    LateEnds(w, n);
    assert es[..4] + es[4..] == es;
    RunAppend(Empty, es[..4], es[4..]);
    assert es[..4] == [Track(0, w, []), Untrack(0), SwapIn(0, 0, 0), SwapOut(0)] && es[4..] == [Land(0), Carry(0, n, 0)];
    assert Run(Empty, es) == s6;
    SumWithout(s6.conns, LostShare(w, InBytes), 0);
    SumWithout(s6.conns, ConnShare(w, InBytes), 0);
    assert s6.conns - {0} == map[];
    assert s6.recorded[..0] == [];
    LostIsLate(s6, later, w, InBytes);
  }

  lemma LateStarts(w: Name)
    ensures Run(Empty, [Track(0, w, []), Untrack(0), SwapIn(0, 0, 0), SwapOut(0)])
         == Empty.(conns := map[0 := Conn(w, [], 0, 0, Released)],
                   flights := map[0 := Flight(0, 0, w, [], Zero, false, false)])
  {
    var es := [Track(0, w, []), Untrack(0), SwapIn(0, 0, 0), SwapOut(0)];
    LateCloses(w);
    LateSwaps(w);
    assert es == es[..2] + es[2..] && es[..2] == [es[0], es[1]] && es[2..] == [es[2], es[3]];
    RunAppend(Empty, es[..2], es[2..]);
  }

  lemma RunTwo(s: State, a: Event, b: Event)
    ensures Run(s, [a, b]) == Next(Next(s, a), b)
  {
    assert [a, b][1..] == [b] && [b][1..] == [];
    assert Run(Next(s, a), [b]) == Next(Next(s, a), b);
  }

  lemma LateCloses(w: Name)
    ensures Run(Empty, [Track(0, w, []), Untrack(0)]) == Empty.(conns := map[0 := Conn(w, [], 0, 0, Closing)])
  {
    RunTwo(Empty, Track(0, w, []), Untrack(0));
  }

  lemma LateSwaps(w: Name)
    ensures Run(Empty.(conns := map[0 := Conn(w, [], 0, 0, Closing)]), [SwapIn(0, 0, 0), SwapOut(0)])
         == Empty.(conns := map[0 := Conn(w, [], 0, 0, Released)],
                   flights := map[0 := Flight(0, 0, w, [], Zero, false, false)])
  {
    var s := Empty.(conns := map[0 := Conn(w, [], 0, 0, Closing)]);
    RunTwo(s, SwapIn(0, 0, 0), SwapOut(0));
    assert Next(s, SwapIn(0, 0, 0)) == Empty.(conns := map[0 := Conn(w, [], 0, 0, InRead)],
                                              flights := map[0 := Flight(0, 0, w, [], Zero, true, false)]);
  }

  lemma LateEnds(w: Name, n: nat)
    ensures Run(Empty.(conns := map[0 := Conn(w, [], 0, 0, Released)],
                       flights := map[0 := Flight(0, 0, w, [], Zero, false, false)]), [Land(0), Carry(0, n, 0)])
         == Empty.(conns := map[0 := Conn(w, [], n, 0, Released)], recorded := [Entry(w, Bytes(n, 0))])
  {
    var c := Conn(w, [], 0, 0, Released);
    var es := [Land(0), Carry(0, n, 0)];
    var s4 := Empty.(conns := map[0 := c], flights := map[0 := Flight(0, 0, w, [], Zero, false, false)]);
    var s5 := Empty.(conns := map[0 := c]);
    assert s4.flights - {0} == map[];
    assert Next(s4, es[0]) == s5;
    assert es[1..][1..] == [];
    assert Run(s5, es[1..]) == Next(s5, es[1]);
  }

  lemma {:induction false} RunAppend(s: State, a: seq<Event>, b: seq<Event>)
    ensures Run(s, a + b) == Run(Run(s, a), b)
    decreases |a|
  {
    if a == [] {
      assert a + b == b;
    } else {
      assert (a + b)[1..] == a[1..] + b;
      RunAppend(Next(s, a[0]), a[1..], b);
    }
  }

  /** The buckets of one drain, gathered shard by shard with anything in between, name each key at most once. */
  lemma OneBucketPerKey(outs: seq<seq<Bucket>>, parts: seq<map<Key, Val>>, limit: int, i: nat, j: nat, a: nat, b: nat)
    requires |outs| == |parts| == SHARDS && i < SHARDS && j < SHARDS
    requires forall n :: 0 <= n < SHARDS ==> Lists(outs[n], parts[n])
    requires forall n, k :: 0 <= n < SHARDS && k in parts[n] ==> ShardOf(k.workload) == n && k.minute < limit
    requires a < |outs[i]| && b < |outs[j]| && outs[i][a].key == outs[j][b].key
    ensures i == j && a == b
  {
    assert outs[i][a].key in parts[i] && outs[j][b].key in parts[j];
  }
}
