/**
 * Thin-volume device ids, handed out from a counter file that is only a hint,
 * against a pool that refuses an id it holds; and the /30 an id picks.
 */
module DeviceIds {
  import opened Common

  const FLOOR := 100
  const ATTEMPTS := 32

  /** The id tried next, given the counter and the largest recorded id. */
  function Candidate(counter: int, mark: int): (n: int)
    ensures n >= 100 && n >= counter && n > mark
    ensures n == 100 || n == counter || n == mark + 1
  {
    Max(FLOOR, if mark >= counter then mark + 1 else counter)
  }

  // ------------------------------------------- allocations running side by side

  /** What the pool, or a command around it, answers: a failure may come before the volume exists or after. */
  datatype Outcome = Works | FailsBefore | FailsAfter

  /** Where an allocation stands: each read, the write and the attempt is a step of its own. */
  datatype Phase =
    | Idle
    | Begun(attempt: nat)
    | HasCounter(attempt: nat, counter: int)
    | HasId(attempt: nat, id: int)
    | Wrote(attempt: nat, id: int)
    | Granted(id: int)
    | Failed

  type Caller = nat

  datatype Pool = Pool(counter: int, mark: int, taken: set<int>, phases: map<Caller, Phase>)

  /**
   * A caller's steps, and what happens around them: a volume is deleted, the
   * counter file is lost or restored, records come and go.
   */
  datatype Event =
    | Begin(c: Caller)
    | ReadCounter(c: Caller)
    | ReadRecords(c: Caller)
    | WriteCounter(c: Caller, ok: bool)
    | Try(c: Caller, outcome: Outcome)
    | Free(id: int)
    | SetCounter(counter: int)
    | SetMark(mark: int)

  function PhaseOf(p: Pool, c: Caller): Phase { if c in p.phases then p.phases[c] else Idle }

  function Goto(p: Pool, c: Caller, phase: Phase): Pool { p.(phases := p.phases[c := phase]) }

  function Next(p: Pool, e: Event): Pool {
    match e
    case Begin(c) => Goto(p, c, Begun(0))
    case ReadCounter(c) =>
      var s := PhaseOf(p, c);
      if s.Begun? then Goto(p, c, HasCounter(s.attempt, p.counter)) else p
    case ReadRecords(c) =>
      var s := PhaseOf(p, c);
      if s.HasCounter? then Goto(p, c, HasId(s.attempt, Candidate(s.counter, p.mark))) else p
    case WriteCounter(c, ok) =>
      var s := PhaseOf(p, c);
      if !s.HasId? then p
      else if ok then Goto(p.(counter := s.id + 1), c, Wrote(s.attempt, s.id)) else Goto(p, c, Failed)
    case Try(c, outcome) =>
      var s := PhaseOf(p, c);
      if !s.Wrote? then p
      else if s.id in p.taken then
        Goto(p, c, if s.attempt + 1 < ATTEMPTS then Begun(s.attempt + 1) else Failed)
      else (
        match outcome
        case Works => Goto(p.(taken := p.taken + {s.id}), c, Granted(s.id))
        case FailsBefore => Goto(p, c, Failed)
        case FailsAfter => Goto(p.(taken := p.taken + {s.id}), c, Failed)
      )
    case Free(id) => p.(taken := p.taken - {id})
    case SetCounter(counter) => p.(counter := counter)
    case SetMark(mark) => p.(mark := mark)
  }

  function Run(p: Pool, trace: seq<Event>): Pool {
    if trace == [] then p else Next(Run(p, trace[..|trace| - 1]), trace[|trace| - 1])
  }

  /** The event hands the id to a caller. */
  predicate Grants(p: Pool, e: Event, id: int) {
    e.Try? && e.outcome.Works? && PhaseOf(p, e.c).Wrote? && PhaseOf(p, e.c).id == id && id !in p.taken
  }

  ghost predicate GrantsAt(p: Pool, trace: seq<Event>, i: int, id: int) {
    0 <= i < |trace| && Grants(Run(p, trace[..i]), trace[i], id)
  }

  /** No caller starts half way. */
  predicate Fresh(p: Pool) { forall c :: c in p.phases ==> p.phases[c].Idle? }

  predicate IdsAboveFloor(p: Pool) {
    forall c :: c in p.phases && (p.phases[c].HasId? || p.phases[c].Wrote? || p.phases[c].Granted?) ==> p.phases[c].id >= FLOOR
  }

  lemma {:induction false} RunKeepsFloor(p: Pool, trace: seq<Event>)
    requires Fresh(p)
    ensures IdsAboveFloor(Run(p, trace))
  {
    if trace != [] { RunKeepsFloor(p, trace[..|trace| - 1]); }
  }

  /** What a grant takes stays taken until it is freed. */
  lemma {:induction false} StaysTaken(p: Pool, trace: seq<Event>, i: nat, j: nat, id: int)
    requires i < j <= |trace| && GrantsAt(p, trace, i, id)
    requires forall k :: i < k < j ==> trace[k] != Free(id)
    ensures id in Run(p, trace[..j]).taken
    decreases j
  {
    assert trace[..j][..j - 1] == trace[..j - 1];
    if j > i + 1 { StaysTaken(p, trace, i, j - 1, id); }
  }

  /**
   * However many callers allocate at once, and whatever becomes of the counter
   * file and the records: an id is granted only while the pool does not hold
   * it, it is at least 100, and the same id is granted again only after its
   * volume was deleted in between.
   */
  lemma GrantedIdsAreDistinct(p: Pool, trace: seq<Event>, i: int, j: int, id: int)
    requires Fresh(p) && GrantsAt(p, trace, j, id)
    ensures id !in Run(p, trace[..j]).taken && id >= FLOOR
    ensures i < j && GrantsAt(p, trace, i, id) ==> exists k :: i < k < j && trace[k] == Free(id)
  {
    RunKeepsFloor(p, trace[..j]);
    if i < j && GrantsAt(p, trace, i, id) && forall k :: i < k < j ==> trace[k] != Free(id) {
      StaysTaken(p, trace, i, j, id);
    }
  }

  /** One attempt of a caller, with nothing in between. */
  function Attempt(p: Pool, c: Caller, ok: bool, outcome: Outcome): Pool {
    Next(Next(Next(Next(p, ReadCounter(c)), ReadRecords(c)), WriteCounter(c, ok)), Try(c, outcome))
  }

  /**
   * What an attempt comes to: the id is the next one above the counter, the
   * records and 100, and the counter ends one past it; a pool that holds it makes
   * the caller try again, 32 times at most, and any other failure ends it.
   */
  lemma AttemptIs(p: Pool, c: Caller, attempt: nat, ok: bool, outcome: Outcome)
    requires PhaseOf(p, c) == Begun(attempt)
    ensures var id, d := Max(100, Max(p.counter, p.mark + 1)), Attempt(p, c, ok, outcome);
      && d.mark == p.mark && (forall x :: x != c ==> PhaseOf(d, x) == PhaseOf(p, x))
      && d.counter == (if ok then id + 1 else p.counter)
      && PhaseOf(d, c) == (if !ok then Failed
                           else if id in p.taken then (if attempt >= 31 then Failed else Begun(attempt + 1))
                           else if outcome.Works? then Granted(id) else Failed)
      && d.taken == (if ok && !outcome.FailsBefore? then p.taken + {id} else p.taken)
  {
    var p1 := Next(p, ReadCounter(c));
    var p2 := Next(p1, ReadRecords(c));
    assert PhaseOf(p1, c) == HasCounter(attempt, p.counter);
    assert PhaseOf(p2, c) == HasId(attempt, Max(100, Max(p.counter, p.mark + 1)));
  }

  /** A call begins with its first attempt; a deleted volume's id can be granted again. */
  lemma BeginsAndFrees(p: Pool, c: Caller, id: int)
    ensures PhaseOf(Next(p, Begin(c)), c) == Begun(0) && id !in Next(p, Free(id)).taken
    ensures forall x :: x != id ==> (x in Next(p, Free(id)).taken <==> x in p.taken)
  {}

  // -------------------------------------------------------- one allocation alone

  datatype Error = NotWritten | Refused | NoFreeId

  class ThinPool {
    var counter: int
    var recorded: set<int>
    var taken: set<int>

    /** The id the next call tries. */
    ghost function NextId(): int
      reads this
    {
      Candidate(counter, MarkOf(recorded))
    }

    method HighWaterMark() returns (max: int)
      ensures max == MarkOf(recorded)
    {
      max := 0;
      var rest := recorded;
      while rest != {}
        invariant rest <= recorded
        invariant max >= 0 && (max == 0 || max in recorded)
        invariant forall id :: id in recorded ==> id in rest || id <= max
        decreases |rest|
      {
        NotEmpty(rest);
        var id: int :| id in rest;
        rest := rest - {id};
        if id > max { max := id; }
      }
      MarkIsMax(recorded, max);
    }

    method NextDevId(writable: bool) returns (r: Option<int>)
      modifies this`counter
      ensures r == if writable then Some(old(NextId())) else None
      ensures counter == if writable then old(NextId()) + 1 else old(counter)
    {
      var n := counter;
      var hw := HighWaterMark();
      if hw >= n { n := hw + 1; }
      if n < FLOOR { n := FLOOR; }
      if !writable { return None; }
      counter := n + 1;
      r := Some(n);
    }

    /**
     * Alone, the ids tried are consecutive: the first that the pool does not hold
     * is granted, if the counter could be written up to it, it is among the first
     * 32, and the commands around it work. One that fails after making the volume
     * leaves that id held.
     */
    method Allocate(writable: nat -> bool, outcome: int -> Outcome) returns (r: Option<int>, error: Error)
      modifies this`counter, this`taken
      ensures r.Some? <==> exists i :: Serves(old(NextId()), writable, old(taken), outcome, i)
      ensures r.Some? ==> Serves(old(NextId()), writable, old(taken), outcome, r.value - old(NextId()))
      ensures r.Some? ==> taken == old(taken) + {r.value} && counter == r.value + 1
      ensures r.Some? ==> r.value !in old(taken) && r.value < old(NextId()) + 32 && forall id :: old(NextId()) <= id < r.value ==> id in old(taken)
      ensures r.None? ==> match error
        case NotWritten => Stops(old(NextId()), writable, old(taken), NextId() - old(NextId()))
          && !writable(NextId() - old(NextId())) && taken == old(taken)
        case Refused => Stops(old(NextId()), writable, old(taken), counter - 1 - old(NextId()))
          && taken == if outcome(counter - 1).FailsAfter? then old(taken) + {counter - 1} else old(taken)
        case NoFreeId => taken == old(taken) && forall id :: old(NextId()) <= id < old(NextId()) + 32 ==> id in taken
    {
      error := NoFreeId;
      ghost var n := NextId();
      for attempt := 0 to ATTEMPTS
        invariant taken == old(taken) && recorded == old(recorded)
        invariant attempt > 0 ==> counter == n + attempt
        invariant NextId() == n + attempt
        invariant forall k: nat :: k < attempt ==> Taken(n, writable, taken, k)
      {
        var id := NextDevId(writable(attempt));
        if id.None? {
          OneStop(n, writable, old(taken), outcome, attempt);
          return None, NotWritten;
        }
        if id.value !in taken {
          OneStop(n, writable, old(taken), outcome, attempt);
          if !outcome(id.value).FailsBefore? { taken := taken + {id.value}; }
          if !outcome(id.value).Works? { return None, Refused; }
          assert Serves(n, writable, old(taken), outcome, attempt);
          forall x | n <= x < id.value ensures x in old(taken) { assert Taken(n, writable, old(taken), x - n); }
          return id, error;
        }
        assert Taken(n, writable, taken, attempt);
      }
      forall id | n <= id < n + ATTEMPTS ensures id in taken { assert Taken(n, writable, taken, id - n); }
      r := None;
    }
  }

  /** Try k moves the counter and finds its id held. */
  predicate Taken(from: int, writable: nat -> bool, taken: set<int>, k: nat) { from + k in taken && writable(k) }

  /** Try i is the first that ends the search. */
  predicate Stops(from: int, writable: nat -> bool, taken: set<int>, i: int) {
    i >= 0 && !Taken(from, writable, taken, i) && forall k: nat :: k < i ==> Taken(from, writable, taken, k)
  }

  /** And it is granted its id. */
  predicate Serves(from: int, writable: nat -> bool, taken: set<int>, outcome: int -> Outcome, i: int) {
    Stops(from, writable, taken, i) && i < ATTEMPTS && writable(i) && outcome(from + i).Works?
  }

  lemma OneStop(from: int, writable: nat -> bool, taken: set<int>, outcome: int -> Outcome, i: nat)
    requires !Taken(from, writable, taken, i) && forall k: nat :: k < i ==> Taken(from, writable, taken, k)
    ensures Stops(from, writable, taken, i)
    ensures (exists j :: Serves(from, writable, taken, outcome, j)) ==> Serves(from, writable, taken, outcome, i)
  {
    forall j | Serves(from, writable, taken, outcome, j) ensures j == i {}
  }

  /** The largest recorded id, or 0. */
  ghost function MarkOf(ids: set<int>): (m: int)
    ensures m >= 0 && forall id :: id in ids ==> id <= m
    ensures m == 0 || m in ids
  {
    if ids == {} then 0
    else
      NotEmpty(ids);
      var some: int :| some in ids;
      var rest := MarkOf(ids - {some});
      assert forall id :: id in ids ==> id == some || id in ids - {some};
      Max(some, rest)
  }

  lemma NotEmpty(ids: set<int>)
    requires ids != {}
    ensures exists id :: id in ids
  {
    if forall id :: id !in ids { assert false; }
  }

  lemma MarkIsMax(ids: set<int>, m: int)
    requires m >= 0 && (m == 0 || m in ids) && forall id :: id in ids ==> id <= m
    ensures m == MarkOf(ids)
  {}

  // ------------------------------------------------------------- the /30 per VM

  /** The last two octets, as they are printed. */
  datatype Ip = Ip(third: int, fourth: int)

  const SUBNET := 0x0AC9_0000 // 10.201.0.0

  function NsIp(idx: nat): Ip { Ip((idx * 4 + 2) / 256, (idx * 4 + 2) % 256) }

  function HostIp(idx: nat): Ip { Ip((idx * 4 + 1) / 256, (idx * 4 + 1) % 256) }

  predicate ValidIp(ip: Ip) { 0 <= ip.third < 256 && 0 <= ip.fourth < 256 }

  /** The address 10.201.third.fourth as a number. */
  function Value(ip: Ip): int { SUBNET + ip.third * 256 + ip.fourth }

  /** The /30 an address lies in, by its first address. */
  function NetworkOf(address: int): int { address - address % 4 }

  /**
   * Both ends of a VM's link are addresses of 10.201.0.0/16 exactly while its
   * index is below 16384; they are then the two host addresses of one /30, and
   * no other index has that /30.
   */
  lemma LinksAreValidAndDisjoint(idx: nat, other: nat)
    ensures ValidIp(NsIp(idx)) <==> idx < 16384
    ensures ValidIp(HostIp(idx)) <==> idx < 16384
    ensures var net := NetworkOf(Value(HostIp(idx)));
      Value(HostIp(idx)) == net + 1 && Value(NsIp(idx)) == net + 2 && NetworkOf(Value(NsIp(idx))) == net
    ensures idx != other ==> NetworkOf(Value(HostIp(idx))) != NetworkOf(Value(HostIp(other)))
    ensures idx < 16384 ==> SUBNET <= NetworkOf(Value(HostIp(idx))) && Value(NsIp(idx)) + 1 < SUBNET + 0x1_0000
  {
    ValueIs(idx);
    ValueIs(other);
    ValidIff(idx);
    NetworkIs(idx);
    NetworkIs(other);
  }

  lemma ValidIff(idx: nat)
    ensures ValidIp(NsIp(idx)) <==> idx < 16384
    ensures ValidIp(HostIp(idx)) <==> idx < 16384
  {
    assert (idx * 4 + 2) / 256 < 256 <==> idx < 16384;
    assert (idx * 4 + 1) / 256 < 256 <==> idx < 16384;
  }

  lemma NetworkIs(idx: nat)
    ensures NetworkOf(SUBNET + idx * 4 + 1) == SUBNET + idx * 4
    ensures NetworkOf(SUBNET + idx * 4 + 2) == SUBNET + idx * 4
  {}

  lemma ValueIs(idx: nat)
    ensures Value(HostIp(idx)) == SUBNET + idx * 4 + 1 && Value(NsIp(idx)) == SUBNET + idx * 4 + 2
  {}
}
