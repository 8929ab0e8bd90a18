/**
 * The response writer that meters one request: it settles the status, counts
 * the bytes, hands over a counted connection, and books the request once.
 */
module MeteredWriter {
  import opened Common
  import opened Ledger
  import opened Meter

  /** What a handler does with its writer. */
  datatype Call = Header(code: int) | Body(n: nat) | Hijacked

  predicate Settles(c: Call) { c.Header? ==> c.code >= 200 }

  function StatusOf(c: Call): int {
    match c
    case Header(code) => code
    case Body(_) => 200
    case Hijacked => 101
  }

  /** The status after the calls; 0 while none has settled it. */
  function Status(calls: seq<Call>): int {
    if calls == [] then 0
    else
      var s := Status(calls[..|calls| - 1]);
      var last := calls[|calls| - 1];
      if s == 0 && Settles(last) then StatusOf(last) else s
  }

  function BytesOut(calls: seq<Call>): int {
    if calls == [] then 0
    else BytesOut(calls[..|calls| - 1]) + if calls[|calls| - 1].Body? then calls[|calls| - 1].n else 0
  }

  /** net/http's implicit status for a handler that never wrote one. */
  function Final(calls: seq<Call>): int { if Status(calls) == 0 then 200 else Status(calls) }

  /** The status is settled by the first final response, write or hijack, whatever follows. */
  lemma {:induction false} FirstFinalWins(calls: seq<Call>, i: nat)
    requires i < |calls| && Settles(calls[i]) && forall j :: 0 <= j < i ==> !Settles(calls[j])
    ensures Status(calls) == Final(calls) == StatusOf(calls[i])
    decreases |calls|
  {
    var pre := calls[..|calls| - 1];
    if i == |pre| { NoneSettles(pre); } else { FirstFinalWins(pre, i); }
  }

  lemma {:induction false} NoneSettles(calls: seq<Call>)
    requires forall j :: 0 <= j < |calls| ==> !Settles(calls[j])
    ensures Status(calls) == 0
  {
    if calls != [] { NoneSettles(calls[..|calls| - 1]); }
  }

  class Writer {
    const m: TrafficMeter
    const workload: Name
    const project: Name
    var status: int
    var out: int
    var bodyRead: int
    var conn: Option<nat>
    ghost var calls: seq<Call>

    ghost predicate Valid()
      reads this, m, m.shards
    {
      && m.Valid() && status == Status(calls) && out == BytesOut(calls)
      && (conn.Some? ==> conn.value in m.conns && !m.conns[conn.value].stage.Closing?)
    }

    constructor (m: TrafficMeter, workload: Name, project: Name)
      requires m.Valid()
      ensures Valid() && calls == [] && this.m == m && this.workload == workload && this.project == project
      ensures bodyRead == 0 && conn == None
    {
      this.m, this.workload, this.project := m, workload, project;
      status, out, bodyRead, conn, calls := 0, 0, 0, None, [];
    }

    method WriteHeader(code: int)
      requires Valid()
      modifies this`status, this`calls
      ensures Valid() && calls == old(calls) + [Header(code)]
      ensures status == if old(status) == 0 && code >= 200 then code else old(status)
    {
      if status == 0 && code >= 200 { status := code; }
      calls := calls + [Header(code)];
    }

    method Write(n: nat)
      requires Valid()
      modifies this`status, this`out, this`calls
      ensures Valid() && calls == old(calls) + [Body(n)]
      ensures out == old(out) + n && status == if old(status) == 0 then 200 else old(status)
    {
      if status == 0 { status := 200; }
      out := out + n;
      calls := calls + [Body(n)];
    }

    method ReadBody(n: nat)
      requires Valid()
      modifies this`bodyRead
      ensures Valid() && bodyRead == old(bodyRead) + n
    {
      bodyRead := bodyRead + n;
    }

    /** release, which closes and Finish share: only the first one books. */
    method Release(id: nat, minute: int)
      requires Valid() && id in m.conns
      modifies m`conns, m`live, m`open, m.shards
      ensures Valid() && id in m.conns && !m.conns[id].stage.Live?
      ensures m.View() == if old(m.conns[id].stage.Live?) then Booked(Next(old(m.View()), Untrack(id)), id, minute) else old(m.View())
      ensures old(m.conns[id].stage.Live?) ==> BookedAt(old(m.conns[id]), old(m.open), m.open, minute)
    {
      if m.conns[id].stage.Live? { m.UntrackConn(id, minute); }
    }

    /**
     * Hijack: a counted connection is tracked; bytes the server had buffered count
     * as read. A refused hijack changes nothing, and one whose pending output
     * cannot be flushed books its connection at once.
     */
    method Hijack(granted: bool, id: nat, buffered: nat, flushed: bool, minute: int) returns (err: bool)
      requires Valid() && id !in m.conns
      modifies this`status, this`conn, this`calls, m`conns, m`live, m`recorded, m`open, m.shards
      ensures Valid() && err == !(granted && flushed)
      ensures !granted ==> calls == old(calls) && conn == old(conn) && m.View() == old(m.View())
      ensures granted ==> calls == old(calls) + [Hijacked] && conn == Some(id)
      ensures status == if granted && old(status) == 0 then 101 else old(status)
      ensures granted ==>
        var s := Next(old(m.View()), Track(id, workload, project));
        var t := if buffered == 0 then s else Next(s, Carry(id, buffered, 0));
        m.View() == if flushed then t else Booked(Next(t, Untrack(id)), id, minute)
    {
      if !granted { return true; }
      TakeOver(id, buffered);
      if !flushed { Release(id, minute); }
      return !flushed;
    }

    method TakeOver(id: nat, buffered: nat)
      requires Valid() && id !in m.conns
      modifies this`status, this`conn, this`calls, m`conns, m`live, m`recorded
      ensures Valid() && calls == old(calls) + [Hijacked] && conn == Some(id) && id in m.conns && m.conns[id].stage.Live?
      ensures status == if old(status) == 0 then 101 else old(status)
      ensures var s := Next(old(m.View()), Track(id, workload, project));
        m.View() == if buffered == 0 then s else Next(s, Carry(id, buffered, 0))
    {
      if status == 0 { status := 101; }
      m.TrackConn(id, workload, project);
      conn := Some(id);
      if buffered != 0 { m.CarryBytes(id, buffered, 0); }
      calls := calls + [Hijacked];
    }

    /** Finish books exactly one request, with the settled status and the bytes of both bodies. */
    method Finish(minute: int)
      requires Valid()
      modifies m`conns, m`live, m`open, m`recorded, m.shards
      ensures Valid()
      ensures var before := if conn.Some? && old(m.conns[conn.value].stage.Live?)
                            then Booked(Next(old(m.View()), Untrack(conn.value)), conn.value, minute) else old(m.View());
        m.View() == Next(before, Record(minute, workload, project, OneRequest(Final(calls), bodyRead, BytesOut(calls))))
      ensures |m.recorded| == |old(m.recorded)| + 1 && m.recorded[|old(m.recorded)|].workload == workload
      ensures CountsOne(m.recorded[|old(m.recorded)|].counters, if status == 0 then 200 else status, bodyRead, out)
    {
      var st := status;
      if st == 0 { st := 200; }
      if conn.Some? { Release(conn.value, minute); }
      m.RecordRequest(minute, workload, project, st, bodyRead, out);
    }
  }
}
