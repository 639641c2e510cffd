/** Reading from pipes and sockets: FIFO order across any interleaving, and when a read may report the end. */
module Pipes {
  import opened Options
  import opened Rings

  const MAX_PROC: nat := 64
  const MAX_FDS: nat := 16
  const PIPE: nat := 3

  datatype Fd = Fd(used: bool, kind: nat, pipe: int, wend: bool)

  /** A process slot: whether it is empty, and its descriptor table if it has one. */
  datatype Process = Process(empty: bool, table: Option<seq<Fd>>)

  ghost predicate Table(ps: seq<Process>) {
    |ps| == MAX_PROC && forall i :: 0 <= i < |ps| && ps[i].table.Some? ==> |ps[i].table.value| == MAX_FDS
  }

  predicate WriteEnd(f: Fd, p: int) { f.used && f.kind == PIPE && f.pipe == p && f.wend }

  /** A process that is not empty holds a write end of pipe `p`. */
  ghost predicate HoldsWriter(q: Process, p: int) {
    !q.empty && q.table.Some? && exists j :: 0 <= j < |q.table.value| && WriteEnd(q.table.value[j], p)
  }

  ghost predicate WriterAlive(ps: seq<Process>, p: int) { exists i :: 0 <= i < |ps| && HoldsWriter(ps[i], p) }

  method TableHolds(t: seq<Fd>, p: int) returns (found: bool)
    ensures found <==> exists j :: 0 <= j < |t| && WriteEnd(t[j], p)
  {
    for j := 0 to |t|
      invariant forall k :: 0 <= k < j ==> !WriteEnd(t[k], p)
    {
      if WriteEnd(t[j], p) { return true; }
    }
    found := false;
  }

  method PipeWritersAlive(ps: seq<Process>, p: int) returns (alive: bool)
    requires Table(ps)
    ensures alive <==> WriterAlive(ps, p)
  {
    for i := 0 to MAX_PROC
      invariant forall k :: 0 <= k < i ==> !HoldsWriter(ps[k], p)
    {
      if !ps[i].empty && ps[i].table.Some? {
        var found := TableHolds(ps[i].table.value, p);
        if found { return true; }
      }
    }
    alive := false;
  }

  // ---- reads -------------------------------------------------------------------------------------------

  method SockPop(s: ByteRing, count: int) returns (r: int, out: seq<nat>)
    requires s.Valid()
    modifies s`rpos, s`queue, s`delivered
    ensures s.Valid() && old(s.queue) == out + s.queue && s.delivered == old(s.delivered) + out
    ensures !s.used ==> r == -1 && out == []
    ensures s.used && old(s.queue) == [] ==> r == (if s.nonblock then EAGAIN else 0) && out == []
    ensures s.used && old(s.queue) != [] ==> r == |out| == Min(if count < 0 then 0 else count, |old(s.queue)|)
  {
    out := [];
    if !s.used { return -1, []; }
    GapIsLength(s.buf[..], s.rpos, s.wpos, s.queue);
    if s.rpos == s.wpos { return if s.nonblock then EAGAIN else 0, []; }
    out := s.Drain(count);
    r := |out|;
  }

  ghost function Flat(chunks: seq<seq<nat>>): seq<nat> {
    if chunks == [] then [] else Flat(chunks[..|chunks| - 1]) + chunks[|chunks| - 1]
  }

  lemma {:induction false} FlatAppend(chunks: seq<seq<nat>>, out: seq<nat>)
    ensures Flat(chunks + [out]) == Flat(chunks) + out
  {
    assert (chunks + [out])[..|chunks|] == chunks;
  }

  /** A buffer of a vectored read: whether it is there, and its length. */
  datatype Iov = Iov(base: bool, len: nat)

  function Room(v: Iov): nat { if v.base then v.len else 0 }

  method FillOne(s: ByteRing, v: Iov) returns (out: seq<nat>)
    requires s.Valid()
    modifies s`rpos, s`queue, s`delivered
    ensures s.Valid() && old(s.queue) == out + s.queue && s.delivered == old(s.delivered) + out
    ensures |out| <= Room(v) && (|out| < Room(v) ==> s.queue == [])
  {
    out := [];
    if v.base && v.len > 0 { out := s.Drain(v.len); }
  }

  /** Fills the buffers in turn; stops at the first one it cannot fill. */
  method Readv(s: ByteRing, iov: seq<Iov>) returns (r: int, chunks: seq<seq<nat>>)
    requires s.Valid()
    modifies s`rpos, s`queue, s`delivered
    ensures s.Valid() && old(s.queue) == Flat(chunks) + s.queue && s.delivered == old(s.delivered) + Flat(chunks)
    ensures (|iov| == 0 || |iov| > 16 || !s.used) ==> r == -1 && chunks == []
    ensures 0 < |iov| <= 16 && s.used ==> r == |Flat(chunks)| && |chunks| <= |iov|
    ensures forall i :: 0 <= i < |chunks| ==> |chunks[i]| <= Room(iov[i])
    ensures 0 < |iov| <= 16 && s.used && s.queue != [] ==>
              |chunks| == |iov| && forall i :: 0 <= i < |chunks| ==> |chunks[i]| == Room(iov[i])
  {
    chunks := [];
    if |iov| == 0 || |iov| > 16 { return -1, []; }
    if !s.used { return -1, []; }
    r := 0;
    hide Ring, Flat, Room;
    assert Flat([]) == [] by { FlatNone(); }
    while |chunks| < |iov|
      invariant s.Valid() && |chunks| <= |iov| && s.used
      invariant old(s.queue) == Flat(chunks) + s.queue && s.delivered == old(s.delivered) + Flat(chunks)
      invariant r == |Flat(chunks)|
      invariant forall k :: 0 <= k < |chunks| ==> |chunks[k]| == Room(iov[k])
    {
      var v := iov[|chunks|];
      var out := FillOne(s, v);
      FlatAppend(chunks, out);
      chunks := chunks + [out];
      r := r + |out|;
      if |out| < Room(v) { return; }
    }
  }

  lemma {:induction false} FlatNone()
    ensures Flat([]) == []
  {
  }

  /** What other processes may do while a reader waits. */
  datatype Event = Wrote(data: seq<nat>) | Took(count: int) | Slot(i: nat, q: Process)

  ghost predicate EventOk(e: Event) {
    e.Slot? ==> e.i < MAX_PROC && (e.q.table.Some? ==> |e.q.table.value| == MAX_FDS)
  }

  /** A pipe's queue and the processes that may hold its ends. */
  datatype Pipe = Pipe(queue: seq<nat>, procs: seq<Process>)

  function Asked(count: int): nat { if count < 0 then 0 else count }

  /** What a read of `count` bytes takes. */
  ghost function Front(q: seq<nat>, count: int): seq<nat> { q[..Min(Asked(count), |q|)] }

  ghost function Rest(q: seq<nat>, count: int): seq<nat> { q[Min(Asked(count), |q|)..] }

  ghost function Given(p: Pipe, e: Event): seq<nat> { if e.Took? then Front(p.queue, e.count) else [] }

  ghost predicate PipeOk(p: Pipe) { |p.queue| <= SIZE && Table(p.procs) }

  ghost function Apply(p: Pipe, e: Event): (r: Pipe)
    requires PipeOk(p) && EventOk(e)
    ensures PipeOk(r)
  {
    match e
    case Wrote(data) => p.(queue := p.queue + data[..Min(|data|, SIZE - |p.queue|)])
    case Took(count) => p.(queue := Rest(p.queue, count))
    case Slot(i, q) => p.(procs := p.procs[i := q])
  }

  ghost predicate EventsOk(es: seq<Event>) { forall i :: 0 <= i < |es| ==> EventOk(es[i]) }

  /** The pipe after the first `n` events. */
  ghost function After(p: Pipe, es: seq<Event>, n: nat): (r: Pipe)
    requires PipeOk(p) && EventsOk(es) && n <= |es|
    ensures PipeOk(r)
  {
    if n == 0 then p else Apply(After(p, es, n - 1), es[n - 1])
  }

  /** The bytes those events took, in order. */
  ghost function Taken(p: Pipe, es: seq<Event>, n: nat): seq<nat>
    requires PipeOk(p) && EventsOk(es) && n <= |es|
  {
    if n == 0 then [] else Taken(p, es, n - 1) + Given(After(p, es, n - 1), es[n - 1])
  }

  ghost predicate TurnsOk(turns: seq<seq<Event>>) { forall i :: 0 <= i < |turns| ==> EventsOk(turns[i]) }

  /** The same for the first `n` turns of the others, any number of events each. */
  ghost function AfterTurns(p: Pipe, turns: seq<seq<Event>>, n: nat): (r: Pipe)
    requires PipeOk(p) && TurnsOk(turns) && n <= |turns|
    ensures PipeOk(r)
  {
    if n == 0 then p else After(AfterTurns(p, turns, n - 1), turns[n - 1], |turns[n - 1]|)
  }

  ghost function TakenInTurns(p: Pipe, turns: seq<seq<Event>>, n: nat): seq<nat>
    requires PipeOk(p) && TurnsOk(turns) && n <= |turns|
  {
    if n == 0 then []
    else TakenInTurns(p, turns, n - 1) + Taken(AfterTurns(p, turns, n - 1), turns[n - 1], |turns[n - 1]|)
  }

  /** A blocking reader waits: the pipe is empty and someone may still write. */
  ghost predicate Waits(p: Pipe, index: int) { p.queue == [] && WriterAlive(p.procs, index) }

  /** A blocking read waited for exactly the first `n` turns, the first after which it need not wait; then it took
      from the front of what there was. It is still waiting when the turns are over and it must. */
  ghost predicate ReadAfter(p: Pipe, turns: seq<seq<Event>>, n: nat, index: int, r: Option<int>, out: seq<nat>,
                            queue: seq<nat>)
    requires PipeOk(p) && TurnsOk(turns) && n <= |turns|
  {
    && (forall j :: 0 <= j < n ==> Waits(AfterTurns(p, turns, j), index))
    && var q := AfterTurns(p, turns, n);
    if Waits(q, index) then n == |turns| && r == None && out == [] && queue == q.queue
    else r == Some(|out|) && q.queue == out + queue
  }

  class PipeSystem {
    const ring: ByteRing
    const index: int
    var procs: seq<Process>

    constructor (r: ByteRing, p: int, ps: seq<Process>)
      requires Table(ps)
      ensures ring == r && index == p && procs == ps
    {
      ring, index, procs := r, p, ps;
    }

    ghost predicate Valid()
      reads this, ring, ring.buf
    {
      ring.Valid() && Table(procs)
    }

    ghost function View(): Pipe
      reads this, ring
    {
      Pipe(ring.queue, procs)
    }

    method Happen(e: Event)
      requires Valid() && EventOk(e) && ring.used
      modifies this, ring, ring.buf
      ensures Valid() && ring.used && PipeOk(old(View())) && View() == Apply(old(View()), e)
      ensures ring.delivered == old(ring.delivered) + Given(old(View()), e)
    {
      match e
      case Wrote(data) => var _ := ring.Write(data, false);
      case Took(count) =>
        var out := ring.Drain(count);
        assert out == Front(out + ring.queue, count);
      case Slot(i, q) => procs := procs[i := q];
    }

    /** What the others do before the reader runs again. */
    method Turn(es: seq<Event>)
      requires Valid() && EventsOk(es) && ring.used
      modifies this, ring, ring.buf
      ensures Valid() && ring.used && PipeOk(old(View())) && View() == After(old(View()), es, |es|)
      ensures ring.delivered == old(ring.delivered) + Taken(old(View()), es, |es|)
    {
      hide Ring, Apply, Given, Table, EventOk, PipeOk;
      ghost var p, d := View(), ring.delivered;
      ViewOk();
      for i := 0 to |es|
        invariant Valid() && ring.used && View() == After(p, es, i)
        invariant ring.delivered == d + Taken(p, es, i)
      {
        Happen(es[i]);
      }
    }

    lemma ViewOk()
      requires Valid()
      ensures PipeOk(View())
    {
    }

    /** A read of `count` bytes while the others take their turns. `None` when those are over first: the reader
        is still waiting. Whatever left the pipe is what the others took, followed by what was read. */
    method Read(nonblock: bool, count: int, turns: seq<seq<Event>>)
      returns (r: Option<int>, out: seq<nat>, ghost n: nat)
      requires Valid() && TurnsOk(turns)
      modifies this, ring, ring.buf
      ensures Valid() && n <= |turns| && ring.used == old(ring.used) && PipeOk(old(View()))
      ensures !ring.used ==> r == Some(-1) && out == [] && n == 0 && ring.queue == old(ring.queue)
      ensures ring.used && nonblock ==> n == 0 && procs == old(procs)
      ensures ring.used && nonblock && old(ring.queue) == [] ==> r == Some(EAGAIN) && out == [] && ring.queue == []
      ensures ring.used && nonblock && old(ring.queue) != [] ==>
                r == Some(|out|) && old(ring.queue) == out + ring.queue
      ensures |out| <= (if count < 0 then 0 else count)
      ensures r.Some? && r.value >= 0 && |out| < count ==> ring.queue == []
      ensures ring.used && !nonblock ==>
                && ReadAfter(old(View()), turns, n, index, r, out, ring.queue)
                && procs == AfterTurns(old(View()), turns, n).procs
      ensures ring.delivered == old(ring.delivered) + TakenInTurns(old(View()), turns, n) + out
    {
      out, n := [], 0;
      ghost var p := View();
      ViewOk();
      if !ring.used { return Some(-1), out, n; }
      GapIsLength(ring.buf[..], ring.rpos, ring.wpos, ring.queue);
      hide Ring, After, Taken, Waits, Table, PipeOk, EventsOk;
      if nonblock {
        if ring.rpos == ring.wpos { return Some(EAGAIN), out, n; }
      } else {
        var ready;
        ready, n := Await(turns);
        if !ready { return None, out, n; }
      }
      out := ring.Drain(count);
      r := Some(|out|);
    }

    /** The waiting loop of a blocking read. */
    method Await(turns: seq<seq<Event>>) returns (ready: bool, ghost n: nat)
      requires Valid() && TurnsOk(turns) && ring.used
      modifies this, ring, ring.buf
      ensures Valid() && n <= |turns| && ring.used && PipeOk(old(View()))
      ensures View() == AfterTurns(old(View()), turns, n)
      ensures ring.delivered == old(ring.delivered) + TakenInTurns(old(View()), turns, n)
      ensures forall j :: 0 <= j < n ==> Waits(AfterTurns(old(View()), turns, j), index)
      ensures ready == !Waits(View(), index) && (!ready ==> n == |turns|)
    {
      hide Ring, After, Taken, WriterAlive, EventsOk, PipeOk, AfterTurns, TakenInTurns;
      ghost var p, d := View(), ring.delivered;
      ViewOk();
      NoTurns(p, turns);
      GapIsLength(ring.buf[..], ring.rpos, ring.wpos, ring.queue);
      var i := 0;
      while true
        invariant Valid() && i <= |turns| && ring.used && (ring.rpos == ring.wpos <==> ring.queue == [])
        invariant View() == AfterTurns(p, turns, i) && ring.delivered == d + TakenInTurns(p, turns, i)
        invariant forall j :: 0 <= j < i ==> Waits(AfterTurns(p, turns, j), index)
        decreases |turns| - i
      {
        if ring.rpos != ring.wpos { return true, i; }
        var alive := PipeWritersAlive(procs, index);
        if !alive { return true, i; }
        if i == |turns| { return false, i; }
        NextTurn(p, turns, i);
        Turn(turns[i]);
        GapIsLength(ring.buf[..], ring.rpos, ring.wpos, ring.queue);
        i := i + 1;
      }
    }
  }

  lemma {:induction false} NoTurns(p: Pipe, turns: seq<seq<Event>>)
    requires PipeOk(p) && TurnsOk(turns)
    ensures AfterTurns(p, turns, 0) == p && TakenInTurns(p, turns, 0) == []
  {
  }

  lemma {:induction false} NextTurn(p: Pipe, turns: seq<seq<Event>>, i: nat)
    requires PipeOk(p) && TurnsOk(turns) && i < |turns|
    ensures EventsOk(turns[i])
    ensures var q, k := AfterTurns(p, turns, i), |turns[i]|;
            && AfterTurns(p, turns, i + 1) == After(q, turns[i], k)
            && TakenInTurns(p, turns, i + 1) == TakenInTurns(p, turns, i) + Taken(q, turns[i], k)
  {
    hide After, Taken, EventsOk;
  }

  /** End of file, that is, no byte for a positive count, is reported only when no process holds a write end. */
  lemma {:induction false} EndOfFile(p: Pipe, turns: seq<seq<Event>>, n: nat, index: int, count: int, out: seq<nat>,
                                     queue: seq<nat>)
    requires PipeOk(p) && TurnsOk(turns) && n <= |turns| && count > 0
    requires ReadAfter(p, turns, n, index, Some(0), out, queue) && (|out| < count ==> queue == [])
    ensures var q := AfterTurns(p, turns, n); q.queue == [] && !WriterAlive(q.procs, index)
  {
    hide AfterTurns;
  }
}
