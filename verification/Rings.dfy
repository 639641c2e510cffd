/** The kernel's byte rings, behind pipes and sockets, as queues. */
module Rings {

  const SIZE: nat := 4096
  const W32: nat := 0x1_0000_0000
  const EAGAIN: int := -11

  /** Where the byte counted by position `p` is kept. */
  function Slot(p: nat): (r: nat)
    ensures r < SIZE
  {
    p % SIZE
  }

  function Bump(p: nat): nat { (p + 1) % W32 }

  /** `w - r` on 32-bit counters. */
  function Gap(w: nat, r: nat): nat
    requires r < W32 && w < W32
  {
    if w >= r then w - r else W32 + w - r
  }

  lemma {:induction false} SlotWraps(p: nat, i: nat)
    ensures Slot((p + i) % W32) == Slot(p + i)
  {
  }

  lemma {:induction false} SlotsApart(p: nat, i: nat, j: nat)
    requires i < j < i + SIZE
    ensures Slot(p + i) != Slot(p + j)
  {
  }

  function Min(a: int, b: int): int { if a < b then a else b }

  /** What the counters and the buffer say the queue is. */
  ghost predicate Ring(buf: seq<nat>, rpos: nat, wpos: nat, q: seq<nat>) {
    && |buf| == SIZE && rpos < W32 && |q| <= SIZE && wpos == (rpos + |q|) % W32
    && forall i: nat :: i < |q| ==> Kept(buf, rpos, q, i)
  }

  ghost predicate Kept(buf: seq<nat>, rpos: nat, q: seq<nat>, i: nat) {
    |buf| == SIZE && i < |q| && buf[Slot(rpos + i)] == q[i]
  }

  lemma {:induction false} GapIsLength(buf: seq<nat>, rpos: nat, wpos: nat, q: seq<nat>)
    requires Ring(buf, rpos, wpos, q)
    ensures wpos < W32 && Gap(wpos, rpos) == |q| && (rpos == wpos <==> q == [])
  {
  }

  lemma {:induction false} PutStep(buf: seq<nat>, rpos: nat, wpos: nat, q: seq<nat>, b: nat)
    requires Ring(buf, rpos, wpos, q) && |q| < SIZE
    ensures Ring(buf[Slot(wpos) := b], rpos, Bump(wpos), q + [b])
  {
    SlotWraps(rpos, |q|);
    var buf', q' := buf[Slot(wpos) := b], q + [b];
    forall i: nat | i < |q'| ensures Kept(buf', rpos, q', i) {
      if i < |q| {
        assert Kept(buf, rpos, q, i);
        SlotsApart(rpos, i, |q|);
      }
    }
    assert Bump(wpos) == (rpos + |q'|) % W32;
  }

  lemma {:induction false} TakeStep(buf: seq<nat>, rpos: nat, wpos: nat, q: seq<nat>)
    requires Ring(buf, rpos, wpos, q) && q != []
    ensures buf[Slot(rpos)] == q[0] && Ring(buf, Bump(rpos), wpos, q[1..])
  {
    assert Kept(buf, rpos, q, 0);
    var r', q' := Bump(rpos), q[1..];
    forall i: nat | i < |q'| ensures Kept(buf, r', q', i) {
      assert Kept(buf, rpos, q, i + 1);
      SlotWraps(rpos, 1);
      BumpSlot(rpos, i);
    }
    assert wpos == (r' + |q'|) % W32;
  }

  lemma {:induction false} BumpSlot(p: nat, i: nat)
    requires p < W32
    ensures Slot(Bump(p) + i) == Slot(p + i + 1)
  {
  }

  /** A ring with its counters; `accepted` and `delivered` record every byte that went in and came out. */
  class ByteRing {
    const buf: array<nat>
    var used: bool
    var nonblock: bool
    var rpos: nat
    var wpos: nat
    ghost var queue: seq<nat>
    ghost var accepted: seq<nat>
    ghost var delivered: seq<nat>

    ghost predicate Valid()
      reads this, buf
    {
      buf.Length == SIZE && Ring(buf[..], rpos, wpos, queue) && accepted == delivered + queue
    }

    constructor ()
      ensures Valid() && queue == [] && accepted == [] && delivered == [] && fresh(buf) && used
    {
      buf := new nat[SIZE](_ => 0);
      used, nonblock := true, false;
      rpos, wpos, queue, accepted, delivered := 0, 0, [], [], [];
    }

    method Put(b: nat)
      requires Valid() && |queue| < SIZE
      modifies this`wpos, this`queue, this`accepted, buf
      ensures Valid() && queue == old(queue) + [b] && accepted == old(accepted) + [b]
    {
      PutStep(buf[..], rpos, wpos, queue, b);
      GapIsLength(buf[..], rpos, wpos, queue);
      buf[Slot(wpos)] := b;
      wpos := Bump(wpos);
      queue, accepted := queue + [b], accepted + [b];
      hide Ring;
    }

    method Take() returns (b: nat)
      requires Valid() && queue != []
      modifies this`rpos, this`queue, this`delivered
      ensures Valid() && b == old(queue)[0] && queue == old(queue)[1..] && delivered == old(delivered) + [b]
    {
      TakeStep(buf[..], rpos, wpos, queue);
      b := buf[Slot(rpos)];
      rpos := Bump(rpos);
      delivered := delivered + [b];
      queue := queue[1..];
      hide Ring;
    }

    /** Pipe writes and `sock_push`: takes as many bytes as fit; a full ring refuses. */
    method Write(data: seq<nat>, again: bool) returns (r: int)
      requires Valid()
      modifies this`wpos, this`queue, this`accepted, buf
      ensures Valid()
      ensures !used ==> r == -1 && queue == old(queue)
      ensures used && |old(queue)| == SIZE ==> r == (if again then EAGAIN else -1) && queue == old(queue)
      ensures used && |old(queue)| < SIZE ==> r == Min(|data|, SIZE - |old(queue)|) && queue == old(queue) + data[..r]
      ensures accepted == old(accepted) + queue[|old(queue)|..] && |queue| >= |old(queue)|
    {
      if !used { return -1; }
      GapIsLength(buf[..], rpos, wpos, queue);
      if Gap(wpos, rpos) >= SIZE { return if again then EAGAIN else -1; }
      var n := 0;
      assert data[..0] == [];
      hide Ring;
      while n < |data| && Gap(wpos, rpos) < SIZE
        invariant Valid() && n <= |data| && n <= SIZE - |old(queue)|
        invariant queue == old(queue) + data[..n] && accepted == old(accepted) + data[..n]
        invariant rpos < W32 && wpos < W32 && Gap(wpos, rpos) == |queue|
      {
        Put(data[n]);
        GapIsLength(buf[..], rpos, wpos, queue);
        assert data[..n + 1] == data[..n] + [data[n]];
        n := n + 1;
      }
      r := n;
    }

    /** The loops that empty a ring: at most `count` bytes, in order. */
    method Drain(count: int) returns (out: seq<nat>)
      requires Valid()
      modifies this`rpos, this`queue, this`delivered
      ensures Valid() && |out| == Min(if count < 0 then 0 else count, |old(queue)|)
      ensures old(queue) == out + queue && delivered == old(delivered) + out
    {
      out := [];
      GapIsLength(buf[..], rpos, wpos, queue);
      hide Ring;
      while |out| < count && rpos != wpos
        invariant Valid() && old(queue) == out + queue && delivered == old(delivered) + out
        invariant |out| <= (if count < 0 then 0 else count) && (rpos == wpos <==> queue == [])
        decreases |queue|
      {
        var b := Take();
        out := out + [b];
        GapIsLength(buf[..], rpos, wpos, queue);
      }
    }
  }
}
