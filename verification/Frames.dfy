/** Frame numbers and the aligned power-of-two runs the buddy allocator deals in.

    A run of order `o` is the set of frames that agree after `o` right shifts, so
    nesting and disjointness of runs reduce to equality of shifted numbers. */
module Frames {

  const MAX_ORDER: nat := 14
  const FRAME_COUNT: nat := 16384
  const FRAME_SIZE: nat := 4096
  const HEAP_PHYS: nat := 0xA00000
  const HEAP_SIZE: nat := 0x4000000

  function Pow2(o: nat): (r: nat)
    ensures r >= 1
  {
    if o == 0 then 1 else 2 * Pow2(o - 1)
  }

  /** `f >> o` */
  function Shr(f: nat, o: nat): nat {
    if o == 0 then f else Shr(f, o - 1) / 2
  }

  /** The low `o` bits of `h` are clear. */
  predicate Aligned(h: nat, o: nat) {
    o == 0 || (Aligned(h, o - 1) && Shr(h, o - 1) % 2 == 0)
  }

  /** Frame `f` lies in the aligned run of order `o` that contains `h`. */
  predicate InRun(f: nat, h: nat, o: nat) {
    Shr(f, o) == Shr(h, o)
  }

  /** `h ^ (1 << o)` */
  function FlipBit(h: nat, o: nat): nat {
    if Shr(h, o) % 2 == 0 then h + Pow2(o) else SubPow2(h, o)
  }

  function SubPow2(h: nat, o: nat): nat {
    if h >= Pow2(o) then h - Pow2(o) else 0
  }

  lemma {:induction false} RunWidens(f: nat, h: nat, i: nat, j: nat)
    requires i <= j && InRun(f, h, i)
    ensures InRun(f, h, j)
  {
    if i < j { RunWidens(f, h, i, j - 1); }
  }

  lemma {:induction false} AlignedNarrows(h: nat, i: nat, j: nat)
    requires i <= j && Aligned(h, j)
    ensures Aligned(h, i)
  {
    if i < j { AlignedNarrows(h, i, j - 1); }
  }

  /** A run has one aligned member. */
  lemma {:induction false} AlignedUnique(a: nat, b: nat, o: nat)
    requires Aligned(a, o) && Aligned(b, o) && InRun(a, b, o)
    ensures a == b
  {
    if o > 0 { AlignedUnique(a, b, o - 1); }
  }

  lemma {:induction false} ShrAdd(h: nat, o: nat)
    ensures Shr(h + Pow2(o), o) == Shr(h, o) + 1
    decreases o
  {
    if o > 0 {
      var p := Pow2(o - 1);
      ShrAdd(h, o - 1);
      ShrAdd(h + p, o - 1);
      assert h + Pow2(o) == h + p + p;
    }
  }

  lemma {:induction false} ShrMono(f: nat, g: nat, o: nat)
    requires f <= g
    ensures Shr(f, o) <= Shr(g, o)
  {
    if o > 0 { ShrMono(f, g, o - 1); }
  }

  lemma {:induction false} AlignedAdd(h: nat, o: nat, p: nat)
    requires p <= o && Aligned(h, p)
    ensures Aligned(h + Pow2(o), p)
  {
    if p > 0 {
      AlignedAdd(h, o, p - 1);
      ShrAddHigh(h, o, p - 1);
      var d, e := Pow2(o - p + 1), Pow2(o - p);
      assert d == 2 * e;
      hide Pow2, Shr;
      assert Shr(h + Pow2(o), p - 1) == Shr(h, p - 1) + 2 * e;
    }
  }

  lemma {:induction false} ShrAddHigh(h: nat, o: nat, p: nat)
    requires p <= o
    ensures Shr(h + Pow2(o), p) == Shr(h, p) + Pow2(o - p)
  {
    if p > 0 {
      ShrAddHigh(h, o, p - 1);
      assert Pow2(o - (p - 1)) == 2 * Pow2(o - p);
    }
  }

  lemma {:induction false} ShrZero(o: nat)
    ensures Shr(0, o) == 0 && Aligned(0, o)
  {
    if o > 0 { ShrZero(o - 1); }
  }

  lemma {:induction false} ShrValue(h: nat, o: nat)
    requires Aligned(h, o)
    ensures h == Shr(h, o) * Pow2(o)
  {
    if o > 0 {
      ShrValue(h, o - 1);
      var s, p := Shr(h, o - 1), Pow2(o - 1);
      assert s == 2 * Shr(h, o);
      assert s * p == Shr(h, o) * (2 * p);
    }
  }

  lemma {:induction false} ShrBelow(f: nat, o: nat)
    requires f < Pow2(o)
    ensures Shr(f, o) == 0
  {
    ShrBelowFrom(f, o, o);
  }

  lemma {:induction false} ShrBelowFrom(f: nat, o: nat, p: nat)
    requires f < Pow2(o) && p <= o
    ensures Shr(f, p) < Pow2(o - p)
  {
    if p > 0 {
      ShrBelowFrom(f, o, p - 1);
      assert Pow2(o - (p - 1)) == 2 * Pow2(o - p);
    }
  }

  /** An aligned run of order `o` headed by `h` is the interval `[h, h + 2^o)`. */
  lemma RunIsInterval(f: nat, h: nat, o: nat)
    requires Aligned(h, o)
    ensures InRun(f, h, o) <==> h <= f < h + Pow2(o)
  {
    if f < h {
      if InRun(f, h, o) {
        HeadIsLeast(f, h, o);
      }
    } else if f < h + Pow2(o) {
      OffsetInRun(h, f - h, o);
    } else {
      ShrAdd(h, o);
      ShrMono(h + Pow2(o), f, o);
    }
  }

  lemma {:induction false} HeadIsLeast(f: nat, h: nat, o: nat)
    requires Aligned(h, o) && InRun(f, h, o)
    ensures h <= f
  {
    if o > 0 && f < h {
      ShrMono(f, h, o - 1);
      if Shr(f, o - 1) == Shr(h, o - 1) {
        HeadIsLeast(f, h, o - 1);
      }
    }
  }

  lemma {:induction false} OffsetInRun(h: nat, d: nat, o: nat)
    requires Aligned(h, o) && d < Pow2(o)
    ensures InRun(h + d, h, o)
    decreases o
  {
    if o > 0 {
      var p := Pow2(o - 1);
      if d < p {
        OffsetInRun(h, d, o - 1);
      } else {
        AlignedAdd(h, o - 1, o - 1);
        OffsetInRun(h + p, d - p, o - 1);
        ShrAdd(h, o - 1);
        assert h + p + (d - p) == h + d;
      }
    }
  }

  /** The buddy of an aligned head: aligned, a different run of the same order,
      the same run of the next order; flipping twice returns the head. */
  lemma {:induction false} BuddyFacts(h: nat, o: nat)
    requires Aligned(h, o)
    ensures var b := FlipBit(h, o);
            && Aligned(b, o) && !InRun(b, h, o) && InRun(b, h, o + 1)
            && FlipBit(b, o) == h
            && (h < b ==> Aligned(h, o + 1) && b == h + Pow2(o))
            && (b <= h ==> Aligned(b, o + 1) && h == b + Pow2(o))
  {
    if Shr(h, o) % 2 == 0 {
      AlignedAdd(h, o, o);
      ShrAdd(h, o);
    } else {
      SubPow2Facts(h, o);
      ShrAdd(SubPow2(h, o), o);
    }
  }

  lemma {:induction false} SubPow2Facts(h: nat, o: nat)
    requires Aligned(h, o) && Shr(h, o) % 2 == 1
    ensures Pow2(o) <= h && Aligned(h - Pow2(o), o)
  {
    ShrValue(h, o);
    var s, p := Shr(h, o), Pow2(o);
    assert s * p >= p by { assert s >= 1; MulMono(s, p); }
    MultipleAligned(s - 1, o);
    assert (s - 1) * p == h - p;
  }

  lemma MulMono(s: nat, p: nat)
    requires s >= 1
    ensures s * p >= p
  {
    assert s * p == (s - 1) * p + p;
  }

  lemma {:induction false} MultipleAligned(k: nat, o: nat)
    ensures Aligned(k * Pow2(o), o) && Shr(k * Pow2(o), o) == k
  {
    if k == 0 {
      ShrZero(o);
      assert k * Pow2(o) == 0;
    } else {
      MultipleAligned(k - 1, o);
      AlignedAdd((k - 1) * Pow2(o), o, o);
      ShrAdd((k - 1) * Pow2(o), o);
      assert (k - 1) * Pow2(o) + Pow2(o) == k * Pow2(o);
    }
  }

  lemma {:induction false} Pow2Mono(i: nat, j: nat)
    requires i <= j
    ensures Pow2(i) <= Pow2(j)
  {
    if i < j { Pow2Mono(i, j - 1); }
  }

  lemma HeapPow()
    ensures Pow2(MAX_ORDER) == FRAME_COUNT
  {
    assert Pow2(7) == 128;
    assert Pow2(10) == 1024;
    assert Pow2(13) == 8192;
  }

  /** An aligned run whose head is in the heap lies in the heap. */
  lemma RunFits(h: nat, o: nat)
    requires Aligned(h, o) && h < FRAME_COUNT && o <= MAX_ORDER
    ensures h + Pow2(o) <= FRAME_COUNT
  {
    HeapPow();
    var last := h + Pow2(o) - 1;
    RunIsInterval(last, h, o);
    RunWidens(last, h, o, MAX_ORDER);
    ShrBelow(h, MAX_ORDER);
    ShrZero(MAX_ORDER);
    RunIsInterval(last, 0, MAX_ORDER);
  }
}
