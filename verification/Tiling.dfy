/** The block structure behind the buddy allocator, on values: which aligned runs
    tile the heap, and why the tiling is determined by the allocated blocks alone. */
module Tiling {
  import opened Frames

  /** `Hand` marks the one block an operation has taken off its list and not yet placed. */
  datatype Status = Free | Hand | Used(user: bool)
  datatype Block = Block(order: nat, status: Status)
  datatype Allocation = Allocation(order: nat, user: bool)

  type Blocks = map<nat, Block>

  ghost predicate WellFormed(bs: Blocks) {
    forall h :: h in bs ==> h < FRAME_COUNT && bs[h].order <= MAX_ORDER && Aligned(h, bs[h].order)
  }

  ghost predicate Owns(bs: Blocks, h: nat, f: nat) {
    h in bs && InRun(f, h, bs[h].order)
  }

  ghost predicate Covered(bs: Blocks, f: nat) {
    exists h :: Owns(bs, h, f)
  }

  ghost predicate Disjoint(bs: Blocks) {
    forall g, h, f :: Owns(bs, g, f) && Owns(bs, h, f) ==> g == h
  }

  /** Every frame of the heap lies in exactly one block. */
  ghost predicate Tiles(bs: Blocks) {
    && WellFormed(bs)
    && Disjoint(bs)
    && forall f :: 0 <= f < FRAME_COUNT ==> Covered(bs, f)
  }

  ghost predicate FreeAt(bs: Blocks, h: nat, o: nat) {
    h in bs && bs[h] == Block(o, Free)
  }

  /** No two buddies are both free: everything that could be merged has been. */
  ghost predicate Merged(bs: Blocks) {
    forall h: nat, o: nat :: o < MAX_ORDER && FreeAt(bs, h, o) ==> !FreeAt(bs, FlipBit(h, o), o)
  }

  ghost predicate NoHand(bs: Blocks) {
    forall h :: h in bs ==> !bs[h].status.Hand?
  }

  ghost predicate OnlyHand(bs: Blocks, h: nat) {
    && h in bs && bs[h].status.Hand?
    && forall k :: k in bs && bs[k].status.Hand? ==> k == h
  }

  ghost function Allocated(bs: Blocks): map<nat, Allocation> {
    map h | h in bs && bs[h].status.Used? :: Allocation(bs[h].order, bs[h].status.user)
  }

  /** Frame `f` belongs to an allocated block. */
  ghost predicate Busy(al: map<nat, Allocation>, f: nat) {
    exists h :: h in al && InRun(f, h, al[h].order)
  }

  /** No frame of the aligned run of order `o` at `h` is allocated. */
  ghost predicate RunFree(al: map<nat, Allocation>, h: nat, o: nat) {
    forall f: nat :: f < FRAME_COUNT && InRun(f, h, o) ==> !Busy(al, f)
  }

  ghost predicate RunAvailable(al: map<nat, Allocation>, o: nat) {
    exists h: nat :: h < FRAME_COUNT && Aligned(h, o) && RunFree(al, h, o)
  }

  // ---- taking a block off and putting it back --------------------------------

  lemma Restatus(bs: Blocks, h: nat, st: Status)
    requires Tiles(bs) && h in bs
    ensures Tiles(bs[h := bs[h].(status := st)])
  {
    var bs' := bs[h := bs[h].(status := st)];
    forall g, f ensures Owns(bs', g, f) == Owns(bs, g, f) { }
    forall f | 0 <= f < FRAME_COUNT ensures Covered(bs', f) {
      assert Covered(bs, f);
      var g :| Owns(bs, g, f);
      assert Owns(bs', g, f);
    }
  }

  lemma TakeMerged(bs: Blocks, h: nat, st: Status)
    requires Merged(bs) && h in bs && st != Free
    ensures Merged(bs[h := bs[h].(status := st)])
  {
    var bs' := bs[h := bs[h].(status := st)];
    forall g: nat, o: nat | o < MAX_ORDER && FreeAt(bs', g, o) ensures !FreeAt(bs', FlipBit(g, o), o) {
      assert FreeAt(bs, g, o);
    }
  }

  /** Placing the block in hand keeps the merged form when its buddy is not free. */
  lemma PlaceMerged(bs: Blocks, h: nat)
    requires WellFormed(bs) && Merged(bs) && h in bs && bs[h].status.Hand?
    requires bs[h].order < MAX_ORDER ==> !FreeAt(bs, FlipBit(h, bs[h].order), bs[h].order)
    ensures Merged(bs[h := bs[h].(status := Free)])
  {
    var bs' := bs[h := bs[h].(status := Free)];
    forall g: nat, o: nat | o < MAX_ORDER && FreeAt(bs', g, o) ensures !FreeAt(bs', FlipBit(g, o), o) {
      BuddyFacts(g, o);
      if g != h {
        assert FreeAt(bs, g, o);
        if FlipBit(g, o) == h && FreeAt(bs', h, o) {
          assert FlipBit(h, o) == g;
        }
      }
    }
  }

  // ---- one split, one merge --------------------------------------------------

  /** Halving the block in hand: the upper half becomes free. */
  ghost function Split(bs: Blocks, h: nat): Blocks
    requires h in bs && bs[h].order > 0
  {
    var o := bs[h].order - 1;
    bs[h := Block(o, Hand)][h + Pow2(o) := Block(o, Free)]
  }

  lemma HalfFacts(h: nat, o: nat)
    requires Aligned(h, o + 1)
    ensures var b := h + Pow2(o);
            && Aligned(h, o) && Aligned(b, o) && FlipBit(h, o) == b && FlipBit(b, o) == h
            && !InRun(b, h, o) && InRun(b, h, o + 1)
    ensures forall f: nat :: InRun(f, h, o + 1) <==> InRun(f, h, o) || InRun(f, h + Pow2(o), o)
  {
    BuddyFacts(h, o);
    ShrAdd(h, o);
    forall f: nat ensures InRun(f, h, o + 1) <==> InRun(f, h, o) || InRun(f, h + Pow2(o), o) {
      assert Shr(f, o + 1) == Shr(f, o) / 2;
      assert Shr(h, o + 1) == Shr(h, o) / 2;
    }
  }

  lemma {:induction false} SplitOwns(bs: Blocks, h: nat, g: nat, f: nat)
    requires Tiles(bs) && h in bs && bs[h].order > 0
    ensures var b := h + Pow2(bs[h].order - 1);
            && b !in bs && b < FRAME_COUNT
            && (g != h && g != b ==> Owns(Split(bs, h), g, f) == Owns(bs, g, f))
            && (Owns(Split(bs, h), h, f) || Owns(Split(bs, h), b, f) <==> Owns(bs, h, f))
            && !(Owns(Split(bs, h), h, f) && Owns(Split(bs, h), b, f))
  {
    var o := bs[h].order - 1;
    HalfFacts(h, o);
    RunFits(h, o + 1);
    var b := h + Pow2(o);
    assert Owns(bs, h, b);
    assert b in bs ==> Owns(bs, b, b);
  }

  lemma {:induction false} SplitTiles(bs: Blocks, h: nat)
    requires Tiles(bs) && h in bs && bs[h].order > 0
    ensures Tiles(Split(bs, h)) && h + Pow2(bs[h].order - 1) !in bs
  {
    var b := h + Pow2(bs[h].order - 1);
    var bs' := Split(bs, h);
    HalfFacts(h, bs[h].order - 1);
    SplitOwns(bs, h, h, h);
    forall g, k, f | Owns(bs', g, f) && Owns(bs', k, f) ensures g == k {
      SplitOwns(bs, h, g, f);
      SplitOwns(bs, h, k, f);
    }
    forall f | 0 <= f < FRAME_COUNT ensures Covered(bs', f) {
      assert Covered(bs, f);
      var g :| Owns(bs, g, f);
      SplitOwns(bs, h, g, f);
    }
  }

  lemma {:induction false} SplitMerged(bs: Blocks, h: nat)
    requires Tiles(bs) && Merged(bs) && OnlyHand(bs, h) && bs[h].order > 0
    ensures Merged(Split(bs, h)) && OnlyHand(Split(bs, h), h)
  {
    var o := bs[h].order - 1;
    var b := h + Pow2(o);
    var bs' := Split(bs, h);
    HalfFacts(h, o);
    forall g: nat, p: nat | p < MAX_ORDER && FreeAt(bs', g, p) ensures !FreeAt(bs', FlipBit(g, p), p) {
      if g != b {
        assert FreeAt(bs, g, p);
        BuddyFacts(g, p);
        assert FlipBit(g, o) == b ==> FlipBit(FlipBit(g, o), o) == h;
      }
    }
  }

  /** Fusing the block in hand with its free buddy. */
  ghost function Merge(bs: Blocks, h: nat): Blocks
    requires h in bs
  {
    var o := bs[h].order;
    var b := FlipBit(h, o);
    var lo := if h < b then h else b;
    var hi := if h < b then b else h;
    (bs - {hi})[lo := Block(o + 1, Hand)]
  }

  lemma {:induction false} MergeTiles(bs: Blocks, h: nat)
    requires Tiles(bs) && h in bs && bs[h].order < MAX_ORDER
    requires FlipBit(h, bs[h].order) in bs && bs[FlipBit(h, bs[h].order)].order == bs[h].order
    ensures Tiles(Merge(bs, h))
  {
    var o := bs[h].order;
    var b := FlipBit(h, o);
    BuddyFacts(h, o);
    var lo := if h < b then h else b;
    var hi := if h < b then b else h;
    HalfFacts(lo, o);
    var bs' := Merge(bs, h);
    forall g, f | Owns(bs', g, f)
      ensures g == lo ==> Owns(bs, lo, f) || Owns(bs, hi, f)
      ensures g != lo ==> Owns(bs, g, f) && g != hi
    { }
    forall f | 0 <= f < FRAME_COUNT ensures Covered(bs', f) {
      assert Covered(bs, f);
      var g :| Owns(bs, g, f);
      assert g == lo || g == hi ==> Owns(bs', lo, f);
      assert g != lo && g != hi ==> Owns(bs', g, f);
    }
  }

  lemma MergeMerged(bs: Blocks, h: nat)
    requires Tiles(bs) && Merged(bs) && OnlyHand(bs, h) && bs[h].order < MAX_ORDER
    requires FreeAt(bs, FlipBit(h, bs[h].order), bs[h].order)
    ensures var lo := if h < FlipBit(h, bs[h].order) then h else FlipBit(h, bs[h].order);
            Merged(Merge(bs, h)) && OnlyHand(Merge(bs, h), lo)
  {
    BuddyFacts(h, bs[h].order);
    var bs' := Merge(bs, h);
    forall g: nat, p: nat | p < MAX_ORDER && FreeAt(bs', g, p) ensures !FreeAt(bs', FlipBit(g, p), p) {
      assert FreeAt(bs, g, p);
    }
  }

  // ---- why the merge test is sound -------------------------------------------

  /** The buddy's frame is never interior to another block: the block covering it
      starts there and is no larger than the block in hand. */
  lemma BuddyIsHead(bs: Blocks, h: nat)
    requires Tiles(bs) && h in bs && bs[h].order < MAX_ORDER
    ensures var b := FlipBit(h, bs[h].order);
            b < FRAME_COUNT && b != h && b in bs && bs[b].order <= bs[h].order
  {
    var o := bs[h].order;
    var b := FlipBit(h, o);
    BuddyFacts(h, o);
    BuddyInHeap(h, o);
    assert Covered(bs, b);
    var g :| Owns(bs, g, b);
    var j := bs[g].order;
    if j > o {
      RunWidens(b, h, o + 1, j);
      assert Owns(bs, g, h) && Owns(bs, h, h);
      assert false;
    } else {
      AlignedNarrows(b, j, o);
      AlignedUnique(b, g, j);
    }
  }

  lemma BuddyInHeap(h: nat, o: nat)
    requires Aligned(h, o) && o < MAX_ORDER && h < FRAME_COUNT
    ensures FlipBit(h, o) < FRAME_COUNT
  {
    BuddyFacts(h, o);
    if h < FlipBit(h, o) {
      RunFits(h, o + 1);
    }
  }

  // ---- the tiling is determined by the allocations ----------------------------

  /** A frame no allocation covers is covered by a free block. */
  lemma IdleIsFree(bs: Blocks, f: nat) returns (g: nat)
    requires Tiles(bs) && NoHand(bs) && f < FRAME_COUNT && !Busy(Allocated(bs), f)
    ensures Owns(bs, g, f) && bs[g].status.Free?
  {
    assert Covered(bs, f);
    g :| Owns(bs, g, f);
    assert bs[g].status.Used? ==> g in Allocated(bs);
  }

  /** Every wholly free aligned run lies inside one free block. */
  lemma {:induction false} FreeRunInOneBlock(bs: Blocks, h: nat, o: nat) returns (g: nat)
    requires Tiles(bs) && Merged(bs) && NoHand(bs)
    requires h < FRAME_COUNT && o <= MAX_ORDER && Aligned(h, o) && RunFree(Allocated(bs), h, o)
    ensures g in bs && bs[g].status.Free? && bs[g].order >= o && InRun(h, g, bs[g].order)
    decreases o
  {
    if o == 0 {
      g := IdleIsFree(bs, h);
    } else {
      var p := o - 1;
      HalfFacts(h, p);
      RunFits(h, o);
      var b := h + Pow2(p);
      g := FreeRunInOneBlock(bs, h, p);
      var k := FreeRunInOneBlock(bs, b, p);
      assert FreeAt(bs, h, p) ==> !FreeAt(bs, b, p);
      if bs[g].order == p && bs[k].order == p {
        AlignedUnique(h, g, p);
        AlignedUnique(b, k, p);
        assert false;
      } else if bs[g].order == p {
        var j := bs[k].order;
        RunWidens(b, h, o, j);
        assert Owns(bs, k, h) && Owns(bs, g, h);
      }
    }
  }

  /** A free block's frames are idle. */
  lemma FreeBlockIdle(bs: Blocks, g: nat)
    requires Tiles(bs) && g in bs && !bs[g].status.Used?
    ensures RunFree(Allocated(bs), g, bs[g].order)
  {
    forall f: nat | f < FRAME_COUNT && InRun(f, g, bs[g].order) ensures !Busy(Allocated(bs), f) {
      if Busy(Allocated(bs), f) {
        var h :| h in Allocated(bs) && InRun(f, h, Allocated(bs)[h].order);
        assert Owns(bs, h, f) && Owns(bs, g, f);
      }
    }
  }

  /** Two merged tilings with the same allocations are the same tiling. */
  lemma Canonical(bs: Blocks, cs: Blocks)
    requires Tiles(bs) && Merged(bs) && NoHand(bs)
    requires Tiles(cs) && Merged(cs) && NoHand(cs)
    requires Allocated(bs) == Allocated(cs)
    ensures bs == cs
  {
    forall h | h in bs ensures h in cs && cs[h] == bs[h] { SameBlock(bs, cs, h); }
    forall h | h in cs ensures h in bs && cs[h] == bs[h] { SameBlock(cs, bs, h); }
  }

  lemma SameBlock(bs: Blocks, cs: Blocks, h: nat)
    requires Tiles(bs) && Merged(bs) && NoHand(bs)
    requires Tiles(cs) && Merged(cs) && NoHand(cs)
    requires Allocated(bs) == Allocated(cs) && h in bs
    ensures h in cs && cs[h] == bs[h]
  {
    if bs[h].status.Used? {
      assert h in Allocated(bs);
      assert h in Allocated(cs) && Allocated(cs)[h] == Allocated(bs)[h];
    } else {
      FreeBlockIdle(bs, h);
      var g := FreeRunInOneBlock(cs, h, bs[h].order);
      FreeBlockIdle(cs, g);
      var k := FreeRunInOneBlock(bs, g, cs[g].order);
      RunWidens(h, g, cs[g].order, bs[k].order);
      assert Owns(bs, k, h) && Owns(bs, h, h);
      assert k == h;
      AlignedNarrows(h, cs[g].order, bs[h].order);
      AlignedUnique(g, h, cs[g].order);
    }
  }

  /** With nothing allocated the heap is the one block of the largest order. */
  lemma AllFreeIsOneBlock(bs: Blocks)
    requires Tiles(bs) && Merged(bs) && NoHand(bs) && Allocated(bs) == map[]
    ensures bs == Whole()
  {
    WholeTiles();
    Canonical(bs, Whole());
  }

  ghost function Whole(): Blocks { map[0 := Block(MAX_ORDER, Free)] }

  lemma {:induction false} WholeTiles()
    ensures Tiles(Whole()) && Merged(Whole()) && NoHand(Whole()) && Allocated(Whole()) == map[]
  {
    HeapPow();
    ShrZero(MAX_ORDER);
    forall f | 0 <= f < FRAME_COUNT ensures Covered(Whole(), f) {
      ShrBelow(f, MAX_ORDER);
      assert Owns(Whole(), 0, f);
    }
  }

  /** A run of order `o` is available exactly when some free block is at least that large. */
  lemma AvailableIffFreeBlock(bs: Blocks, o: nat)
    requires Tiles(bs) && Merged(bs) && NoHand(bs) && o <= MAX_ORDER
    ensures RunAvailable(Allocated(bs), o) <==> exists g, p :: p >= o && FreeAt(bs, g, p)
  {
    if RunAvailable(Allocated(bs), o) {
      var h: nat :| h < FRAME_COUNT && Aligned(h, o) && RunFree(Allocated(bs), h, o);
      var g := FreeRunInOneBlock(bs, h, o);
      assert FreeAt(bs, g, bs[g].order);
    }
    if g, p :| p >= o && FreeAt(bs, g, p) {
      FreeBlockIdle(bs, g);
      AlignedNarrows(g, o, p);
      forall f: nat | f < FRAME_COUNT && InRun(f, g, o) ensures !Busy(Allocated(bs), f) {
        RunWidens(f, g, o, p);
      }
      assert RunFree(Allocated(bs), g, o);
    }
  }
}
