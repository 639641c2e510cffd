/** The buddy allocator: per-frame tag bytes plus one free list per order, all
    updated in place. A list node occupies the first two words of its free block. */
module Buddy {
  import opened Frames
  import opened Tiling
  import opened FreeLists
  import opened BuddyState

  function AddrOf(f: nat): nat { HEAP_PHYS + f * FRAME_SIZE }

  function FrameOf(addr: nat): nat
    requires addr >= HEAP_PHYS
  {
    (addr - HEAP_PHYS) / FRAME_SIZE
  }

  predicate HeapPage(addr: nat) {
    HEAP_PHYS <= addr < HEAP_PHYS + HEAP_SIZE && addr % FRAME_SIZE == 0
  }

  /** `addr` is the head of a run of `order` frames, all idle before and one allocation after. */
  ghost predicate Granted(before: map<nat, Allocation>, after: map<nat, Allocation>, addr: nat, order: nat,
                          user: bool)
  {
    && HeapPage(addr)
    && var h := FrameOf(addr);
    && Aligned(h, order) && h !in before && RunFree(before, h, order)
    && after == before[h := Allocation(order, user)]
  }

  ghost predicate IsAllocation(al: map<nat, Allocation>, addr: nat, order: nat) {
    && HeapPage(addr)
    && FrameOf(addr) in al && al[FrameOf(addr)].order == order
  }

  class BuddyAllocator {
    const frames: array<nat>
    const freeArea: array<int>
    const next: array<int>
    const prev: array<int>
    ghost var blocks: Blocks
    ghost var lists: seq<seq<nat>>

    ghost function Repr(): set<object> { {this, frames, freeArea, next, prev} }

    ghost predicate Shape() {
      && frames.Length == next.Length == prev.Length == FRAME_COUNT
      && freeArea.Length == MAX_ORDER + 1
      && freeArea != next && freeArea != prev && next != prev
    }

    ghost function View(): State
      reads Repr()
    {
      State(frames[..], freeArea[..], next[..], prev[..], lists, blocks)
    }

    ghost predicate Valid()
      reads Repr()
    {
      Shape() && Inv(View()) && NoHand(blocks)
    }

    /** The state with block `h` of order `o` taken off its list. */
    ghost predicate Holding(h: nat, o: nat)
      reads Repr()
    {
      Shape() && Sized(View()) && InvHand(View(), h, o)
    }

    ghost function Live(): map<nat, Allocation>
      reads this
    {
      Allocated(blocks)
    }

    /** One free block spans the heap. */
    constructor ()
      ensures Valid() && Live() == map[] && fresh(Repr())
    {
      frames := new nat[FRAME_COUNT](_ => 0);
      freeArea := new int[MAX_ORDER + 1](_ => NIL);
      next := new int[FRAME_COUNT](_ => 0);
      prev := new int[FRAME_COUNT](_ => 0);
      blocks := Whole();
      lists := seq(MAX_ORDER + 1, o => if o == MAX_ORDER then [0] else []);
      new;
      next[0], prev[0] := NIL, NIL;
      freeArea[MAX_ORDER] := 0;
      frames[0] := MAX_ORDER;
      InitialState(View());
    }

    method ListAdd(o: nat, b: nat)
      requires Shape() && o <= MAX_ORDER && b < FRAME_COUNT
      requires NIL <= freeArea[o] < FRAME_COUNT
      modifies freeArea, next, prev
      ensures freeArea[..] == old(freeArea[..])[o := b]
      ensures next[..] == old(next[..])[b := old(freeArea[o])]
      ensures prev[..] == AddPrev(old(freeArea[o]), old(prev[..]), b)
    {
      next[b] := freeArea[o];
      prev[b] := NIL;
      if freeArea[o] != NIL { prev[freeArea[o]] := b; }
      freeArea[o] := b;
    }

    method ListRemove(o: nat, b: nat)
      requires Shape() && o <= MAX_ORDER && b < FRAME_COUNT
      requires NIL <= next[b] < FRAME_COUNT && NIL <= prev[b] < FRAME_COUNT && prev[b] != b && next[b] != b
      modifies freeArea, next, prev
      ensures freeArea[..] == old(freeArea[..])[o := RemoveHead(old(freeArea[o]), old(next[..]), old(prev[..]), b)]
      ensures next[..] == RemoveNext(old(next[..]), old(prev[..]), b)
      ensures prev[..] == RemovePrev(old(next[..]), old(prev[..]), b)
    {
      if prev[b] != NIL { next[prev[b]] := next[b]; } else { freeArea[o] := next[b]; }
      if next[b] != NIL { prev[next[b]] := prev[b]; }
    }

    /** Takes the first block off the list of order `o`. */
    method TakeFirst(o: nat) returns (h: nat)
      requires Valid() && o <= MAX_ORDER && freeArea[o] != NIL
      modifies Repr()
      ensures Holding(h, o) && FreeAt(old(blocks), h, o)
      ensures Live() == old(Live())
    {
      ghost var s := View();
      InvSized(s);
      HeadIsFree(s, o);
      h := freeArea[o];
      ghost var k := UnlinkReady(s, o, h);
      UnlinkStep(s, o, k);
      ListRemove(o, h);
      lists, blocks := lists[o := Without(lists[o], k)], blocks[h := Block(o, Hand)];
      assert View() == Unlinked(s, o, k);
      SameLive(s.blocks, blocks, h);
    }

    /** One round of the splitting loop: the upper half of the block in hand goes to its list. */
    method SplitOff(h: nat, o: nat)
      requires Holding(h, o) && o > 0
      modifies Repr()
      ensures Holding(h, o - 1) && Live() == old(Live())
    {
      ghost var s := View();
      InvSized(s);
      SplitStep(s, h, o);
      var b := FlipBit(h, o - 1);
      frames[b] := o - 1;
      ListAdd(o - 1, b);
      lists, blocks := lists[o - 1 := [b] + lists[o - 1]], Split(blocks, h);
      assert View() == SplitState(s, h);
      InHandFacts(s, h, o);
      SplitLive(s.blocks, h);
    }

    method Grant(h: nat, order: nat, user: bool)
      requires Holding(h, order)
      modifies Repr()
      ensures Valid() && Live() == old(Live())[h := Allocation(order, user)]
    {
      ghost var s := View();
      GrantStep(s, h, order, user);
      var tag := order + FRAME_ALLOC;
      if user { tag := tag + FRAME_USER; }
      frames[h] := tag;
      blocks := blocks[h := Block(order, Used(user))];
      assert View() == GrantState(s, h, user);
      UsedLive(s.blocks, h, user);
    }

    /** The least order from `order` up whose list is not empty, or MAX_ORDER + 1. */
    method FindOrder(order: nat) returns (found: nat)
      requires Valid() && order <= MAX_ORDER
      ensures order <= found <= MAX_ORDER + 1
      ensures found <= MAX_ORDER ==> freeArea[found] != NIL
      ensures found <= MAX_ORDER <==> RunAvailable(Live(), order)
    {
      InvSized(View());
      found := order;
      while found <= MAX_ORDER && freeArea[found] == NIL
        invariant order <= found <= MAX_ORDER + 1
        invariant forall o :: order <= o < found ==> freeArea[o] == NIL
      {
        found := found + 1;
      }
      if found > MAX_ORDER {
        NothingFree(View(), order);
      } else {
        HeadIsFree(View(), found);
        SomethingFree(blocks, freeArea[found], order, found);
      }
    }

    /** Takes a block of order `found` and halves it down to `order`. */
    method TakeRun(order: nat, found: nat) returns (h: nat)
      requires Valid() && order <= found <= MAX_ORDER && freeArea[found] != NIL
      modifies Repr()
      ensures Holding(h, order) && Live() == old(Live())
      ensures Aligned(h, order) && RunFree(Live(), h, order) && h !in Live()
    {
      h := TakeFirst(found);
      SomethingFree(old(blocks), h, order, found);
      var o := found;
      while o > order
        invariant order <= o <= found
        invariant Holding(h, o) && Live() == old(Live())
      {
        SplitOff(h, o);
        o := o - 1;
      }
    }

    /** NULL exactly when no aligned run of the order is wholly free; otherwise the
        run handed out was wholly free and becomes the one new allocation. */
    method BuddyAlloc(order: int, user: bool) returns (addr: nat)
      requires Valid()
      modifies Repr()
      ensures Valid()
      ensures addr == 0 <==> !(0 <= order <= MAX_ORDER && RunAvailable(old(Live()), order))
      ensures addr == 0 ==> Live() == old(Live())
      ensures addr != 0 ==> Granted(old(Live()), Live(), addr, order, user)
    {
      hide Inv, InvHand, NoHand, RunFree, RunAvailable, Aligned;
      if order < 0 || order > MAX_ORDER { return 0; }
      var found := FindOrder(order);
      if found > MAX_ORDER { return 0; }
      var h := TakeRun(order, found);
      InHandFacts(View(), h, order);
      Grant(h, order, user);
      addr := AddrOf(h);
      assert FrameOf(addr) == h;
    }

    /** One round of the merging loop: fuse the block in hand with its free buddy. */
    method MergeUp(h: nat, o: nat) returns (lo: nat)
      requires Holding(h, o) && o < MAX_ORDER && FreeAt(blocks, FlipBit(h, o), o)
      modifies Repr()
      ensures Holding(lo, o + 1) && Live() == old(Live()) && lo < FRAME_COUNT && frames[lo] == o + 1
    {
      hide Inv, NoHand;
      ghost var s := View();
      var b := FlipBit(h, o);
      ghost var k := UnlinkReady(s, o, b);
      MergeStep(s, h, o, k);
      ListRemove(o, b);
      lo := if h < b then h else b;
      frames[lo] := o + 1;
      lists, blocks := lists[o := Without(lists[o], k)], Merge(blocks, h);
      assert View() == MergeState(s, h, k);
      MergeLive(s.blocks, h, o);
    }

    /** Puts the block in hand on its list. */
    method Place(h: nat, o: nat)
      requires Holding(h, o) && h < FRAME_COUNT && frames[h] == o <= MAX_ORDER
      requires o < MAX_ORDER ==> !FreeAt(blocks, FlipBit(h, o), o)
      modifies Repr()
      ensures Valid() && Live() == old(Live())
    {
      ghost var s := View();
      InvSized(s);
      PlaceStep(s, h, o);
      ListAdd(o, h);
      lists, blocks := lists[o := [h] + lists[o]], blocks[h := Block(o, Free)];
      assert View() == PlaceState(s, h);
    }

    /** Marks an allocated block as no longer allocated; it is then in hand. */
    method Revoke(h: nat, order: nat)
      requires Valid() && h in Live() && Live()[h].order == order
      modifies Repr()
      ensures Holding(h, order) && Live() == old(Live()) - {h}
      ensures h < FRAME_COUNT && frames[h] == order <= MAX_ORDER
    {
      ghost var s := View();
      InvSized(s);
      RevokeStep(s, h);
      frames[h] := order;
      blocks := blocks[h := Block(order, Hand)];
      assert View() == RevokeState(s, h);
    }

    /** Releases one allocation, merging upwards as long as the buddy is free. */
    method Release(h: nat, order: nat)
      requires Valid() && h in Live() && Live()[h].order == order
      modifies Repr()
      ensures Valid() && Live() == old(Live()) - {h}
    {
      Revoke(h, order);
      var idx: nat, o: nat := h, order;
      while o < MAX_ORDER
        invariant Holding(idx, o) && o <= MAX_ORDER && idx < FRAME_COUNT && frames[idx] == o
        invariant Live() == old(Live()) - {h}
      {
        MergeTest(View(), idx, o);
        var b := FlipBit(idx, o);
        if WithoutUser(frames[b]) != o { break; }
        idx := MergeUp(idx, o);
        o := o + 1;
      }
      if o < MAX_ORDER { MergeTest(View(), idx, o); }
      Place(idx, o);
    }

    /** The caller's side of the bargain: what passes the checks is a live block of that order. */
    method BuddyFree(addr: nat, order: int)
      requires Valid()
      requires 0 <= order <= MAX_ORDER && HeapPage(addr) ==> IsAllocation(Live(), addr, order)
      modifies Repr()
      ensures Valid()
      ensures Live() == if 0 <= order <= MAX_ORDER && HeapPage(addr) then old(Live()) - {FrameOf(addr)} else old(Live())
    {
      if addr == 0 || order < 0 || order > MAX_ORDER { return; }
      if addr < HEAP_PHYS || addr >= HEAP_PHYS + HEAP_SIZE { return; }
      if addr % FRAME_SIZE != 0 { return; }
      Release(FrameOf(addr), order);
    }

    /** The smallest block that holds `length` bytes, flagged as user memory.
        The bytes it clears are not part of this state. */
    method MmapUser(length: nat) returns (addr: nat)
      requires Valid() && length + FRAME_SIZE - 1 < 0x1_0000_0000_0000_0000
      modifies Repr()
      ensures Valid()
      ensures addr == 0 ==> Live() == old(Live())
      ensures addr == 0 <==> OrderFor(length) > MAX_ORDER || !RunAvailable(old(Live()), OrderFor(length))
      ensures addr != 0 ==> Granted(old(Live()), Live(), addr, OrderFor(length), true)
    {
      var pages := (length + FRAME_SIZE - 1) / FRAME_SIZE;
      if pages == 0 { pages := 1; }
      var order := OrderOfPages(pages);
      addr := BuddyAlloc(order, true);
    }

    /** Safe on every address: frees the block that starts there, or does nothing. */
    method MunmapUser(addr: nat, length: nat) returns (r: int)
      requires Valid() && addr < 0x1_0000_0000_0000_0000
      modifies Repr()
      ensures Valid()
      ensures r == 0 <==> addr == 0 || HeapPage(addr)
      ensures Live() == if HeapPage(addr) then old(Live()) - {FrameOf(addr)} else old(Live())
    {
      if addr == 0 { return 0; }
      if addr % FRAME_SIZE != 0 { return -1; }
      // addr_to_frame on 64-bit words: below the heap the subtraction wraps
      var offset := if addr >= HEAP_PHYS then addr - HEAP_PHYS else 0x1_0000_0000_0000_0000 + addr - HEAP_PHYS;
      var idx: nat := offset / FRAME_SIZE;
      if idx >= FRAME_COUNT { return -1; }
      InvSized(View());
      AllocBit(View(), idx);
      if !HasAlloc(frames[idx]) { return 0; }
      LiveOrder(View(), idx);
      BuddyFree(addr, OrderOf(frames[idx]));
      r := 0;
    }

    /** One step of the sweep: where the next step looks. */
    method SweepAt(i: nat, ghost al: map<nat, Allocation>) returns (j: nat)
      requires Valid() && i < FRAME_COUNT && Live() == KernelBelow(al, i)
      modifies Repr()
      ensures Valid() && i < j && Live() == KernelBelow(al, j)
    {
      InvSized(View());
      AllocBit(View(), i);
      var f := frames[i];
      if HasAlloc(f) && HasUser(f) {
        var order := OrderOf(f);
        SkipBlock(View(), i, al);
        Release(i, order);
        j := i + Pow2(order);
      } else {
        j := i + 1;
      }
    }

    /** Frees exactly the blocks flagged as user memory. */
    method MunmapAllUser()
      requires Valid()
      modifies Repr()
      ensures Valid() && Live() == KernelOnly(old(Live()))
    {
      ghost var al := Live();
      var i: nat := 0;
      while i < FRAME_COUNT
        invariant Valid() && Live() == KernelBelow(al, i)
      {
        i := SweepAt(i, al);
      }
      LiveInHeap(old(blocks));
    }

    /** Writing into allocated memory cannot disturb the allocator. */
    method Scribble(f: nat, w0: int, w1: int)
      requires Valid() && f < FRAME_COUNT && Busy(Live(), f)
      modifies Repr()
      ensures Valid() && Live() == old(Live())
    {
      ghost var s := View();
      InvSized(s);
      BusyNotFree(s.blocks, f);
      ScribbleStep(s, s.next[f := w0], s.prev[f := w1]);
      next[f] := w0;
      prev[f] := w1;
      assert View() == s.(next := s.next[f := w0], prev := s.prev[f := w1]);
    }
  }

  function CeilLog(pages: nat, from: nat): (o: nat)
    requires from > 0 ==> Pow2(from - 1) < pages
    ensures Pow2(o) >= pages && o >= from
    ensures o > 0 ==> Pow2(o - 1) < pages || o == from
    decreases pages - Pow2(from)
  {
    if Pow2(from) < pages then CeilLog(pages, from + 1) else from
  }

  /** The order of the block that holds `length` bytes: none smaller would. */
  function OrderFor(length: nat): (o: nat)
    ensures Pow2(o) * FRAME_SIZE >= length
    ensures o > 0 ==> Pow2(o - 1) * FRAME_SIZE < length
  {
    CeilLog((length + FRAME_SIZE - 1) / FRAME_SIZE, 0)
  }

  method OrderOfPages(pages: nat) returns (order: nat)
    ensures order == CeilLog(pages, 0)
  {
    order := 0;
    while Pow2(order) < pages
      invariant order > 0 ==> Pow2(order - 1) < pages
      invariant CeilLog(pages, order) == CeilLog(pages, 0)
      decreases pages - Pow2(order)
    {
      order := order + 1;
    }
  }

  // ---- whole runs ----------------------------------------------------------------

  datatype Op =
    | Allocate(order: int, user: bool)
    | Return(h: nat)
    | Munmap(addr: nat)
    | SweepUser
    | Write(frame: nat, w0: int, w1: int)

  /** Any script of calls from start-up, releases limited to live blocks and writes to
      allocated memory: the invariant holds at the end, and if everything has been
      released, in whatever order, the heap is one block again. */
  method Run(ops: seq<Op>) returns (a: BuddyAllocator)
    requires forall i :: 0 <= i < |ops| && ops[i].Munmap? ==> ops[i].addr < 0x1_0000_0000_0000_0000
    ensures a.Valid()
    ensures a.Live() == map[] ==> a.blocks == Whole()
  {
    a := new BuddyAllocator();
    for i := 0 to |ops|
      invariant a.Valid() && fresh(a.Repr())
    {
      InvSized(a.View());
      match ops[i]
      case Allocate(order, user) => var _ := a.BuddyAlloc(order, user);
      case Return(h) =>
        if h < FRAME_COUNT {
          AllocBit(a.View(), h);
          if HasAlloc(a.frames[h]) { a.Release(h, OrderOf(a.frames[h])); }
        }
      case Munmap(addr) => var _ := a.MunmapUser(addr, 0);
      case SweepUser => a.MunmapAllUser();
      case Write(f, w0, w1) =>
        if f < FRAME_COUNT {
          AllocBit(a.View(), f);
          if HasAlloc(a.frames[f]) {
            assert f in a.Live() && InRun(f, f, a.Live()[f].order);
            a.Scribble(f, w0, w1);
          }
        }
    }
    if a.Live() == map[] { AllFreeIsOneBlock(a.blocks); }
  }

  /** The allocations without those flagged as user memory. */
  ghost function KernelOnly(al: map<nat, Allocation>): map<nat, Allocation> {
    map h | h in al && !al[h].user :: al[h]
  }

  ghost function KernelBelow(al: map<nat, Allocation>, i: nat): map<nat, Allocation> {
    map h | h in al && (i <= h || !al[h].user) :: al[h]
  }

  /** No allocation starts inside a block about to be skipped. */
  lemma {:induction false} SkipBlock(s: State, i: nat, al: map<nat, Allocation>)
    requires Inv(s) && Sized(s) && NoHand(s.blocks) && i < FRAME_COUNT
    requires Allocated(s.blocks) == KernelBelow(al, i)
    requires i in Allocated(s.blocks) && Allocated(s.blocks)[i].user
    ensures Allocated(s.blocks) - {i} == KernelBelow(al, i + Pow2(Allocated(s.blocks)[i].order))
  {
    var o := Allocated(s.blocks)[i].order;
    forall h | h in Allocated(s.blocks) && h != i ensures h < i || h >= i + Pow2(o) {
      RunIsInterval(h, i, o);
      if InRun(h, i, o) {
        assert Owns(s.blocks, i, h) && Owns(s.blocks, h, h);
      }
    }
    assert i in al && al[i].user;
    forall h | h in al && h >= i ensures h in Allocated(s.blocks) { }
  }

  lemma LiveInHeap(bs: Blocks)
    requires Tiles(bs)
    ensures forall h :: h in Allocated(bs) ==> h < FRAME_COUNT
  {
  }

  lemma LiveOrder(s: State, f: nat)
    requires Inv(s) && f in Allocated(s.blocks)
    ensures Allocated(s.blocks)[f].order <= MAX_ORDER && f < FRAME_COUNT
  {
  }

  lemma BusyNotFree(bs: Blocks, f: nat)
    requires Tiles(bs) && f < FRAME_COUNT && Busy(Allocated(bs), f)
    ensures forall o: nat :: !FreeAt(bs, f, o)
  {
    var h :| h in Allocated(bs) && InRun(f, h, Allocated(bs)[h].order);
    assert Owns(bs, h, f);
    assert f in bs ==> Owns(bs, f, f);
  }

  lemma MergeLive(bs: Blocks, h: nat, o: nat)
    requires h in bs && bs[h] == Block(o, Hand) && FreeAt(bs, FlipBit(h, o), o)
    ensures Allocated(Merge(bs, h)) == Allocated(bs)
  {
  }

  lemma {:induction false} InHandFacts(s: State, h: nat, o: nat)
    requires InvHand(s, h, o)
    ensures h < FRAME_COUNT && o <= MAX_ORDER && h in s.blocks && s.blocks[h] == Block(o, Hand)
    ensures o > 0 ==> h + Pow2(o - 1) !in s.blocks
  {
    if o > 0 { SplitOwns(s.blocks, h, h, h); }
  }

  lemma SameLive(bs: Blocks, cs: Blocks, h: nat)
    requires h in bs && bs[h].status.Free? && cs == bs[h := Block(bs[h].order, Hand)]
    ensures Allocated(cs) == Allocated(bs)
  {
  }

  lemma SplitLive(bs: Blocks, h: nat)
    requires h in bs && bs[h].status.Hand? && bs[h].order > 0 && h + Pow2(bs[h].order - 1) !in bs
    ensures Allocated(Split(bs, h)) == Allocated(bs)
  {
  }

  lemma UsedLive(bs: Blocks, h: nat, user: bool)
    requires h in bs && bs[h].status.Hand?
    ensures Allocated(bs[h := Block(bs[h].order, Used(user))]) == Allocated(bs)[h := Allocation(bs[h].order, user)]
  {
  }

  /** Empty lists from `order` up: no run of that order is free. */
  lemma NothingFree(s: State, order: nat)
    requires Inv(s) && Sized(s) && NoHand(s.blocks) && order <= MAX_ORDER
    requires forall o :: order <= o <= MAX_ORDER ==> s.area[o] == NIL
    ensures !RunAvailable(Allocated(s.blocks), order)
  {
    AvailableIffFreeBlock(s.blocks, order);
    forall g: nat, p: nat | p >= order ensures !FreeAt(s.blocks, g, p) {
      if p <= MAX_ORDER { HeadIsFree(s, p); }
    }
  }

  lemma SomethingFree(bs: Blocks, h: nat, o: nat, p: nat)
    requires Tiles(bs) && Merged(bs) && NoHand(bs) && o <= p <= MAX_ORDER && FreeAt(bs, h, p)
    ensures RunAvailable(Allocated(bs), o)
    ensures Aligned(h, o) && RunFree(Allocated(bs), h, o) && h !in Allocated(bs)
  {
    AvailableIffFreeBlock(bs, o);
    FreeBlockIdle(bs, h);
    AlignedNarrows(h, o, p);
    forall f: nat | f < FRAME_COUNT && InRun(f, h, o) ensures !Busy(Allocated(bs), f) {
      RunWidens(f, h, o, p);
    }
  }

  lemma {:induction false} InitialState(s: State)
    requires Sized(s) && s.blocks == Whole() && s.next[0] == s.prev[0] == NIL
    requires forall o :: 0 <= o <= MAX_ORDER ==> s.area[o] == (if o == MAX_ORDER then 0 else NIL)
    requires forall o :: 0 <= o <= MAX_ORDER ==> s.lists[o] == (if o == MAX_ORDER then [0] else [])
    requires forall f :: 0 <= f < FRAME_COUNT ==> s.frames[f] == if f == 0 then MAX_ORDER else 0
    ensures Inv(s) && NoHand(s.blocks) && Allocated(s.blocks) == map[]
  {
    WholeTiles();
    forall o | 0 <= o <= MAX_ORDER ensures Linked(s.area[o], s.next, s.prev, s.lists[o]) { }
  }
}
