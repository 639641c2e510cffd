/** The allocator's whole state as a value, its invariant, and one lemma per step
    of the allocation and release loops saying that the step keeps the invariant. */
module BuddyState {
  import opened Frames
  import opened Tiling
  import opened FreeLists

  const FRAME_ALLOC: nat := 0x80
  const FRAME_USER: nat := 0x40

  function Tag(order: nat, st: Status): nat {
    match st
    case Free => order
    case Hand => order
    case Used(user) => order + FRAME_ALLOC + (if user then FRAME_USER else 0)
  }

  /** `(tag & FRAME_ALLOC) != 0` */
  predicate HasAlloc(tag: nat) { tag / 0x80 % 2 == 1 }

  /** `(tag & FRAME_USER) != 0` */
  predicate HasUser(tag: nat) { tag / 0x40 % 2 == 1 }

  /** `tag & FRAME_ORDER` */
  function OrderOf(tag: nat): nat { tag % 0x40 }

  /** `tag & (FRAME_ALLOC | FRAME_ORDER)` */
  function WithoutUser(tag: nat): int { if HasUser(tag) then tag - FRAME_USER else tag }

  /** The byte at a head describes its block; no byte elsewhere claims an allocation. */
  ghost predicate Tags(fr: seq<nat>, bs: Blocks) {
    && |fr| == FRAME_COUNT
    && (forall f :: 0 <= f < FRAME_COUNT && HasAlloc(fr[f]) ==> f in bs && bs[f].status.Used?)
    && (forall h :: h in bs && h < FRAME_COUNT && !bs[h].status.Hand? ==> fr[h] == Tag(bs[h].order, bs[h].status))
  }

  datatype State = State( frames: seq<nat>, area: seq<int>, next: seq<int>, prev: seq<int>, lists: seq<seq<nat>>,
                         blocks: Blocks)

  ghost predicate Inv(s: State) {
    && Tiles(s.blocks) && Merged(s.blocks)
    && Tags(s.frames, s.blocks)
    && Lists(s.area, s.next, s.prev, s.lists, s.blocks)
  }

  ghost predicate InvHand(s: State, h: nat, o: nat) {
    Inv(s) && OnlyHand(s.blocks, h) && s.blocks[h].order == o
  }

  ghost predicate Sized(s: State) {
    && |s.frames| == |s.next| == |s.prev| == FRAME_COUNT
    && |s.area| == |s.lists| == MAX_ORDER + 1
  }

  lemma InvSized(s: State)
    requires Inv(s)
    ensures Sized(s)
    ensures forall o :: 0 <= o <= MAX_ORDER ==> NIL <= s.area[o] < FRAME_COUNT
  {
    assert Linked(s.area[0], s.next, s.prev, s.lists[0]);
    forall o | 0 <= o <= MAX_ORDER ensures NIL <= s.area[o] < FRAME_COUNT {
      assert Linked(s.area[o], s.next, s.prev, s.lists[o]);
      assert s.lists[o] != [] ==> s.lists[o][0] in s.lists[o];
    }
  }

  /** The head pointer of a list names a free block of its order, or there is none. */
  lemma HeadIsFree(s: State, o: nat)
    requires Inv(s) && Sized(s) && o <= MAX_ORDER
    ensures s.area[o] != NIL ==> 0 <= s.area[o] && FreeAt(s.blocks, s.area[o], o)
    ensures s.area[o] == NIL ==> forall h: nat :: !FreeAt(s.blocks, h, o)
  {
    assert Linked(s.area[o], s.next, s.prev, s.lists[o]);
    if s.lists[o] == [] {
      assert forall h: nat :: h in s.lists[o] <==> FreeAt(s.blocks, h, o);
    } else {
      assert s.lists[o][0] in s.lists[o];
    }
  }

  // ---- unlinking a free block -------------------------------------------------

  ghost function Unlinked(s: State, o: nat, k: nat): State
    requires Sized(s) && o <= MAX_ORDER && k < |s.lists[o]| && s.lists[o][k] < FRAME_COUNT
  {
    var b := s.lists[o][k];
    State(s.frames, s.area[o := RemoveHead(s.area[o], s.next, s.prev, b)],
          RemoveNext(s.next, s.prev, b), RemovePrev(s.next, s.prev, b),
          s.lists[o := Without(s.lists[o], k)], s.blocks[b := Block(o, Hand)])
  }

  lemma UnlinkReady(s: State, o: nat, b: nat) returns (k: nat)
    requires Inv(s) && Sized(s) && o <= MAX_ORDER && FreeAt(s.blocks, b, o)
    ensures k < |s.lists[o]| && s.lists[o][k] == b < FRAME_COUNT
    ensures NIL <= s.next[b] < FRAME_COUNT && s.next[b] != b
    ensures NIL <= s.prev[b] < FRAME_COUNT && s.prev[b] != b
  {
    assert b in s.lists[o];
    k :| 0 <= k < |s.lists[o]| && s.lists[o][k] == b;
    NodeBounds(s.area[o], s.next, s.prev, s.lists[o], k);
  }

  lemma UnlinkStep(s: State, o: nat, k: nat)
    requires Inv(s) && Sized(s) && o <= MAX_ORDER && k < |s.lists[o]| && s.lists[o][k] < FRAME_COUNT
    ensures Inv(Unlinked(s, o, k))
  {
    var b := s.lists[o][k];
    RemoveLists(s.area, s.next, s.prev, s.lists, s.blocks, o, k);
    Restatus(s.blocks, b, Hand);
    TakeMerged(s.blocks, b, Hand);
    assert s.blocks[b].(status := Hand) == Block(o, Hand);
    TagsHand(s.frames, s.blocks, b, Block(o, Hand));
  }

  lemma TagsHand(fr: seq<nat>, bs: Blocks, b: nat, blk: Block)
    requires Tags(fr, bs) && b in bs && bs[b].status.Free? && bs[b].order <= MAX_ORDER && b < FRAME_COUNT
    requires blk.status.Hand?
    ensures Tags(fr, bs[b := blk])
  {
  }

  // ---- splitting ----------------------------------------------------------------

  ghost function SplitState(s: State, h: nat): State
    requires Sized(s) && h in s.blocks && 0 < s.blocks[h].order <= MAX_ORDER
    requires h + Pow2(s.blocks[h].order - 1) < FRAME_COUNT
  {
    var o := s.blocks[h].order - 1;
    var b := h + Pow2(o);
    State(s.frames[b := o], s.area[o := b], s.next[b := s.area[o]], AddPrev(s.area[o], s.prev, b),
          s.lists[o := [b] + s.lists[o]], Split(s.blocks, h))
  }

  lemma {:induction false} SplitStep(s: State, h: nat, o: nat)
    requires InvHand(s, h, o) && Sized(s) && 0 < o
    ensures o <= MAX_ORDER && FlipBit(h, o - 1) == h + Pow2(o - 1) < FRAME_COUNT
    ensures InvHand(SplitState(s, h), h, o - 1)
  {
    SplitReady(s.blocks, h, o);
    SplitTiles(s.blocks, h);
    SplitMerged(s.blocks, h);
    SplitLists(s, h);
    SplitTags(s.frames, s.blocks, h);
  }

  lemma SplitReady(bs: Blocks, h: nat, o: nat)
    requires Tiles(bs) && h in bs && bs[h].order == o > 0
    ensures o <= MAX_ORDER && h < FRAME_COUNT
    ensures FlipBit(h, o - 1) == h + Pow2(o - 1) < FRAME_COUNT
  {
    HalfFacts(h, o - 1);
    SplitOwns(bs, h, h, h);
  }

  lemma {:induction false} SplitLists(s: State, h: nat)
    requires Lists(s.area, s.next, s.prev, s.lists, s.blocks) && Sized(s)
    requires h in s.blocks && s.blocks[h].status.Hand? && 0 < s.blocks[h].order <= MAX_ORDER
    requires h + Pow2(s.blocks[h].order - 1) < FRAME_COUNT && h + Pow2(s.blocks[h].order - 1) !in s.blocks
    ensures var t := SplitState(s, h); Lists(t.area, t.next, t.prev, t.lists, t.blocks)
  {
    var o := s.blocks[h].order - 1;
    var bs := s.blocks[h := Block(o, Hand)];
    ListsFrame(s.area, s.next, s.prev, s.lists, s.blocks, bs);
    AddLists(s.area, s.next, s.prev, s.lists, bs, o, h + Pow2(o));
  }

  lemma SplitTags(fr: seq<nat>, bs: Blocks, h: nat)
    requires Tags(fr, bs) && h in bs && h < FRAME_COUNT && bs[h].status.Hand? && 0 < bs[h].order <= MAX_ORDER
    requires h + Pow2(bs[h].order - 1) < FRAME_COUNT && h + Pow2(bs[h].order - 1) !in bs
    ensures Tags(fr[h + Pow2(bs[h].order - 1) := bs[h].order - 1], Split(bs, h))
  {
    var o := bs[h].order - 1;
    var fr', bs' := fr[h + Pow2(o) := o], Split(bs, h);
    forall f | 0 <= f < FRAME_COUNT && HasAlloc(fr'[f]) ensures f in bs' && bs'[f].status.Used? {
      assert f != h + Pow2(o) && HasAlloc(fr[f]);
    }
  }

  // ---- handing out, taking back ---------------------------------------------------

  ghost function GrantState(s: State, h: nat, user: bool): State
    requires Sized(s) && h in s.blocks && h < FRAME_COUNT
  {
    var o := s.blocks[h].order;
    s.(frames := s.frames[h := Tag(o, Used(user))], blocks := s.blocks[h := Block(o, Used(user))])
  }

  lemma {:induction false} GrantStep(s: State, h: nat, o: nat, user: bool)
    requires InvHand(s, h, o) && Sized(s)
    ensures h < FRAME_COUNT && Inv(GrantState(s, h, user)) && NoHand(GrantState(s, h, user).blocks)
  {
    Restatus(s.blocks, h, Used(user));
    TakeMerged(s.blocks, h, Used(user));
    ListsFrame(s.area, s.next, s.prev, s.lists, s.blocks, s.blocks[h := Block(o, Used(user))]);
    var t := GrantState(s, h, user);
    assert t.blocks == s.blocks[h := s.blocks[h].(status := Used(user))];
    forall f | 0 <= f < FRAME_COUNT && HasAlloc(t.frames[f]) ensures f in t.blocks && t.blocks[f].status.Used? {
      assert f != h ==> HasAlloc(s.frames[f]);
    }
  }

  ghost function RevokeState(s: State, h: nat): State
    requires Sized(s) && h in s.blocks && h < FRAME_COUNT
  {
    var o := s.blocks[h].order;
    s.(frames := s.frames[h := o], blocks := s.blocks[h := Block(o, Hand)])
  }

  lemma {:induction false} RevokeStep(s: State, h: nat)
    requires Inv(s) && Sized(s) && NoHand(s.blocks) && h in s.blocks && s.blocks[h].status.Used?
    ensures h < FRAME_COUNT && InvHand(RevokeState(s, h), h, s.blocks[h].order)
  {
    var o := s.blocks[h].order;
    Restatus(s.blocks, h, Hand);
    TakeMerged(s.blocks, h, Hand);
    assert s.blocks[h].(status := Hand) == Block(o, Hand);
    ListsFrame(s.area, s.next, s.prev, s.lists, s.blocks, s.blocks[h := Block(o, Hand)]);
    var t := RevokeState(s, h);
    forall f | 0 <= f < FRAME_COUNT && HasAlloc(t.frames[f]) ensures f in t.blocks && t.blocks[f].status.Used? {
      assert f != h && HasAlloc(s.frames[f]);
    }
  }

  // ---- merging ------------------------------------------------------------------

  /** The test on the buddy's byte succeeds exactly when the buddy is a free block of
      the same order; it never reads the byte of an interior frame. */
  lemma {:induction false} MergeTest(s: State, h: nat, o: nat)
    requires InvHand(s, h, o) && Sized(s) && o < MAX_ORDER
    ensures var b := FlipBit(h, o);
            && b < FRAME_COUNT && b in s.blocks && b != h
            && (WithoutUser(s.frames[b]) == o <==> FreeAt(s.blocks, b, o))
  {
    BuddyIsHead(s.blocks, h);
    var b := FlipBit(h, o);
    assert !s.blocks[b].status.Hand?;
    assert s.frames[b] == Tag(s.blocks[b].order, s.blocks[b].status);
  }

  ghost function MergeState(s: State, h: nat, k: nat): State
    requires Sized(s) && h in s.blocks && s.blocks[h].order < MAX_ORDER
    requires h < FRAME_COUNT && FlipBit(h, s.blocks[h].order) < FRAME_COUNT
    requires k < |s.lists[s.blocks[h].order]| && s.lists[s.blocks[h].order][k] < FRAME_COUNT
  {
    var o := s.blocks[h].order;
    var b := FlipBit(h, o);
    var lo := if h < b then h else b;
    var u := Unlinked(s, o, k);
    u.(frames := s.frames[lo := o + 1], blocks := Merge(s.blocks, h))
  }

  lemma {:induction false} MergeStep(s: State, h: nat, o: nat, k: nat)
    requires InvHand(s, h, o) && Sized(s) && o < MAX_ORDER
    requires k < |s.lists[o]| && s.lists[o][k] == FlipBit(h, o) < FRAME_COUNT
    ensures var b := FlipBit(h, o);
            var lo := if h < b then h else b;
            && h < FRAME_COUNT && FreeAt(s.blocks, b, o)
            && InvHand(MergeState(s, h, k), lo, o + 1)
  {
    var b := FlipBit(h, o);
    assert b in s.lists[o];
    assert FreeAt(s.blocks, b, o);
    BuddyFacts(h, o);
    hide Tiles, Merged, Tags, Lists, FlipBit;
    MergeTiles(s.blocks, h);
    MergeMerged(s.blocks, h);
    MergeLists(s, h, o, k);
    MergeTags(s.frames, s.blocks, h, o);
  }

  lemma MergeLists(s: State, h: nat, o: nat, k: nat)
    requires Lists(s.area, s.next, s.prev, s.lists, s.blocks) && Sized(s)
    requires h in s.blocks && s.blocks[h] == Block(o, Hand) && o < MAX_ORDER && h < FRAME_COUNT
    requires k < |s.lists[o]| && s.lists[o][k] == FlipBit(h, o) < FRAME_COUNT && FlipBit(h, o) != h
    ensures var t := MergeState(s, h, k); Lists(t.area, t.next, t.prev, t.lists, t.blocks)
  {
    var b := FlipBit(h, o);
    RemoveLists(s.area, s.next, s.prev, s.lists, s.blocks, o, k);
    var u, t := Unlinked(s, o, k), MergeState(s, h, k);
    forall g: nat, p: nat ensures FreeAt(t.blocks, g, p) <==> FreeAt(u.blocks, g, p) { }
    ListsFrame(u.area, u.next, u.prev, u.lists, u.blocks, t.blocks);
  }

  lemma {:induction false} MergeTags(fr: seq<nat>, bs: Blocks, h: nat, o: nat)
    requires Tags(fr, bs) && h in bs && bs[h] == Block(o, Hand) && o < MAX_ORDER && h < FRAME_COUNT
    requires FreeAt(bs, FlipBit(h, o), o) && FlipBit(h, o) < FRAME_COUNT
    ensures var lo := if h < FlipBit(h, o) then h else FlipBit(h, o);
            Tags(fr[lo := o + 1], Merge(bs, h))
  {
    var b := FlipBit(h, o);
    var lo := if h < b then h else b;
    var fr', bs' := fr[lo := o + 1], Merge(bs, h);
    forall f | 0 <= f < FRAME_COUNT && HasAlloc(fr'[f]) ensures f in bs' && bs'[f].status.Used? {
      assert f != lo && HasAlloc(fr[f]);
    }
  }

  // ---- placing the block in hand -------------------------------------------------

  ghost function PlaceState(s: State, h: nat): State
    requires Sized(s) && h in s.blocks && h < FRAME_COUNT && s.blocks[h].order <= MAX_ORDER
  {
    var o := s.blocks[h].order;
    State(s.frames, s.area[o := h], s.next[h := s.area[o]], AddPrev(s.area[o], s.prev, h),
          s.lists[o := [h] + s.lists[o]], s.blocks[h := Block(o, Free)])
  }

  lemma {:induction false} PlaceStep(s: State, h: nat, o: nat)
    requires InvHand(s, h, o) && Sized(s) && h < FRAME_COUNT && s.frames[h] == o <= MAX_ORDER
    requires o < MAX_ORDER ==> !FreeAt(s.blocks, FlipBit(h, o), o)
    ensures Inv(PlaceState(s, h)) && NoHand(PlaceState(s, h).blocks)
  {
    Restatus(s.blocks, h, Free);
    PlaceMerged(s.blocks, h);
    assert s.blocks[h].(status := Free) == Block(o, Free);
    AddLists(s.area, s.next, s.prev, s.lists, s.blocks, o, h);
    var t := PlaceState(s, h);
    forall f | 0 <= f < FRAME_COUNT && HasAlloc(t.frames[f]) ensures f in t.blocks && t.blocks[f].status.Used? {
      assert HasAlloc(s.frames[f]);
    }
  }

  /** A set allocation bit marks the head of an allocated block and nothing else. */
  lemma {:induction false} AllocBit(s: State, f: nat)
    requires Inv(s) && Sized(s) && NoHand(s.blocks) && f < FRAME_COUNT
    ensures HasAlloc(s.frames[f]) <==> f in Allocated(s.blocks)
    ensures f in Allocated(s.blocks) ==>
              Allocated(s.blocks)[f] == Allocation(OrderOf(s.frames[f]), HasUser(s.frames[f]))
  {
    if f in s.blocks {
      assert s.frames[f] == Tag(s.blocks[f].order, s.blocks[f].status);
    }
  }

  /** Contents of allocated memory do not matter to the lists. */
  lemma ScribbleStep(s: State, next': seq<int>, prev': seq<int>)
    requires Inv(s) && Sized(s) && |next'| == |prev'| == FRAME_COUNT
    requires forall f: nat, o: nat :: f < FRAME_COUNT && FreeAt(s.blocks, f, o) ==>
              next'[f] == s.next[f] && prev'[f] == s.prev[f]
    ensures Inv(s.(next := next', prev := prev'))
  {
    forall o | 0 <= o <= MAX_ORDER ensures Linked(s.area[o], next', prev', s.lists[o]) {
      assert forall h :: h in s.lists[o] ==> FreeAt(s.blocks, h, o);
      LinkedFrame(s.area[o], s.next, s.prev, next', prev', s.lists[o]);
    }
  }
}
