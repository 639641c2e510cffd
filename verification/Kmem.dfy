/** kmalloc and kfree: slabs and a page pool over the buddy allocator. Memory the
    allocator writes (slab headers, list links) is explicit; what callers keep in
    their own memory is not. */
module Kmem {
  import opened Frames
  import opened Tiling
  import opened FreeLists
  import opened SlabState
  import opened SlabSteps
  import BuddyState
  import opened Buddy
  import opened KmemState

  lemma TagOrder(b: BuddyAllocator, idx: nat)
    requires b.Valid() && idx in b.Live()
    ensures idx < FRAME_COUNT == b.frames.Length && BuddyState.HasAlloc(b.frames[idx])
    ensures BuddyState.OrderOf(b.frames[idx]) == b.Live()[idx].order <= MAX_ORDER
  {
    BuddyState.InvSized(b.View());
    LiveOrder(b.View(), idx);
    BuddyState.AllocBit(b.View(), idx);
  }

  class Kmalloc {
    const buddy: BuddyAllocator
    var hdr: seq<Header>
    var next: seq<int>
    var prev: seq<int>
    var heads: seq<int>
    var link: map<nat, nat>
    var cached: seq<seq<nat>>
    var pool: seq<nat>
    ghost var chain: seq<seq<nat>>
    ghost var owner: map<nat, nat>
    ghost var free: map<nat, seq<nat>>
    ghost var place: map<nat, Place>
    ghost var big: map<nat, nat>

    ghost function Repr(): set<object> { {this} + buddy.Repr() }

    ghost function View(): Slabs
      reads this
    {
      Slabs(hdr, next, prev, heads, link, cached, chain, owner, free, place)
    }

    ghost predicate Core()
      reads Repr()
    {
      buddy.Valid() && KmemInv(View(), pool, big, buddy.Live())
    }

    ghost predicate Valid()
      reads Repr()
    {
      Core() && NoIdle(View(), {})
    }

    /** Slab objects in callers' hands, with their sizes. */
    ghost function Out(): map<nat, nat>
      reads this
    {
      OutObjects(View())
    }

    /** What callers hold: start address and size in bytes. */
    ghost function Regions(): map<nat, nat>
      reads this
    {
      Out() + Blocks4K(big)
    }

    /** Blocks of the buddy allocator that are not held here. */
    ghost function Unclaimed(): set<nat>
      reads Repr()
    {
      Loose(owner, pool, big, buddy.Live())
    }

    constructor (b: BuddyAllocator)
      requires b.Valid()
      ensures buddy == b && Valid() && Regions() == map[]
    {
      buddy := b;
      hdr := seq(FRAME_COUNT, _ => Header(0, 0, 0, 0, 0));
      next, prev := seq(FRAME_COUNT, _ => 0), seq(FRAME_COUNT, _ => 0);
      heads := seq(CACHE_COUNT, _ => NIL);
      link, pool := map[], [];
      cached := seq(CACHE_COUNT, _ => []);
      chain := seq(CACHE_COUNT, _ => []);
      owner, free, place, big := map[], map[], map[], map[];
    }

    /** Takes the first object of a slab's free list. */
    method PopObject(p: nat) returns (a: nat)
      requires Core() && p in owner && free[p] != []
      modifies this`hdr, this`free, this`place
      ensures Core() && Out() == old(Out())[a := ObjSize(owner[p])]
      ensures a != 0 && a !in old(Out()) && a in place && place[a] == Place.Out && PageOf(a) == p
      ensures NoIdle(old(View()), {p}) ==> NoIdle(View(), {})
    {
      hide SlabInv, Backed, KmemInv, BuddyState.Inv, NoHand, OutObjects, NoIdle, Stays, ObjSize;
      ghost var s := View();
      PopAll(s, pool, big, buddy.Live(), p);
      a := hdr[p].freelist;
      hdr := hdr[p := hdr[p].(freelist := link[a], inUse := hdr[p].inUse + 1)];
      free, place := free[p := free[p][1..]], place[a := Place.Out];
      assert View() == Popped(s, p);
    }

    /** Walks the cache's slabs for one with a free object. */
    method FindSlab(id: nat) returns (p: int)
      requires Core() && id < CACHE_COUNT
      ensures p != NIL ==> 0 <= p && p in owner && owner[p] == id && free[p] != []
      ensures p == NIL <==> NoSlabObject(View(), id)
    {
      hide SlabInv, Backed, KmemInv, BuddyState.Inv, NoHand, Sized;
      SlabsOnly(View(), pool, big, buddy.Live(), id);
      p := heads[id];
      ghost var l := chain[id];
      ghost var k: nat := 0;
      ChainStart(View(), id);
      while p != NIL
        invariant k <= |l| && p == (if k < |l| then l[k] else NIL)
        invariant forall i :: 0 <= i < k ==> l[i] in owner && free[l[i]] == []
        decreases |l| - k
      {
        ChainNode(View(), id, k);
        PopReady(View(), p);
        if hdr[p].freelist != 0 { return; }
        p := next[p];
        k := k + 1;
      }
      forall q | q in owner && owner[q] == id ensures q in free && free[q] == [] {
        assert q in l;
      }
    }

    /** Puts a page at the front of its cache's list of slabs. */
    method LinkFront(p: nat, id: nat)
      requires |heads| == CACHE_COUNT && |next| == |prev| == FRAME_COUNT && id < CACHE_COUNT && p < FRAME_COUNT
      requires NIL <= heads[id] < FRAME_COUNT
      modifies this`next, this`prev, this`heads
      ensures next == old(next)[p := old(heads[id])] && prev == AddPrev(old(heads[id]), old(prev), p)
      ensures heads == old(heads)[id := p]
    {
      next := next[p := heads[id]];
      prev := prev[p := NIL];
      if heads[id] != NIL { prev := prev[heads[id] := p]; }
      heads := heads[id := p];
    }

    /** Threads the objects of a page into a list, last object first. */
    method ThreadPage(p: nat, id: nat) returns (head: nat, count: nat)
      requires id < CACHE_COUNT
      modifies this`link
      ensures count == PerSlab(id) && head == First(ObjList(p, id, count))
      ensures link == Thread(old(link), p, id, count)
    {
      var page := PageAddr(p);
      var data := page + SLAB_HEADER;
      head, count := 0, 0;
      while data + ObjSize(id) <= page + FRAME_SIZE
        invariant data == ObjAt(p, id, count) && head == First(ObjList(p, id, count))
        invariant link == Thread(old(link), p, id, count) && count <= PerSlab(id)
        decreases page + FRAME_SIZE - data
      {
        link := link[data := head];
        head := data;
        data := data + ObjSize(id);
        count := count + 1;
        CountStep(p, id, count, data);
      }
      CountDone(p, id, count);
    }

    /** The words written to make a page a slab. */
    method StoreOpened(p: nat, id: nat)
      requires Sized(View()) && id < CACHE_COUNT && p < FRAME_COUNT && NIL <= heads[id] < FRAME_COUNT
      modifies this`hdr, this`next, this`prev, this`heads, this`link, this`chain, this`owner, this`free, this`place
      ensures View() == Opened(old(View()), p, id)
    {
      ghost var t := Opened(View(), p, id);
      hide ObjList, Thread, PerSlab, ObjSize, AddPrev, First;
      LinkFront(p, id);
      var head, count := ThreadPage(p, id);
      hdr := hdr[p := Header(SLAB_MAGIC, 0, count, head, id)];
      chain, owner, free, place := t.chain, t.owner, t.free, t.place;
    }

    /** Writes the header of a fresh page and threads its free list. */
    method OpenPage(p: nat, id: nat)
      requires Core() && id < CACHE_COUNT && p < FRAME_COUNT && Unheld(View(), pool, big, buddy.Live(), p)
      modifies this`hdr, this`next, this`prev, this`heads, this`link, this`chain, this`owner, this`free, this`place
      ensures Core() && Out() == old(Out()) && owner == old(owner)[p := id] && free[p] != []
      ensures NoIdle(old(View()), {}) ==> NoIdle(View(), {p})
    {
      hide SlabInv, Backed, KmemInv, BuddyState.Inv, NoHand, OutObjects, NoIdle, Unheld, Sized, Opened;
      OpenAll(View(), pool, big, buddy.Live(), p, id);
      OpenedOwner(View(), p, id);
      StoreOpened(p, id);
    }

    /** An object from some slab of the cache, opening a slab when all are full. */
    method SlabAlloc(id: nat) returns (a: nat)
      requires Valid() && id < CACHE_COUNT
      modifies this`hdr, this`next, this`prev, this`heads, this`link, this`chain, this`owner, this`free, this`place,
           buddy.Repr()
      ensures Valid() && Unclaimed() == old(Unclaimed())
      ensures a == 0 <==> old(NoSlabObject(View(), id)) && !RunAvailable(old(buddy.Live()), 0)
      ensures a == 0 ==> Out() == old(Out())
      ensures a != 0 ==> a !in old(Out()) && Out() == old(Out())[a := ObjSize(id)]
      ensures a != 0 ==> a in place && place[a] == Place.Out && PageOf(a) in owner && owner[PageOf(a)] == id
    {
      hide SlabInv, Backed, KmemInv, BuddyState.Inv, NoHand, OutObjects, NoIdle, Loose, NoSlabObject, RunAvailable;
      var p := FindSlab(id);
      if p == NIL {
        var page := buddy.BuddyAlloc(0, false);
        if page == 0 { return 0; }
        p := FrameOf(page);
        GrantAll(View(), pool, big, old(buddy.Live()), buddy.Live(), page, 0, false);
        LooseOpened(owner, pool, big, old(buddy.Live()), buddy.Live(), p, id);
        OpenPage(p, id);
      } else {
        ExemptOne(View(), p);
      }
      a := PopObject(p);
    }

    /** Puts an object a caller returned into the per-CPU cache. */
    method Stash(id: nat, a: nat)
      requires Core() && a in place && place[a] == Place.Out && PageOf(a) in owner
      requires owner[PageOf(a)] == id < CACHE_COUNT
      requires |cached[id]| < PCPU_OBJ_CACHE
      modifies this`cached, this`place
      ensures Core() && Out() == old(Out()) - {a}
      ensures NoIdle(old(View()), {}) ==> NoIdle(View(), {})
      ensures cached == old(cached)[id := old(cached[id]) + [a]]
      ensures forall b :: b != a ==> Stays(old(View()), View(), b)
    {
      hide SlabInv, Backed, KmemInv, BuddyState.Inv, NoHand, OutObjects, NoIdle, Stays, ObjSize;
      ghost var s := View();
      StashAll(s, pool, big, buddy.Live(), id, a);
      cached := cached[id := cached[id] + [a]];
      place := place[a := Place.Cached];
      assert View() == Stashed(s, id, a);
    }

    /** Takes the most recently cached object. */
    method Unstash(id: nat) returns (a: nat)
      requires Core() && id < CACHE_COUNT && cached[id] != []
      modifies this`cached, this`place
      ensures Core() && a != 0 && a !in old(Out()) && Out() == old(Out())[a := ObjSize(id)]
      ensures NoIdle(old(View()), {}) ==> NoIdle(View(), {})
      ensures a in place && place[a] == Place.Out && |cached[id]| == |old(cached[id])| - 1
      ensures forall b :: b != a ==> Stays(old(View()), View(), b)
    {
      hide SlabInv, Backed, KmemInv, BuddyState.Inv, NoHand, OutObjects, NoIdle, Stays, ObjSize;
      ghost var s := View();
      UnstashAll(s, pool, big, buddy.Live(), id);
      var n := |cached[id]| - 1;
      a := cached[id][n];
      cached := cached[id := cached[id][..n]];
      place := place[a := Place.Out];
      assert View() == Unstashed(s, id);
    }

    /** Pushes an object on its slab's free list. */
    method PushObject(a: nat)
      requires Core() && a in place && place[a] == Place.Out
      modifies this`hdr, this`link, this`free, this`place
      ensures Core() && Out() == old(Out()) - {a} && PageOf(a) in owner
      ensures PageOf(a) < |hdr| && hdr[PageOf(a)].inUse >= 0
      ensures NoIdle(old(View()), {}) ==> NoIdle(View(), {PageOf(a)})
      ensures forall b :: b != a ==> Stays(old(View()), View(), b)
    {
      hide SlabInv, Backed, KmemInv, BuddyState.Inv, NoHand, OutObjects, NoIdle, Stays;
      ghost var s := View();
      PushAll(s, pool, big, buddy.Live(), a);
      var p := PageOf(a);
      link := link[a := hdr[p].freelist];
      hdr := hdr[p := hdr[p].(freelist := a, inUse := hdr[p].inUse - 1)];
      free, place := free[p := [a] + free[p]], place[a := OnList];
      assert View() == Pushed(s, a);
    }

    method UnlinkSlab(p: nat, id: nat)
      requires |heads| == CACHE_COUNT && |next| == |prev| == FRAME_COUNT && id < CACHE_COUNT && p < FRAME_COUNT
      requires NIL <= next[p] < FRAME_COUNT && NIL <= prev[p] < FRAME_COUNT && next[p] != p && prev[p] != p
      modifies this`next, this`prev, this`heads
      ensures next == RemoveNext(old(next), old(prev), p) && prev == RemovePrev(old(next), old(prev), p)
      ensures heads == old(heads)[id := RemoveHead(old(heads[id]), old(next), old(prev), p)]
    {
      if next[p] != NIL { prev := prev[next[p] := prev[p]]; }
      if prev[p] != NIL { next := next[prev[p] := next[p]]; } else { heads := heads[id := next[p]]; }
    }

    /** The words written to take a slab off its cache. */
    method StoreClosed(p: nat, ghost k: nat)
      requires Sized(View()) && p in owner && k < |chain[owner[p]]| && hdr[p].cache == owner[p]
      requires NIL <= next[p] < FRAME_COUNT && NIL <= prev[p] < FRAME_COUNT && next[p] != p && prev[p] != p
      modifies this`next, this`prev, this`heads, this`chain, this`owner, this`free, this`place
      ensures View() == Closed(old(View()), p, k)
    {
      ghost var t := Closed(View(), p, k);
      hide RemoveNext, RemovePrev, RemoveHead, Without;
      UnlinkSlab(p, hdr[p].cache);
      chain, owner, free, place := t.chain, t.owner, t.free, t.place;
    }

    /** Takes an idle slab off its cache; the page is then nobody's but still allocated. */
    method Detach(p: nat)
      requires Core() && p in owner && hdr[p].inUse == 0
      modifies this`next, this`prev, this`heads, this`chain, this`owner, this`free, this`place
      ensures IsAllocation(buddy.Live(), PageAddr(p), 0) && FrameOf(PageAddr(p)) == p
      ensures KmemInv(View(), pool, big, buddy.Live() - {p}) && Out() == old(Out()) && owner == old(owner) - {p}
      ensures NoIdle(old(View()), {p}) ==> NoIdle(View(), {})
      ensures forall b :: Stays(old(View()), View(), b)
    {
      hide SlabInv, Backed, KmemInv, BuddyState.Inv, NoHand, OutObjects, NoIdle, Stays, IsAllocation, Sized, Closed;
      ghost var k := CloseAll(View(), pool, big, buddy.Live(), p);
      ClosedOwner(View(), p, k);
      StoreClosed(p, k);
    }

    /** Unlinks an idle slab and returns its page to the buddy allocator. */
    method ClosePage(p: nat)
      requires Core() && p in owner && hdr[p].inUse == 0
      modifies this`next, this`prev, this`heads, this`chain, this`owner, this`free, this`place, buddy.Repr()
      ensures Core() && Out() == old(Out()) && Unclaimed() == old(Unclaimed())
      ensures NoIdle(old(View()), {p}) ==> NoIdle(View(), {})
      ensures forall b :: Stays(old(View()), View(), b)
    {
      hide SlabInv, Backed, KmemInv, BuddyState.Inv, NoHand, OutObjects, NoIdle, Stays, Loose;
      LooseClosed(owner, pool, big, buddy.Live(), p);
      Detach(p);
      ghost var t := View();
      buddy.BuddyFree(PageAddr(p), 0);
      assert View() == t;
    }

    /** The free path to the slab: push, and give the page back once the slab is idle. */
    method ReturnToSlab(a: nat)
      requires Valid() && a in place && place[a] == Place.Out
      modifies this`hdr, this`next, this`prev, this`heads, this`link, this`chain, this`owner, this`free, this`place,
           buddy.Repr()
      ensures Valid() && Out() == old(Out()) - {a} && Unclaimed() == old(Unclaimed())
      ensures forall b :: b != a ==> Stays(old(View()), View(), b)
    {
      hide SlabInv, Backed, KmemInv, BuddyState.Inv, NoHand, OutObjects, NoIdle, Loose;
      ghost var s := View();
      PushObject(a);
      ghost var t := View();
      if hdr[PageOf(a)].inUse == 0 {
        ClosePage(PageOf(a));
      } else {
        ExemptNone(t, PageOf(a));
      }
      forall b | b != a ensures Stays(s, View(), b) {
        assert Stays(s, t, b) && Stays(t, View(), b);
      }
    }

    /** Moves one object of the slab into the cache. The cache never overflows, so the
        branch that would drop the object is dead. */
    method RefillOne(id: nat, p: nat)
      requires Valid() && id < CACHE_COUNT && p in owner && owner[p] == id && |cached[id]| < PCPU_OBJ_CACHE
      requires free[p] != []
      modifies this`hdr, this`free, this`place, this`cached
      ensures Valid() && Out() == old(Out())
      ensures |cached| == CACHE_COUNT && |cached[id]| == |old(cached[id])| + 1
      ensures p in free && p < |hdr| && (hdr[p].freelist == 0 <==> free[p] == [])
    {
      hide SlabInv, Backed, KmemInv, BuddyState.Inv, NoHand, OutObjects, NoIdle, Stays;
      ExemptOne(View(), p);
      CachesSized(View(), pool, big, buddy.Live());
      var extra := PopObject(p);
      if |cached[id]| >= PCPU_OBJ_CACHE {
        assert false;
      }
      Stash(id, extra);
      PageHeader(View(), pool, big, buddy.Live(), p);
    }

    /** Moves up to PCPU_OBJ_REFILL further objects of the slab into the empty cache. */
    method Refill(id: nat, p: nat)
      requires Valid() && id < CACHE_COUNT && p in owner && owner[p] == id && cached[id] == []
      modifies this`hdr, this`free, this`place, this`cached
      ensures Valid() && Out() == old(Out())
      ensures p in free && id < |cached| && (|cached[id]| == PCPU_OBJ_REFILL || free[p] == [])
    {
      hide SlabInv, Backed, KmemInv, BuddyState.Inv, NoHand, OutObjects, NoIdle, Stays;
      var want := PCPU_OBJ_REFILL;
      PageHeader(View(), pool, big, buddy.Live(), p);
      while want > 0 && hdr[p].freelist != 0
        invariant 0 <= want && Valid() && Out() == old(Out()) && |cached| == CACHE_COUNT
        invariant |cached[id]| + want == PCPU_OBJ_REFILL
        invariant p in free && p < |hdr| && (hdr[p].freelist == 0 <==> free[p] == [])
      {
        RefillOne(id, p);
        want := want - 1;
      }
    }

    /** An object of the cache's size, from the per-CPU cache when it holds one. */
    method PcpuSlabAlloc(id: nat) returns (a: nat)
      requires Valid() && id < CACHE_COUNT
      modifies Repr()
      ensures Valid() && big == old(big) && pool == old(pool) && Unclaimed() == old(Unclaimed())
      ensures a == 0 <==> old(NoObject(View(), id)) && !RunAvailable(old(buddy.Live()), 0)
      ensures a == 0 ==> Out() == old(Out())
      ensures a != 0 ==> a !in old(Out()) && Out() == old(Out())[a := ObjSize(id)]
    {
      hide SlabInv, Backed, KmemInv, BuddyState.Inv, NoHand, OutObjects, NoIdle, Stays, Loose, NoSlabObject,
           RunAvailable;
      CachesSized(View(), pool, big, buddy.Live());
      if |cached[id]| > 0 {
        a := Unstash(id);
        return;
      }
      a := SlabAlloc(id);
      if a == 0 { return; }
      Refill(id, PageOf(a));
    }

    /** Returns the most recently cached object to its slab. */
    method DrainOne(id: nat, ghost keep: nat)
      requires Valid() && id < CACHE_COUNT && keep in place && place[keep] == Place.Out && cached[id] != []
      modifies Repr()
      ensures Valid() && big == old(big) && Out() == old(Out()) && Unclaimed() == old(Unclaimed())
      ensures keep in place && place[keep] == Place.Out && |cached| == CACHE_COUNT && |cached[id]| < |old(cached[id])|
    {
      hide SlabInv, Backed, KmemInv, BuddyState.Inv, NoHand, OutObjects, NoIdle, Loose;
      ghost var s := View();
      OutPlaces(s, pool, big, buddy.Live(), keep);
      var obj := Unstash(id);
      ghost var t := View();
      CachesSized(t, pool, big, buddy.Live());
      assert Stays(s, t, keep);
      ReturnToSlab(obj);
      assert Stays(t, View(), keep);
    }

    /** Returns every cached object of the cache to its slab. */
    method Drain(id: nat, ghost keep: nat)
      requires Valid() && id < CACHE_COUNT && keep in place && place[keep] == Place.Out
      modifies Repr()
      ensures Valid() && big == old(big) && Out() == old(Out()) && Unclaimed() == old(Unclaimed())
      ensures keep in place && place[keep] == Place.Out && id < |cached| && cached[id] == []
    {
      hide SlabInv, Backed, KmemInv, BuddyState.Inv, NoHand, OutObjects, NoIdle, Loose;
      CachesSized(View(), pool, big, buddy.Live());
      while |cached[id]| > 0
        invariant Valid() && big == old(big) && Out() == old(Out()) && |cached| == CACHE_COUNT
        invariant Unclaimed() == old(Unclaimed())
        invariant keep in place && place[keep] == Place.Out
        decreases |cached[id]|
      {
        DrainOne(id, keep);
      }
    }

    /** Frees an object into the per-CPU cache, draining the cache first when it is full. */
    method PcpuSlabFree(a: nat)
      requires Valid() && a in place && place[a] == Place.Out
      modifies Repr()
      ensures Valid() && big == old(big) && Out() == old(Out()) - {a} && Unclaimed() == old(Unclaimed())
      ensures old(PageOf(a) in owner && owner[PageOf(a)] < |cached|)
      ensures var id := old(owner[PageOf(a)]);
              && id < |cached|
              && cached[id] == if |old(cached)[id]| < PCPU_OBJ_CACHE then old(cached)[id] + [a] else []
    {
      hide SlabInv, Backed, KmemInv, BuddyState.Inv, NoHand, OutObjects, NoIdle, Stays, Loose;
      ObjectHeader(View(), pool, big, buddy.Live(), a);
      var id := hdr[PageOf(a)].cache;
      if |cached[id]| < PCPU_OBJ_CACHE {
        Stash(id, a);
        return;
      }
      Drain(id, a);
      ReturnToSlab(a);
    }

    /** A page from the pool, or a fresh one. */
    method PcpuPageAlloc() returns (x: nat)
      requires Valid()
      modifies Repr()
      ensures Valid() && View() == old(View()) && Unclaimed() == old(Unclaimed())
      ensures x == 0 <==> old(pool) == [] && !RunAvailable(old(buddy.Live()), 0)
      ensures x == 0 ==> big == old(big)
      ensures x != 0 ==> x !in old(big) && x !in Out() && big == old(big)[x := 0]
      ensures old(pool) != [] ==> old(pool) == pool + [x] && buddy.Live() == old(buddy.Live())
    {
      hide SlabInv, Backed, KmemInv, BuddyState.Inv, NoHand, OutObjects, NoIdle, Stays, Loose, RunAvailable;
      if |pool| > 0 {
        PoolTake(View(), pool, big, buddy.Live());
        assert pool == pool[..|pool| - 1] + [pool[|pool| - 1]];
        LoosePool(owner, pool[..|pool| - 1], big, buddy.Live(), pool[|pool| - 1]);
        x := pool[|pool| - 1];
        pool := pool[..|pool| - 1];
        big := big[x := 0];
        return;
      }
      x := BlockAlloc(0);
    }

    /** A block straight from the buddy allocator, on the caller's account. */
    method BlockAlloc(order: nat) returns (x: nat)
      requires Valid()
      modifies Repr()
      ensures Valid() && View() == old(View()) && pool == old(pool) && Unclaimed() == old(Unclaimed())
      ensures x == 0 <==> order > MAX_ORDER || !RunAvailable(old(buddy.Live()), order)
      ensures x == 0 ==> big == old(big)
      ensures x != 0 ==> x !in old(big) && x !in Out() && big == old(big)[x := order]
    {
      hide SlabInv, Backed, KmemInv, BuddyState.Inv, NoHand, OutObjects, NoIdle, Stays, Loose, RunAvailable;
      x := buddy.BuddyAlloc(order, false);
      if x != 0 {
        BigGrant(View(), pool, big, old(buddy.Live()), buddy.Live(), x, order, false);
        LooseGiven(owner, pool, big, old(buddy.Live()), buddy.Live(), x, order);
        big := big[x := order];
      }
    }

    /** Puts a page back into the pool, or to the buddy allocator when the pool is full. */
    method PcpuPageFree(x: nat)
      requires Valid() && x in big && big[x] == 0
      modifies Repr()
      ensures Valid() && View() == old(View()) && big == old(big) - {x} && Unclaimed() == old(Unclaimed())
      ensures pool == if |old(pool)| < PCPU_PAGE_POOL then old(pool) + [x] else old(pool)
    {
      hide SlabInv, Backed, KmemInv, BuddyState.Inv, NoHand, OutObjects, NoIdle, Stays, Loose;
      if |pool| < PCPU_PAGE_POOL {
        PoolGive(View(), pool, big, buddy.Live(), x);
        LoosePool(owner, pool, big, buddy.Live(), x);
        pool := pool + [x];
        big := big - {x};
      } else {
        BlockFree(x, 0);
      }
    }

    method BlockFree(x: nat, order: nat)
      requires Valid() && x in big && big[x] == order <= MAX_ORDER
      modifies Repr()
      ensures Valid() && View() == old(View()) && big == old(big) - {x} && pool == old(pool)
      ensures Unclaimed() == old(Unclaimed())
    {
      hide SlabInv, Backed, KmemInv, BuddyState.Inv, NoHand, OutObjects, NoIdle, Stays, Loose;
      BigReturn(View(), pool, big, buddy.Live(), x);
      LooseReturned(owner, pool, big, buddy.Live(), x);
      buddy.BuddyFree(x, order);
      big := big - {x};
    }

    /** Neither the pool nor the buddy layer has the pages. */
    ghost predicate NoPages(size: nat)
      reads Repr()
    {
      var order := NeededOrder(size);
      (order > 0 || pool == []) && (order > MAX_ORDER || !RunAvailable(buddy.Live(), order))
    }

    /** Requests of 2048 bytes and more: whole pages. */
    method AllocPages(size: nat) returns (r: nat)
      requires Valid() && 2048 <= size && size + FRAME_SIZE - 1 < 0x1_0000_0000_0000_0000
      modifies Repr()
      ensures Valid() && Unclaimed() == old(Unclaimed())
      ensures r == 0 <==> old(NoPages(size))
      ensures r == 0 ==> Regions() == old(Regions())
      ensures r != 0 ==> r !in old(Regions()) && Regions() == old(Regions())[r := BlockBytes(NeededOrder(size))]
    {
      hide SlabInv, Backed, KmemInv, BuddyState.Inv, NoHand, OutObjects, NoIdle, Stays, Loose, RunAvailable;
      var order := OrderOfPages((size + FRAME_SIZE - 1) / FRAME_SIZE);
      ghost var out, was := Out(), big;
      if order == 0 { r := PcpuPageAlloc(); } else { r := BlockAlloc(order); }
      if r != 0 { AddBlock(out, was, r, order); }
    }

    /** Smaller requests: an object of the first cache that is large enough. */
    method AllocObject(size: nat) returns (r: nat)
      requires Valid() && 16 <= size < 2048
      modifies Repr()
      ensures Valid() && Unclaimed() == old(Unclaimed())
      ensures r == 0 ==> Regions() == old(Regions())
      ensures exists id: nat ::
                && CacheFor(id, size)
                && (r == 0 <==> old(NoObject(View(), id)) && !RunAvailable(old(buddy.Live()), 0))
                && (r != 0 ==> r !in old(Regions()) && Regions() == old(Regions())[r := ObjSize(id)])
    {
      hide SlabInv, Backed, KmemInv, BuddyState.Inv, NoHand, OutObjects, NoIdle, Stays, Loose, RunAvailable, NoObject;
      var i := 0;
      while i < CACHE_COUNT && ObjSize(i) < size
        invariant 0 <= i < CACHE_COUNT && forall j: nat :: j < i ==> ObjSize(j) < size
      {
        i := i + 1;
      }
      ghost var out := Out();
      r := PcpuSlabAlloc(i);
      SmallNotBig(View(), pool, big, buddy.Live());
      if r != 0 { AddObject(out, big, r, ObjSize(i)); }
      assert CacheFor(i, size);
    }

    /** A request for `size` bytes cannot be met: the cache its size belongs to has no object and no page is free
        for a slab, or there are no pages. */
    ghost predicate Exhausted(size: nat)
      reads Repr()
    {
      var n := if size < 16 then 16 else size;
      if size == 0 then true
      else if n >= 2048 then NoPages(n)
      else forall id: nat :: CacheFor(id, n) ==> NoObject(View(), id) && !RunAvailable(buddy.Live(), 0)
    }

    /** A region of the least size that holds `size` bytes, apart from every live one; NULL if and only if there
        is none to give. */
    method Alloc(size: nat) returns (r: nat)
      requires Valid() && size + FRAME_SIZE - 1 < 0x1_0000_0000_0000_0000
      modifies Repr()
      ensures Valid() && Unclaimed() == old(Unclaimed())
      ensures r == 0 <==> old(Exhausted(size))
      ensures r == 0 ==> Regions() == old(Regions())
      ensures r != 0 ==> r !in old(Regions()) && r in Regions() && Regions() == old(Regions())[r := Regions()[r]]
      ensures r != 0 ==> LeastSize(Regions()[r], size)
    {
      hide SlabInv, Backed, KmemInv, BuddyState.Inv, NoHand, OutObjects, NoIdle, Stays, Loose, RunAvailable, NoObject,
           CacheFor, NoPages;
      if size == 0 { return 0; }
      var n := if size < 16 then 16 else size;
      if n >= 2048 {
        r := AllocPages(n);
        if r != 0 { LeastPages(n); }
      } else {
        ghost var id := CacheOf(n);
        ExhaustedIs(size, id, n);
        r := AllocObject(n);
        forall j: nat | CacheFor(j, n) ensures j == id { OneCache(id, j, n); }
        if r != 0 { LeastObject(id, size, n); }
      }
    }

    lemma ExhaustedIs(size: nat, id: nat, n: nat)
      requires 0 < size && n == (if size < 16 then 16 else size) && n < 2048 && CacheFor(id, n)
      ensures Exhausted(size) <==> NoObject(View(), id) && !RunAvailable(buddy.Live(), 0)
    {
      hide CacheFor, RunAvailable;
      if NoObject(View(), id) && !RunAvailable(buddy.Live(), 0) {
        forall j: nat | CacheFor(j, n) ensures NoObject(View(), j) && !RunAvailable(buddy.Live(), 0) {
          OneCache(id, j, n);
        }
      }
    }

    /** Frees a page or a larger block, found by its tag byte. */
    method FreeBlock(ptr: nat)
      requires Valid() && ptr in big && HeapPage(ptr)
      modifies Repr()
      ensures Valid() && Out() == old(Out()) && big == old(big) - {ptr} && Unclaimed() == old(Unclaimed())
    {
      hide SlabInv, Backed, KmemInv, BuddyState.Inv, NoHand, OutObjects, NoIdle, Stays, Loose;
      SlabMagic(View(), pool, big, buddy.Live(), ptr);
      var idx := FrameOf(ptr);
      TagOrder(buddy, idx);
      if !BuddyState.HasAlloc(buddy.frames[idx]) { return; }
      var order := BuddyState.OrderOf(buddy.frames[idx]);
      if order == 0 { PcpuPageFree(ptr); } else { BlockFree(ptr, order); }
    }

    /** Ends one live region. A page-sized block must not hold SLAB_MAGIC in its first word. */
    method Free(ptr: nat)
      requires Valid()
      requires HEAP_PHYS <= ptr < HEAP_PHYS + HEAP_SIZE ==> ptr in Regions()
      requires ptr in big && PageOf(ptr) < |hdr| ==> hdr[PageOf(ptr)].magic != SLAB_MAGIC
      modifies Repr()
      ensures Valid() && Regions() == old(Regions()) - {ptr} && Unclaimed() == old(Unclaimed())
    {
      hide SlabInv, Backed, KmemInv, BuddyState.Inv, NoHand, OutObjects, NoIdle, Stays, Loose;
      PointerKind(View(), pool, big, buddy.Live(), ptr);
      ghost var out, was := Out(), big;
      if ptr == 0 || ptr < HEAP_PHYS || ptr >= HEAP_PHYS + HEAP_SIZE { return; }
      if hdr[PageOf(ptr)].magic == SLAB_MAGIC {
        PcpuSlabFree(ptr);
      } else {
        if ptr % FRAME_SIZE != 0 { return; }
        FreeBlock(ptr);
      }
      DropRegion(out, was, ptr);
    }

    /** What lies where a slab header would be, in a page that is no slab, may change in any way: callers and
        the buddy allocator's list nodes own it. */
    method ForeignWrite(f: nat, h: Header)
      requires Valid() && f < FRAME_COUNT && f !in owner
      modifies this`hdr
      ensures Valid() && Regions() == old(Regions())
    {
      hide SlabInv, Backed, KmemInv, BuddyState.Inv, NoHand, OutObjects, NoIdle;
      ForeignAll(View(), pool, big, buddy.Live(), f, h);
      ghost var s := View();
      hdr := hdr[f := h];
      assert View() == s.(hdr := s.hdr[f := h]);
    }

    lemma {:induction false} OwnOk(t: Slabs, r: nat, b: nat, n: nat)
      requires Valid() && r in Regions() && r <= b && b + n <= r + Regions()[r] && StoredAt(View(), t, b, n)
      ensures KmemInv(t, pool, big, buddy.Live()) && OutObjects(t) == Out() && NoIdle(t, {})
    {
      hide SlabInv, Backed, KmemInv, NoIdle, OutObjects, StoredAt;
      OwnAll(View(), pool, big, buddy.blocks, t, r, b, n);
    }

    /** A caller may store `n` bytes anywhere in a region it holds. Whatever they do to the words and to the headers
        they overlap, the allocators still work. */
    method OwnWrite(r: nat, b: nat, n: nat, h: seq<Header>, nx: seq<int>, pv: seq<int>, l: map<nat, nat>)
      requires Valid() && r in Regions() && r <= b && b + n <= r + Regions()[r]
      requires StoredAt(View(), View().(hdr := h, next := nx, prev := pv, link := l), b, n)
      modifies this`hdr, this`next, this`prev, this`link
      ensures Valid() && hdr == h && next == nx && prev == pv && link == l && Regions() == old(Regions())
    {
      hide SlabInv, Backed, KmemInv, BuddyState.Inv, NoHand, OutObjects, NoIdle, StoredAt;
      ghost var t := View().(hdr := h, next := nx, prev := pv, link := l);
      OwnOk(t, r, b, n);
      hdr, next, prev, link := h, nx, pv, l;
      assert View() == t;
    }

    /** Any two live regions are disjoint. */
    lemma RegionsDisjoint(a: nat, b: nat)
      requires Valid() && a in Regions() && b in Regions() && a != b
      ensures Apart(a, Regions()[a], b, Regions()[b])
    {
      LiveDisjoint(View(), pool, big, buddy.blocks, a, b);
    }
  }
}
