/** The upper allocation layers' invariant on values, and what each composite step does
    to it and to the objects callers hold. */
module KmemState {
  import opened Sequences
  import opened Arithmetic
  import opened Frames
  import opened Tiling
  import opened FreeLists
  import opened SlabState
  import opened SlabSteps
  import opened Buddy

  const PCPU_PAGE_POOL: nat := 32
  const PCPU_OBJ_REFILL: nat := 8

  /** Every page the upper layers hold is an allocation of the buddy layer, and each
      is held for one purpose: a slab, a pooled page, or a caller's block. */
  ghost predicate Backed(owner: map<nat, nat>, pool: seq<nat>, big: map<nat, nat>, al: map<nat, Allocation>) {
    && (forall p :: p in owner ==> p in al && al[p] == Allocation(0, false))
    && (forall x :: x in pool ==> IsAllocation(al, x, 0) && FrameOf(x) !in owner && x !in big)
    && Distinct(pool)
    && (forall x :: x in big ==> IsAllocation(al, x, big[x]) && FrameOf(x) !in owner)
  }

  ghost predicate KmemInv(s: Slabs, pool: seq<nat>, big: map<nat, nat>, al: map<nat, Allocation>) {
    && SlabInv(s) && Backed(s.owner, pool, big, al)
    && |pool| <= PCPU_PAGE_POOL
    && forall id :: 0 <= id < CACHE_COUNT ==> |s.cached[id]| <= PCPU_OBJ_CACHE
  }

  /** Outside `idle`, every slab has an object out or cached. */
  ghost predicate NoIdle(s: Slabs, idle: set<nat>) {
    |s.hdr| == FRAME_COUNT && forall p :: p in s.owner && p !in idle && p < FRAME_COUNT ==> s.hdr[p].inUse > 0
  }

  lemma ExemptOne(s: Slabs, p: nat)
    requires NoIdle(s, {})
    ensures NoIdle(s, {p})
  {
  }

  lemma ExemptNone(s: Slabs, p: nat)
    requires NoIdle(s, {p}) && p < |s.hdr| && s.hdr[p].inUse > 0
    ensures NoIdle(s, {})
  {
  }

  ghost function OutObjects(s: Slabs): map<nat, nat> {
    map a | a in s.place && s.place[a] == Out && PageOf(a) in s.owner :: ObjSize(s.owner[PageOf(a)])
  }

  function BlockBytes(o: nat): nat { Pow2(o) * FRAME_SIZE }

  ghost function Blocks4K(big: map<nat, nat>): map<nat, nat> {
    map x | x in big :: BlockBytes(big[x])
  }

  /** A kernel page that no upper layer holds yet. */
  ghost predicate Unheld(s: Slabs, pool: seq<nat>, big: map<nat, nat>, al: map<nat, Allocation>, p: nat) {
    && p in al && al[p] == Allocation(0, false) && p !in s.owner
    && PageAddr(p) !in pool && PageAddr(p) !in big
  }

  // ---- walking a cache's slabs ------------------------------------------------------

  lemma ChainStart(s: Slabs, id: nat)
    requires SlabInv(s) && id < CACHE_COUNT
    ensures s.heads[id] == (if s.chain[id] == [] then NIL else s.chain[id][0])
    ensures NIL <= s.heads[id] < FRAME_COUNT
  {
    assert Linked(s.heads[id], s.next, s.prev, s.chain[id]);
    assert s.chain[id] != [] ==> s.chain[id][0] in s.chain[id];
  }

  lemma ChainNode(s: Slabs, id: nat, k: nat)
    requires SlabInv(s) && id < CACHE_COUNT && k < |s.chain[id]|
    ensures var p := s.chain[id][k];
            && p in s.owner && s.owner[p] == id
            && s.next[p] == if k + 1 < |s.chain[id]| then s.chain[id][k + 1] else NIL
  {
    assert Linked(s.heads[id], s.next, s.prev, s.chain[id]);
    assert Node(s.next, s.prev, s.chain[id], k);
    assert s.chain[id][k] in s.chain[id];
  }

  // ---- the threading loop's arithmetic ---------------------------------------------

  lemma CountStep(p: nat, id: nat, count: nat, data: nat)
    requires id < CACHE_COUNT && count > 0 && data == ObjAt(p, id, count - 1) + ObjSize(id)
    requires data <= PageAddr(p) + FRAME_SIZE
    ensures data == ObjAt(p, id, count) && count <= PerSlab(id)
  {
    var n := ObjSize(id);
    assert count * n == (count - 1) * n + n;
    assert count * n <= FRAME_SIZE - SLAB_HEADER;
    DivBound(count, n, FRAME_SIZE - SLAB_HEADER);
  }

  lemma DivBound(k: nat, n: nat, m: nat)
    requires n > 0 && k * n <= m
    ensures k <= m / n
  {
    if k > m / n { MulLe(m / n + 1, k, n); }
  }

  lemma CountDone(p: nat, id: nat, count: nat)
    requires id < CACHE_COUNT && count <= PerSlab(id)
    requires ObjAt(p, id, count) + ObjSize(id) > PageAddr(p) + FRAME_SIZE
    ensures count == PerSlab(id)
  {
    if count < PerSlab(id) { ObjFits(p, id, count); }
  }

  // ---- composite steps ---------------------------------------------------------------

  /** What walking a cache's slabs needs of the whole. */
  lemma {:induction false} SlabsOnly(s: Slabs, pool: seq<nat>, big: map<nat, nat>, al: map<nat, Allocation>, id: nat)
    requires KmemInv(s, pool, big, al) && id < CACHE_COUNT
    ensures SlabInv(s) && |s.heads| == |s.chain| == CACHE_COUNT && |s.hdr| == |s.next| == FRAME_COUNT
    ensures s.free.Keys == s.owner.Keys
    ensures forall p :: p in s.owner ==> p < FRAME_COUNT && (s.owner[p] == id ==> p in s.chain[id])
  {
    hide Backed;
  }

  lemma {:induction false} OpenedOwner(s: Slabs, p: nat, id: nat)
    requires Sized(s) && p < FRAME_COUNT && id < CACHE_COUNT
    ensures Opened(s, p, id).owner == s.owner[p := id] && p in Opened(s, p, id).free && Opened(s, p, id).free[p] != []
  {
    hide AddPrev, Thread;
  }

  lemma InvSized(s: Slabs)
    requires SlabInv(s)
    ensures Sized(s)
  {
  }

  lemma SlabHeader(s: Slabs, p: nat)
    requires SlabInv(s) && p in s.owner
    ensures Sized(s) && s.hdr[p].magic == SLAB_MAGIC && s.hdr[p].cache == s.owner[p]
  {
    assert HeaderOk(s, p);
  }

  lemma PageHeader(s: Slabs, pool: seq<nat>, big: map<nat, nat>, al: map<nat, Allocation>, p: nat)
    requires KmemInv(s, pool, big, al) && p in s.owner
    ensures Sized(s) && p in s.free && s.hdr[p].cache == s.owner[p] && s.hdr[p].magic == SLAB_MAGIC
    ensures s.hdr[p].freelist == 0 <==> s.free[p] == []
  {
    SlabHeader(s, p);
    PopReady(s, p);
  }

  lemma ObjectHeader(s: Slabs, pool: seq<nat>, big: map<nat, nat>, al: map<nat, Allocation>, a: nat)
    requires KmemInv(s, pool, big, al) && a in s.place
    ensures Sized(s) && PageOf(a) in s.owner
    ensures s.hdr[PageOf(a)].cache == s.owner[PageOf(a)] < CACHE_COUNT && s.hdr[PageOf(a)].magic == SLAB_MAGIC
    ensures HEAP_PHYS <= a < HEAP_PHYS + HEAP_SIZE
  {
    hide SlabInv, Backed;
    PlaceOwned(s, a);
    SlabHeader(s, PageOf(a));
  }

  lemma CachesSized(s: Slabs, pool: seq<nat>, big: map<nat, nat>, al: map<nat, Allocation>)
    requires KmemInv(s, pool, big, al)
    ensures |s.cached| == CACHE_COUNT && |s.hdr| == FRAME_COUNT
  {
  }

  lemma OutPlaces(s: Slabs, pool: seq<nat>, big: map<nat, nat>, al: map<nat, Allocation>, a: nat)
    requires KmemInv(s, pool, big, al) && a in s.place && s.place[a] == Out
    ensures a in OutObjects(s)
  {
    PlaceOwned(s, a);
  }

  lemma PlaceOwned(s: Slabs, a: nat)
    requires SlabInv(s) && a in s.place
    ensures Sized(s) && PageOf(a) in s.owner && IsObj(a, PageOf(a), s.owner[PageOf(a)])
  {
  }

  lemma {:induction false} PopAll(s: Slabs, pool: seq<nat>, big: map<nat, nat>, al: map<nat, Allocation>, p: nat)
    requires KmemInv(s, pool, big, al) && p in s.owner && s.free[p] != []
    ensures Sized(s) && s.free[p][0] in s.link && s.hdr[p].freelist == s.free[p][0] && OnFree(s, s.free[p][0], p)
    ensures KmemInv(Popped(s, p), pool, big, al) && s.free[p][0] != 0
    ensures OutObjects(Popped(s, p)) == OutObjects(s)[s.free[p][0] := ObjSize(s.owner[p])]
    ensures s.free[p][0] !in OutObjects(s)
    ensures NoIdle(s, {p}) ==> NoIdle(Popped(s, p), {})
  {
    hide SlabInv, Backed, OutObjects, NoIdle, OnFree;
    InvSized(s);
    PopHead(s, p);
    PopStep(s, p);
    PopOut(s, p);
    FreeCount(s, p);
    PopIdle(s, p);
  }

  lemma {:induction false} PopIdle(s: Slabs, p: nat)
    requires Sized(s) && p in s.owner && s.free[p] != [] && s.free[p][0] in s.link && s.hdr[p].inUse >= 0
    ensures NoIdle(s, {p}) ==> NoIdle(Popped(s, p), {})
    ensures Popped(s, p).owner == s.owner && Popped(s, p).cached == s.cached
  {
  }

  lemma {:induction false} PopHead(s: Slabs, p: nat)
    requires SlabInv(s) && p in s.owner && s.free[p] != []
    ensures s.free[p][0] in s.link && s.hdr[p].freelist == s.free[p][0] != 0 && OnFree(s, s.free[p][0], p)
  {
    PopReady(s, p);
  }

  lemma {:induction false} PopOut(s: Slabs, p: nat)
    requires Sized(s) && p in s.owner && s.free[p] != [] && s.free[p][0] in s.link && OnFree(s, s.free[p][0], p)
    ensures OutObjects(Popped(s, p)) == OutObjects(s)[s.free[p][0] := ObjSize(s.owner[p])]
    ensures s.free[p][0] !in OutObjects(s)
  {
    hide ObjSize, PageOf;
  }

  lemma {:induction false} PushAll(s: Slabs, pool: seq<nat>, big: map<nat, nat>, al: map<nat, Allocation>, a: nat)
    requires KmemInv(s, pool, big, al) && a in s.place && s.place[a] == Out
    ensures Sized(s) && PageOf(a) in s.owner && KmemInv(Pushed(s, a), pool, big, al)
    ensures OutObjects(Pushed(s, a)) == OutObjects(s) - {a}
    ensures 0 <= Pushed(s, a).hdr[PageOf(a)].inUse
    ensures NoIdle(s, {}) ==> NoIdle(Pushed(s, a), {PageOf(a)})
    ensures forall b :: b != a ==> Stays(s, Pushed(s, a), b)
  {
    hide SlabInv, Backed;
    PlaceOwned(s, a);
    PushStep(s, a);
    FreeCount(Pushed(s, a), PageOf(a));
    PushOut(s, a);
  }

  lemma {:induction false} PushOut(s: Slabs, a: nat)
    requires Sized(s) && a in s.place && s.place[a] == Out && PageOf(a) in s.owner
    ensures OutObjects(Pushed(s, a)) == OutObjects(s) - {a}
    ensures NoIdle(s, {}) ==> NoIdle(Pushed(s, a), {PageOf(a)})
    ensures forall b :: b != a ==> Stays(s, Pushed(s, a), b)
  {
  }

  lemma {:induction false} OpenAll(s: Slabs, pool: seq<nat>, big: map<nat, nat>, al: map<nat, Allocation>, p: nat,
                                   id: nat)
    requires KmemInv(s, pool, big, al) && p < FRAME_COUNT && id < CACHE_COUNT && Unheld(s, pool, big, al, p)
    ensures Sized(s) && KmemInv(Opened(s, p, id), pool, big, al)
    ensures OutObjects(Opened(s, p, id)) == OutObjects(s)
    ensures NIL <= s.heads[id] < FRAME_COUNT
    ensures NoIdle(s, {}) ==> NoIdle(Opened(s, p, id), {p})
  {
    OpenBacked(s, pool, big, al, p, id);
    hide SlabInv, Backed;
    OpenStep(s, p, id);
    ChainStart(s, id);
    OpenFresh(s, p, id);
    OpenOut(s, p, id);
    OpenIdle(s, p, id);
  }

  lemma OpenBacked(s: Slabs, pool: seq<nat>, big: map<nat, nat>, al: map<nat, Allocation>, p: nat, id: nat)
    requires Backed(s.owner, pool, big, al) && Unheld(s, pool, big, al, p)
    ensures Backed(s.owner[p := id], pool, big, al)
  {
    forall x | x in pool ensures FrameOf(x) != p { assert IsAllocation(al, x, 0); }
    forall x | x in big ensures FrameOf(x) != p { assert IsAllocation(al, x, big[x]); }
  }

  lemma {:induction false} OpenOut(s: Slabs, p: nat, id: nat)
    requires Sized(s) && p < FRAME_COUNT && id < CACHE_COUNT
    requires forall a :: a in ObjList(p, id, PerSlab(id)) ==> a !in s.place
    requires forall a :: a in s.place ==> PageOf(a) in s.owner && PageOf(a) != p
    ensures OutObjects(Opened(s, p, id)) == OutObjects(s)
  {
    hide ObjList, Thread, PerSlab, ObjSize, AddPrev;
  }

  lemma OpenIdle(s: Slabs, p: nat, id: nat)
    requires Sized(s) && p < FRAME_COUNT && id < CACHE_COUNT
    ensures NoIdle(s, {}) ==> NoIdle(Opened(s, p, id), {p})
  {
    hide ObjList, Thread, PerSlab, ObjSize, AddPrev;
  }

  lemma OpenFresh(s: Slabs, p: nat, id: nat)
    requires SlabInv(s) && p !in s.owner && p < FRAME_COUNT && id < CACHE_COUNT
    ensures forall a :: a in ObjList(p, id, PerSlab(id)) ==> a !in s.place
    ensures Sized(s) && forall a :: a in s.place ==> PageOf(a) in s.owner && PageOf(a) != p
  {
    ObjListFacts(p, id, PerSlab(id));
    forall a | a in ObjList(p, id, PerSlab(id)) ensures a !in s.place {
      var k: nat :| k < PerSlab(id) && a == ObjAt(p, id, k);
      ObjFits(p, id, k);
    }
  }

  /** A page the buddy layer has just granted is in nobody's hands. */
  lemma {:induction false} GrantAll(s: Slabs, pool: seq<nat>, big: map<nat, nat>, al: map<nat, Allocation>,
                                    al': map<nat, Allocation>, addr: nat, o: nat, user: bool)
    requires KmemInv(s, pool, big, al) && Granted(al, al', addr, o, user)
    ensures KmemInv(s, pool, big, al') && IsAllocation(al', addr, o)
    ensures FrameOf(addr) !in s.owner && addr !in pool && addr !in big && FrameOf(addr) < FRAME_COUNT
    ensures addr == PageAddr(FrameOf(addr))
    ensures o == 0 && !user ==> Unheld(s, pool, big, al', FrameOf(addr))
  {
  }

  ghost predicate Stays(s: Slabs, t: Slabs, a: nat) {
    a in s.place && s.place[a] != OnList ==> a in t.place && t.place[a] == s.place[a]
  }

  lemma {:induction false} StashAll(s: Slabs, pool: seq<nat>, big: map<nat, nat>, al: map<nat, Allocation>, id: nat,
                                    a: nat)
    requires KmemInv(s, pool, big, al) && a in s.place && s.place[a] == Out
    requires PageOf(a) in s.owner && s.owner[PageOf(a)] == id && id < CACHE_COUNT && |s.cached[id]| < PCPU_OBJ_CACHE
    ensures Sized(s) && KmemInv(Stashed(s, id, a), pool, big, al)
    ensures OutObjects(Stashed(s, id, a)) == OutObjects(s) - {a}
    ensures NoIdle(s, {}) ==> NoIdle(Stashed(s, id, a), {})
    ensures forall b :: b != a ==> Stays(s, Stashed(s, id, a), b)
  {
    hide SlabInv, Backed;
    InvSized(s);
    StashStep(s, id, a);
    StashOut(s, id, a);
  }

  lemma {:induction false} StashOut(s: Slabs, id: nat, a: nat)
    requires Sized(s) && id < CACHE_COUNT && a in s.place && s.place[a] == Out
    ensures OutObjects(Stashed(s, id, a)) == OutObjects(s) - {a}
    ensures NoIdle(s, {}) ==> NoIdle(Stashed(s, id, a), {})
    ensures forall i :: 0 <= i < CACHE_COUNT && i != id ==> Stashed(s, id, a).cached[i] == s.cached[i]
  {
  }

  lemma {:induction false} UnstashAll(s: Slabs, pool: seq<nat>, big: map<nat, nat>, al: map<nat, Allocation>, id: nat)
    requires KmemInv(s, pool, big, al) && id < CACHE_COUNT && s.cached[id] != []
    ensures Sized(s) && KmemInv(Unstashed(s, id), pool, big, al)
    ensures var a := s.cached[id][|s.cached[id]| - 1];
            && InCache(s, a, id) && a != 0 && a !in OutObjects(s)
            && OutObjects(Unstashed(s, id)) == OutObjects(s)[a := ObjSize(id)]
            && forall b :: b != a ==> Stays(s, Unstashed(s, id), b)
    ensures NoIdle(s, {}) ==> NoIdle(Unstashed(s, id), {})
  {
    hide SlabInv, Backed;
    InvSized(s);
    UnstashStep(s, id);
    UnstashOut(s, id);
  }

  lemma UnstashOut(s: Slabs, id: nat)
    requires Sized(s) && id < CACHE_COUNT && s.cached[id] != []
    requires InCache(s, s.cached[id][|s.cached[id]| - 1], id)
    ensures var a := s.cached[id][|s.cached[id]| - 1];
            a != 0 && OutObjects(Unstashed(s, id)) == OutObjects(s)[a := ObjSize(id)]
    ensures NoIdle(s, {}) ==> NoIdle(Unstashed(s, id), {})
    ensures forall i :: 0 <= i < CACHE_COUNT && i != id ==> Unstashed(s, id).cached[i] == s.cached[i]
  {
  }

  lemma {:induction false} CloseAll(s: Slabs, pool: seq<nat>, big: map<nat, nat>, al: map<nat, Allocation>,
                                    p: nat) returns (k: nat)
    requires KmemInv(s, pool, big, al) && p in s.owner && s.hdr[p].inUse == 0
    ensures Sized(s) && k < |s.chain[s.owner[p]]| && s.hdr[p].cache == s.owner[p]
    ensures NIL <= s.next[p] < FRAME_COUNT && NIL <= s.prev[p] < FRAME_COUNT && s.next[p] != p && s.prev[p] != p
    ensures KmemInv(Closed(s, p, k), pool, big, al - {p})
    ensures IsAllocation(al, PageAddr(p), 0) && FrameOf(PageAddr(p)) == p
    ensures OutObjects(Closed(s, p, k)) == OutObjects(s)
    ensures NoIdle(s, {p}) ==> NoIdle(Closed(s, p, k), {})
    ensures forall a :: Stays(s, Closed(s, p, k), a)
  {
    hide SlabInv;
    InvSized(s);
    CloseBacked(s, pool, big, al, p);
    hide Backed;
    k := CloseReady(s, p);
    CloseStep(s, p, k);
    CloseOut(s, p, k);
    SlabHeader(s, p);
  }

  lemma {:induction false} CloseOut(s: Slabs, p: nat, k: nat)
    requires Sized(s) && p in s.owner && k < |s.chain[s.owner[p]]|
    requires forall a :: a in s.place && PageOf(a) == p ==> s.place[a] == OnList
    ensures OutObjects(Closed(s, p, k)) == OutObjects(s)
    ensures NoIdle(s, {p}) ==> NoIdle(Closed(s, p, k), {})
    ensures forall a :: Stays(s, Closed(s, p, k), a)
  {
  }

  lemma CloseBacked(s: Slabs, pool: seq<nat>, big: map<nat, nat>, al: map<nat, Allocation>, p: nat)
    requires Backed(s.owner, pool, big, al) && p in s.owner && p < FRAME_COUNT
    ensures Backed(s.owner - {p}, pool, big, al - {p})
    ensures IsAllocation(al, PageAddr(p), 0) && FrameOf(PageAddr(p)) == p
  {
    forall x | x in pool ensures FrameOf(x) != p { assert IsAllocation(al, x, 0); }
    forall x | x in big ensures FrameOf(x) != p { assert IsAllocation(al, x, big[x]); }
  }

  // ---- pages and larger blocks ------------------------------------------------------------

  lemma BigGrant(s: Slabs, pool: seq<nat>, big: map<nat, nat>, al: map<nat, Allocation>, al': map<nat, Allocation>,
                 x: nat, o: nat, user: bool)
    requires KmemInv(s, pool, big, al) && Granted(al, al', x, o, user)
    ensures KmemInv(s, pool, big[x := o], al') && x !in big
    ensures x !in OutObjects(s)
  {
    hide SlabInv;
    GrantAll(s, pool, big, al, al', x, o, user);
    OutNotPage(s, x);
  }

  /** Slab objects never start at a page that holds no slab. */
  lemma OutNotPage(s: Slabs, x: nat)
    requires HeapPage(x) && FrameOf(x) !in s.owner
    ensures x !in OutObjects(s)
  {
  }

  lemma {:induction false} PoolTake(s: Slabs, pool: seq<nat>, big: map<nat, nat>, al: map<nat, Allocation>)
    requires KmemInv(s, pool, big, al) && pool != []
    ensures var x := pool[|pool| - 1];
            && x !in big && x !in OutObjects(s) && x != 0
            && KmemInv(s, pool[..|pool| - 1], big[x := 0], al)
  {
    hide SlabInv;
    var x := pool[|pool| - 1];
    TakeBacked(s.owner, pool, big, al);
    hide Backed;
    OutNotPage(s, x);
  }

  lemma {:induction false} TakeBacked(owner: map<nat, nat>, pool: seq<nat>, big: map<nat, nat>, al: map<nat,
                                      Allocation>)
    requires Backed(owner, pool, big, al) && pool != []
    ensures var x := pool[|pool| - 1];
            && x !in big && x != 0 && HeapPage(x) && FrameOf(x) !in owner
            && Backed(owner, pool[..|pool| - 1], big[x := 0], al)
  {
    var n := |pool| - 1;
    var x, rest, big' := pool[n], pool[..n], big[pool[n] := 0];
    assert x in pool && IsAllocation(al, x, 0);
    assert forall i :: 0 <= i < n ==> rest[i] == pool[i] && rest[i] in pool;
    hide IsAllocation;
    forall y | y in rest ensures IsAllocation(al, y, 0) && FrameOf(y) !in owner && y !in big' {
      var i :| 0 <= i < n && rest[i] == y;
      assert pool[i] != pool[n];
    }
  }

  lemma PoolGive(s: Slabs, pool: seq<nat>, big: map<nat, nat>, al: map<nat, Allocation>, x: nat)
    requires KmemInv(s, pool, big, al) && x in big && big[x] == 0 && |pool| < PCPU_PAGE_POOL
    ensures KmemInv(s, pool + [x], big - {x}, al)
  {
    hide SlabInv;
    assert x !in pool;
    DistinctSnoc(pool, x);
  }

  lemma {:induction false} BigReturn(s: Slabs, pool: seq<nat>, big: map<nat, nat>, al: map<nat, Allocation>, x: nat)
    requires KmemInv(s, pool, big, al) && x in big
    ensures IsAllocation(al, x, big[x])
    ensures KmemInv(s, pool, big - {x}, al - {FrameOf(x)})
  {
    hide SlabInv;
    assert IsAllocation(al, x, big[x]);
    forall y | y in pool ensures FrameOf(y) != FrameOf(x) { assert IsAllocation(al, y, 0); }
    forall y | y in big && y != x ensures FrameOf(y) != FrameOf(x) { assert IsAllocation(al, y, big[y]); }
  }

  // ---- nothing leaks ------------------------------------------------------------------------

  /** Blocks of the buddy layer that none of the upper layers holds. */
  ghost function Loose(owner: map<nat, nat>, pool: seq<nat>, big: map<nat, nat>, al: map<nat, Allocation>): set<nat> {
    set f | f in al && f !in owner && PageAddr(f) !in pool && PageAddr(f) !in big
  }

  lemma {:induction false} LooseOpened(owner: map<nat, nat>, pool: seq<nat>, big: map<nat, nat>,
                                       al: map<nat, Allocation>, al': map<nat, Allocation>, p: nat, id: nat)
    requires p !in al && al'.Keys == al.Keys + {p}
    ensures Loose(owner[p := id], pool, big, al') == Loose(owner, pool, big, al)
  {
    hide PageAddr;
    assert forall f :: f in al' <==> f in al || f == p;
  }

  lemma {:induction false} LooseClosed(owner: map<nat, nat>, pool: seq<nat>, big: map<nat, nat>,
                                       al: map<nat, Allocation>, p: nat)
    requires p in owner
    ensures Loose(owner - {p}, pool, big, al - {p}) == Loose(owner, pool, big, al)
  {
    hide PageAddr;
  }

  lemma {:induction false} LooseGiven(owner: map<nat, nat>, pool: seq<nat>, big: map<nat, nat>,
                                      al: map<nat, Allocation>, al': map<nat, Allocation>, x: nat, o: nat)
    requires HeapPage(x) && FrameOf(x) !in al && al'.Keys == al.Keys + {FrameOf(x)}
    ensures Loose(owner, pool, big[x := o], al') == Loose(owner, pool, big, al)
  {
    assert x == PageAddr(FrameOf(x));
    assert forall f :: f in al' <==> f in al || f == FrameOf(x);
  }

  lemma {:induction false} LooseReturned(owner: map<nat, nat>, pool: seq<nat>, big: map<nat, nat>,
                                         al: map<nat, Allocation>, x: nat)
    requires HeapPage(x) && x in big
    ensures Loose(owner, pool, big - {x}, al - {FrameOf(x)}) == Loose(owner, pool, big, al)
  {
    assert x == PageAddr(FrameOf(x));
  }

  lemma {:induction false} LoosePool(owner: map<nat, nat>, pool: seq<nat>, big: map<nat, nat>, al: map<nat, Allocation>,
                                     x: nat)
    ensures Loose(owner, pool + [x], big, al) == Loose(owner, pool, big[x := 0], al)
    ensures x in big ==> Loose(owner, pool + [x], big - {x}, al) == Loose(owner, pool, big, al)
  {
    hide PageAddr;
  }

  // ---- when there is nothing to give ---------------------------------------------------------

  /** Neither the per-CPU cache nor any slab has an object of that size. */
  ghost predicate NoObject(s: Slabs, id: nat) {
    id < |s.cached| && s.cached[id] == [] && NoSlabObject(s, id)
  }

  ghost predicate NoSlabObject(s: Slabs, id: nat) {
    forall q :: q in s.owner && s.owner[q] == id ==> q in s.free && s.free[q] == []
  }

  /** The object cache for a request: the first whose objects are large enough. */
  ghost predicate CacheFor(id: nat, n: nat) {
    id < CACHE_COUNT && n <= ObjSize(id) && forall j: nat :: j < id ==> ObjSize(j) < n
  }

  /** `n` is the least size given out that holds `size` bytes: one of the object sizes below 2048, or pages. */
  ghost predicate LeastSize(n: nat, size: nat) {
    && size <= n
    && (if size < 2048 then (exists id: nat :: id < CACHE_COUNT && n == ObjSize(id))
        else exists o: nat :: n == BlockBytes(o))
    && (size < 2048 ==> forall id: nat :: id < CACHE_COUNT && size <= ObjSize(id) ==> n <= ObjSize(id))
    && (size >= 2048 ==> forall o: nat :: size <= BlockBytes(o) ==> n <= BlockBytes(o))
  }

  lemma {:induction false} OneCache(i: nat, j: nat, n: nat)
    requires CacheFor(i, n) && CacheFor(j, n)
    ensures i == j
  {
  }

  lemma {:induction false} LeastObject(id: nat, size: nat, n: nat)
    requires CacheFor(id, n) && n == (if size < 16 then 16 else size) && n < 2048
    ensures LeastSize(ObjSize(id), size)
  {
    forall j: nat | j < CACHE_COUNT && size <= ObjSize(j) ensures ObjSize(id) <= ObjSize(j) {
      if id <= j { SizesGrow(id, j); }
    }
  }

  lemma {:induction false} SizesGrow(i: nat, j: nat)
    requires i <= j < CACHE_COUNT
    ensures ObjSize(i) <= ObjSize(j)
  {
  }

  lemma {:induction false} LeastPages(size: nat)
    requires size >= 2048
    ensures LeastSize(BlockBytes(NeededOrder(size)), size)
  {
    var k := NeededOrder(size);
    forall o: nat | size <= BlockBytes(o) ensures BlockBytes(k) <= BlockBytes(o) {
      OrderLeast(size, o);
      Pow2Mono(k, o);
      MulLe(Pow2(k), Pow2(o), FRAME_SIZE);
    }
  }

  lemma {:induction false} OrderLeast(size: nat, o: nat)
    requires size >= 2048 && size <= BlockBytes(o)
    ensures NeededOrder(size) <= o
  {
    var k := OrderFor(size);
    if o < k {
      var m: nat := k - 1;
      Pow2Mono(o, m);
      MulLe(Pow2(o), Pow2(m), FRAME_SIZE);
    }
  }

  lemma {:induction false} CacheOf(n: nat) returns (id: nat)
    requires n <= 2048
    ensures CacheFor(id, n)
  {
    id := 0;
    while ObjSize(id) < n
      invariant id < CACHE_COUNT && forall j: nat :: j < id ==> ObjSize(j) < n
      decreases CACHE_COUNT - id
    {
      id := id + 1;
    }
  }

  // ---- live regions are disjoint -----------------------------------------------------------

  ghost predicate Apart(a: nat, n: nat, b: nat, m: nat) { a + n <= b || b + m <= a }

  /** The bytes of an out object lie in its slab's page. */
  lemma {:induction false} OutInPage(s: Slabs, a: nat)
    requires SlabInv(s) && a in OutObjects(s)
    ensures PageOf(a) in s.owner && PageAddr(PageOf(a)) + SLAB_HEADER <= a
    ensures a + OutObjects(s)[a] <= PageAddr(PageOf(a)) + FRAME_SIZE
  {
    hide SlabInv, ObjSize;
    ObjectInPage(s, a);
  }

  /** Two objects of slabs occupy different bytes. */
  lemma {:induction false} ObjectsApart(s: Slabs, a: nat, b: nat)
    requires SlabInv(s) && a in s.place && b in s.place && a != b
    ensures PageOf(a) in s.owner && PageOf(b) in s.owner
    ensures Apart(a, ObjSize(s.owner[PageOf(a)]), b, ObjSize(s.owner[PageOf(b)]))
  {
    ObjectInPage(s, a);
    ObjectInPage(s, b);
    var p, q := PageOf(a), PageOf(b);
    if p == q {
      SamePageApart(p, s.owner[p], a, b);
    } else {
      hide SlabInv, ObjSize;
      if p < q { PagesApart(p, q); } else { PagesApart(q, p); }
    }
  }

  lemma {:induction false} SamePageApart(p: nat, id: nat, a: nat, b: nat)
    requires id < CACHE_COUNT && IsObj(a, p, id) && IsObj(b, p, id) && a != b
    ensures Apart(a, ObjSize(id), b, ObjSize(id))
  {
    var j: nat :| j < PerSlab(id) && a == ObjAt(p, id, j);
    var k: nat :| k < PerSlab(id) && b == ObjAt(p, id, k);
    if j < k { ObjApart(p, id, j, k); }
    if k < j { ObjApart(p, id, k, j); }
  }

  /** The bytes of an object lie in its slab's page. */
  lemma {:induction false} ObjectInPage(s: Slabs, a: nat)
    requires SlabInv(s) && a in s.place
    ensures PageOf(a) in s.owner && s.owner[PageOf(a)] < CACHE_COUNT && IsObj(a, PageOf(a), s.owner[PageOf(a)])
    ensures PageAddr(PageOf(a)) + SLAB_HEADER <= a
    ensures a + ObjSize(s.owner[PageOf(a)]) <= PageAddr(PageOf(a)) + FRAME_SIZE
  {
    var p := PageOf(a);
    var k: nat :| k < PerSlab(s.owner[p]) && a == ObjAt(p, s.owner[p], k);
    ObjFits(p, s.owner[p], k);
  }

  lemma {:induction false} OutApart(s: Slabs, a: nat, b: nat)
    requires SlabInv(s) && a in OutObjects(s) && b in OutObjects(s) && a != b
    ensures Apart(a, OutObjects(s)[a], b, OutObjects(s)[b])
  {
    hide SlabInv, ObjSize;
    ObjectsApart(s, a, b);
  }

  lemma PagesApart(p: nat, q: nat)
    requires p < q
    ensures PageAddr(p) + FRAME_SIZE <= PageAddr(q)
  {
  }

  /** Two different blocks of the buddy layer occupy different bytes. */
  lemma BlocksApart(bs: Blocks, g: nat, h: nat)
    requires Tiles(bs) && g in bs && h in bs && g != h
    ensures Apart(PageAddr(g), BlockBytes(bs[g].order), PageAddr(h), BlockBytes(bs[h].order))
  {
    RunIsInterval(h, g, bs[g].order);
    RunIsInterval(g, h, bs[h].order);
    assert Owns(bs, g, g) && Owns(bs, h, h);
    assert !Owns(bs, g, h) && !Owns(bs, h, g);
  }

  lemma {:induction false} BigIsBlock(s: Slabs, pool: seq<nat>, big: map<nat, nat>, bs: Blocks, x: nat)
    requires KmemInv(s, pool, big, Allocated(bs)) && x in big
    ensures HeapPage(x) && x == PageAddr(FrameOf(x)) && FrameOf(x) in bs && bs[FrameOf(x)].order == big[x]
    ensures FrameOf(x) !in s.owner
  {
    assert IsAllocation(Allocated(bs), x, big[x]);
  }

  lemma SlabIsBlock(s: Slabs, pool: seq<nat>, big: map<nat, nat>, bs: Blocks, p: nat)
    requires KmemInv(s, pool, big, Allocated(bs)) && p in s.owner
    ensures p in bs && bs[p].order == 0
  {
    assert p in Allocated(bs);
  }

  /** Any two regions callers hold are disjoint. */
  lemma {:induction false} LiveDisjoint(s: Slabs, pool: seq<nat>, big: map<nat, nat>, bs: Blocks, a: nat, b: nat)
    requires KmemInv(s, pool, big, Allocated(bs)) && Tiles(bs) && a != b
    requires a in OutObjects(s) + Blocks4K(big) && b in OutObjects(s) + Blocks4K(big)
    ensures var live := OutObjects(s) + Blocks4K(big); Apart(a, live[a], b, live[b])
  {
    hide SlabInv, Backed, Tiles, ObjSize;
    if a in big && b in big {
      BigIsBlock(s, pool, big, bs, a);
      BigIsBlock(s, pool, big, bs, b);
      BlocksApart(bs, FrameOf(a), FrameOf(b));
    } else if a in big {
      MixedApart(s, pool, big, bs, b, a);
    } else if b in big {
      MixedApart(s, pool, big, bs, a, b);
    } else {
      OutApart(s, a, b);
    }
  }

  lemma {:induction false} MixedApart(s: Slabs, pool: seq<nat>, big: map<nat, nat>, bs: Blocks, a: nat, x: nat)
    requires KmemInv(s, pool, big, Allocated(bs)) && Tiles(bs) && a in OutObjects(s) && x in big
    ensures Apart(a, OutObjects(s)[a], x, BlockBytes(big[x]))
  {
    OutInPage(s, a);
    SlabIsBlock(s, pool, big, bs, PageOf(a));
    BigIsBlock(s, pool, big, bs, x);
    BlocksApart(bs, PageOf(a), FrameOf(x));
  }

  // ---- which path a pointer takes -----------------------------------------------------------

  /** The order of the buddy block that satisfies a request of `size` bytes. */
  function NeededOrder(size: nat): nat { if size < 2048 then 0 else OrderFor(size) }

  lemma SmallNotBig(s: Slabs, pool: seq<nat>, big: map<nat, nat>, al: map<nat, Allocation>)
    requires KmemInv(s, pool, big, al)
    ensures OutObjects(s).Keys !! Blocks4K(big).Keys
    ensures forall a :: a in OutObjects(s) ==> a !in big
  {
    forall x | x in big ensures x !in OutObjects(s) {
      assert IsAllocation(al, x, big[x]);
      OutNotPage(s, x);
    }
  }

  lemma AddBlock(out: map<nat, nat>, big: map<nat, nat>, x: nat, o: nat)
    requires x !in big && x !in out
    ensures x !in out + Blocks4K(big)
    ensures out + Blocks4K(big[x := o]) == (out + Blocks4K(big))[x := BlockBytes(o)]
  {
    hide BlockBytes;
    assert Blocks4K(big[x := o]) == Blocks4K(big)[x := BlockBytes(o)];
  }

  lemma AddObject(out: map<nat, nat>, big: map<nat, nat>, a: nat, n: nat)
    requires a !in big && a !in out
    ensures a !in out + Blocks4K(big)
    ensures out[a := n] + Blocks4K(big) == (out + Blocks4K(big))[a := n]
  {
  }

  lemma DropRegion(out: map<nat, nat>, big: map<nat, nat>, x: nat)
    requires x in out <==> x !in big
    ensures x in out ==> (out - {x}) + Blocks4K(big) == (out + Blocks4K(big)) - {x}
    ensures x in big ==> out + Blocks4K(big - {x}) == (out + Blocks4K(big)) - {x}
  {
    hide BlockBytes;
    assert Blocks4K(big - {x}) == Blocks4K(big) - {x};
  }

  /** What a pointer to a live region points at. */
  lemma {:induction false} PointerKind(s: Slabs, pool: seq<nat>, big: map<nat, nat>, al: map<nat, Allocation>, a: nat)
    requires KmemInv(s, pool, big, al)
    ensures |s.hdr| == FRAME_COUNT
    ensures a in OutObjects(s) ==> a !in big && HEAP_PHYS <= a < HEAP_PHYS + HEAP_SIZE
    ensures a in OutObjects(s) ==> a in s.place && s.place[a] == Out
    ensures a in OutObjects(s) ==> s.hdr[PageOf(a)].magic == SLAB_MAGIC
    ensures a in big ==> a !in OutObjects(s) && HeapPage(a)
    ensures HEAP_PHYS <= a < HEAP_PHYS + HEAP_SIZE ==> PageOf(a) < FRAME_COUNT
  {
    CachesSized(s, pool, big, al);
    SmallNotBig(s, pool, big, al);
    SlabMagic(s, pool, big, al, a);
    hide SlabInv, Backed;
    if a in OutObjects(s) { ObjectHeader(s, pool, big, al, a); }
    assert a in OutObjects(s) ==> a in OutObjects(s).Keys;
    assert a in big ==> a in Blocks4K(big).Keys;
  }

  lemma SlabMagic(s: Slabs, pool: seq<nat>, big: map<nat, nat>, al: map<nat, Allocation>, a: nat)
    requires KmemInv(s, pool, big, al)
    ensures a in OutObjects(s) ==> PageOf(a) < |s.hdr| && s.hdr[PageOf(a)].magic == SLAB_MAGIC
    ensures a in big ==> IsAllocation(al, a, big[a])
  {
    hide SlabInv;
    if a in OutObjects(s) { ObjectHeader(s, pool, big, al, a); }
  }

  lemma {:induction false} ForeignStep(s: Slabs, f: nat, h: Header)
    requires SlabInv(s) && f < FRAME_COUNT && f !in s.owner
    ensures SlabInv(s.(hdr := s.hdr[f := h]))
  {
    var t := s.(hdr := s.hdr[f := h]);
    forall q | q in t.owner ensures HeaderOk(t, q) { assert HeaderOk(s, q); }
    ForeignPlaced(s, t);
    ChainsKept(s, t);
  }

  lemma {:induction false} ForeignPlaced(s: Slabs, t: Slabs)
    requires Sized(s) && Placed(s) && t == s.(hdr := t.hdr) && |t.hdr| == FRAME_COUNT
    ensures Sized(t) && Placed(t)
  {
    forall q: nat, b: nat | q in t.owner ensures b in t.free[q] <==> OnFree(t, b, q) {
      assert b in s.free[q] <==> OnFree(s, b, q);
    }
    forall i: nat, b: nat | i < CACHE_COUNT ensures b in t.cached[i] <==> InCache(t, b, i) {
      assert b in s.cached[i] <==> InCache(s, b, i);
    }
  }

  /** A free object's link lies outside an out object. */
  lemma {:induction false} OutOffLink(s: Slabs, a: nat, f: nat)
    requires SlabInv(s) && a in OutObjects(s) && f in s.place && s.place[f] == OnList
    ensures Apart(f, 8, a, OutObjects(s)[a])
  {
    ObjectInPage(s, f);
    hide SlabInv;
    ObjectsApart(s, a, f);
  }

  /** A slab's header lies outside an out object. */
  lemma {:induction false} OutOffHeader(s: Slabs, a: nat, p: nat)
    requires SlabInv(s) && a in OutObjects(s) && p in s.owner
    ensures Apart(PageAddr(p), SLAB_HEADER, a, OutObjects(s)[a])
  {
    hide SlabInv, ObjSize, PageOf;
    OutInPage(s, a);
    var q := PageOf(a);
    if p < q { PagesApart(p, q); }
    if q < p { PagesApart(q, p); }
  }

  /** A slab's page lies outside a block. */
  lemma {:induction false} BigOffPage(s: Slabs, pool: seq<nat>, big: map<nat, nat>, bs: Blocks, a: nat, p: nat)
    requires KmemInv(s, pool, big, Allocated(bs)) && Tiles(bs) && a in big && p in s.owner
    ensures Apart(PageAddr(p), FRAME_SIZE, a, BlockBytes(big[a]))
  {
    SlabIsBlock(s, pool, big, bs, p);
    BigIsBlock(s, pool, big, bs, a);
    hide SlabInv, Backed, Tiles;
    BlocksApart(bs, p, FrameOf(a));
    assert BlockBytes(0) == FRAME_SIZE;
  }

  /** No byte of a region a caller holds belongs to a free object's link or to a slab's header. */
  lemma {:induction false} RegionOff(s: Slabs, pool: seq<nat>, big: map<nat, nat>, bs: Blocks, a: nat)
    requires KmemInv(s, pool, big, Allocated(bs)) && Tiles(bs) && a in OutObjects(s) + Blocks4K(big)
    ensures var n := (OutObjects(s) + Blocks4K(big))[a];
            && (forall f :: f in s.place && s.place[f] == OnList ==> Apart(f, 8, a, n))
            && forall p :: p in s.owner ==> Apart(PageAddr(p), SLAB_HEADER, a, n)
  {
    hide SlabInv, Backed, Tiles, ObjSize, PageOf, OutObjects, PageAddr, BlockBytes;
    var n := (OutObjects(s) + Blocks4K(big))[a];
    forall p | p in s.owner ensures Apart(PageAddr(p), SLAB_HEADER, a, n) {
      if a in big { BigOffPage(s, pool, big, bs, a, p); } else { OutOffHeader(s, a, p); }
    }
    forall f | f in s.place && s.place[f] == OnList ensures Apart(f, 8, a, n) {
      if a in big {
        ObjectInPage(s, f);
        BigOffPage(s, pool, big, bs, a, PageOf(f));
      } else {
        OutOffLink(s, a, f);
      }
    }
  }

  ghost predicate SameWord(link: map<nat, nat>, link': map<nat, nat>, k: nat) {
    (k in link' <==> k in link) && (k in link ==> link'[k] == link[k])
  }

  /** From `s` to `t` memory changed in the `n` bytes at `b` and nowhere else: a word or a header that shares no
      byte with them is as before, one that does may be anything. */
  ghost predicate StoredAt(s: Slabs, t: Slabs, b: nat, n: nat) {
    && t == s.(hdr := t.hdr, next := t.next, prev := t.prev, link := t.link)
    && |s.hdr| == |t.hdr| == |s.next| == |t.next| == |s.prev| == |t.prev|
    && (forall k: nat :: Apart(k, 8, b, n) ==> SameWord(s.link, t.link, k))
    && forall p :: 0 <= p < |s.hdr| && Apart(PageAddr(p), SLAB_HEADER, b, n) ==>
         t.hdr[p] == s.hdr[p] && t.next[p] == s.next[p] && t.prev[p] == s.prev[p]
  }

  /** A store inside a region a caller holds changes nothing the allocators rely on. */
  lemma {:induction false} OwnAll(s: Slabs, pool: seq<nat>, big: map<nat, nat>, bs: Blocks, t: Slabs, r: nat, b: nat,
                                  n: nat)
    requires KmemInv(s, pool, big, Allocated(bs)) && Tiles(bs) && r in OutObjects(s) + Blocks4K(big)
    requires r <= b && b + n <= r + (OutObjects(s) + Blocks4K(big))[r] && StoredAt(s, t, b, n)
    ensures KmemInv(t, pool, big, Allocated(bs)) && OutObjects(t) == OutObjects(s)
    ensures NoIdle(s, {}) ==> NoIdle(t, {})
  {
    hide SlabInv, Backed, Tiles, StoredAt, OutObjects, SameWord, SameHeader, NoIdle;
    InvSized(s);
    RegionOff(s, pool, big, bs, r);
    StoredApart(s, t, r, (OutObjects(s) + Blocks4K(big))[r], b, n);
    StoreStep(s, t);
    StoreKept(s, t);
  }

  lemma {:induction false} StoreKept(s: Slabs, t: Slabs)
    requires t == s.(hdr := t.hdr, next := t.next, prev := t.prev, link := t.link) && |t.hdr| == |s.hdr|
    requires forall p :: p in s.owner ==> SameHeader(s, t, p)
    ensures OutObjects(t) == OutObjects(s) && (NoIdle(s, {}) ==> NoIdle(t, {}))
  {
    hide ObjSize, PageOf;
    forall p | p in s.owner ensures t.hdr[p] == s.hdr[p] { assert SameHeader(s, t, p); }
  }

  /** The store leaves alone what is outside the region. */
  lemma {:induction false} StoredApart(s: Slabs, t: Slabs, a: nat, m: nat, b: nat, n: nat)
    requires Sized(s) && StoredAt(s, t, b, n) && a <= b && b + n <= a + m
    requires forall f :: f in s.place && s.place[f] == OnList ==> Apart(f, 8, a, m)
    requires forall p :: p in s.owner ==> Apart(PageAddr(p), SLAB_HEADER, a, m)
    ensures t == s.(hdr := t.hdr, next := t.next, prev := t.prev, link := t.link)
    ensures |t.hdr| == |t.next| == |t.prev| == FRAME_COUNT
    ensures forall f :: f in s.place && s.place[f] == OnList ==> SameWord(s.link, t.link, f)
    ensures forall p :: p in s.owner ==> SameHeader(s, t, p)
  {
    hide SameWord, PageAddr;
    forall f | f in s.place && s.place[f] == OnList ensures SameWord(s.link, t.link, f) { assert Apart(f, 8, a, m); }
    forall p | p in s.owner ensures SameHeader(s, t, p) { assert Apart(PageAddr(p), SLAB_HEADER, b, n); }
  }

  ghost predicate SameHeader(s: Slabs, t: Slabs, p: nat) {
    && p < |s.hdr| == |t.hdr| == |s.next| == |t.next| == |s.prev| == |t.prev|
    && t.hdr[p] == s.hdr[p] && t.next[p] == s.next[p] && t.prev[p] == s.prev[p]
  }

  lemma {:induction false} ForeignAll(s: Slabs, pool: seq<nat>, big: map<nat, nat>, al: map<nat, Allocation>, f: nat,
                                      h: Header)
    requires KmemInv(s, pool, big, al) && f < FRAME_COUNT && f !in s.owner
    ensures |s.hdr| == FRAME_COUNT
    ensures var t := s.(hdr := s.hdr[f := h]);
            && KmemInv(t, pool, big, al) && OutObjects(t) == OutObjects(s) && (NoIdle(s, {}) ==> NoIdle(t, {}))
  {
    InvSized(s);
    hide SlabInv, Backed, ObjSize, PageOf;
    ForeignStep(s, f, h);
  }

  /** What slabs rely on: their headers and the links of their free objects. */
  lemma {:induction false} StoreStep(s: Slabs, t: Slabs)
    requires SlabInv(s) && t == s.(hdr := t.hdr, next := t.next, prev := t.prev, link := t.link)
    requires |t.hdr| == |t.next| == |t.prev| == FRAME_COUNT
    requires forall f :: f in s.place && s.place[f] == OnList ==> SameWord(s.link, t.link, f)
    requires forall p :: p in s.owner ==> SameHeader(s, t, p)
    ensures SlabInv(t)
  {
    StorePlaced(s, t);
    forall q | q in t.owner ensures HeaderOk(t, q) {
      assert HeaderOk(s, q) && SameHeader(s, t, q);
      forall i | 0 <= i < |s.free[q]| ensures Cell(t.link, t.free[q], i) {
        assert Cell(s.link, s.free[q], i);
        assert s.free[q][i] in s.free[q];
        assert OnFree(s, s.free[q][i], q);
      }
    }
    StoreChains(s, t);
  }

  lemma {:induction false} StoreChains(s: Slabs, t: Slabs)
    requires SlabInv(s) && t == s.(hdr := t.hdr, next := t.next, prev := t.prev, link := t.link) && Sized(t)
    requires forall p :: p in s.owner ==> SameHeader(s, t, p)
    ensures Chains(t)
  {
    forall id | 0 <= id < CACHE_COUNT ensures Linked(t.heads[id], t.next, t.prev, t.chain[id]) {
      forall k | 0 <= k < |s.chain[id]| ensures s.chain[id][k] in s.owner { assert s.chain[id][k] in s.chain[id]; }
      LinkedFrame(s.heads[id], s.next, s.prev, t.next, t.prev, s.chain[id]);
    }
  }

  lemma {:induction false} StorePlaced(s: Slabs, t: Slabs)
    requires Sized(s) && Placed(s) && t == s.(hdr := t.hdr, next := t.next, prev := t.prev, link := t.link)
    requires |t.hdr| == |t.next| == |t.prev| == FRAME_COUNT
    ensures Sized(t) && Placed(t)
  {
    forall q: nat, b: nat | q in t.owner ensures b in t.free[q] <==> OnFree(t, b, q) {
      assert b in s.free[q] <==> OnFree(s, b, q);
    }
    forall i: nat, b: nat | i < CACHE_COUNT ensures b in t.cached[i] <==> InCache(t, b, i) {
      assert b in s.cached[i] <==> InCache(s, b, i);
    }
  }
}
