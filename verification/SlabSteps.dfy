/** Each write sequence of the slab allocator as a step on the state, with the lemma
    that the step keeps every object in exactly one place. */
module SlabSteps {
  import opened Sequences
  import opened Frames
  import opened Tiling
  import opened FreeLists
  import opened SlabState

  /** Moving one object between places: the lists must agree about that object only. */
  lemma {:induction false} MovePlaced(s: Slabs, t: Slabs, a: nat)
    requires Sized(s) && Placed(s) && Sized(t) && t.owner == s.owner
    requires a in s.place && a in t.place && t.place == s.place[a := t.place[a]]
    requires forall q: nat, b: nat :: q in s.owner && b != a ==> (b in t.free[q] <==> b in s.free[q])
    requires forall q: nat :: q in s.owner ==> (a in t.free[q] <==> OnFree(t, a, q))
    requires forall i: nat, b: nat :: i < CACHE_COUNT && b != a ==> (b in t.cached[i] <==> b in s.cached[i])
    requires forall i: nat :: i < CACHE_COUNT ==> (a in t.cached[i] <==> InCache(t, a, i))
    requires forall i :: 0 <= i < CACHE_COUNT ==> Distinct(t.cached[i])
    ensures Placed(t)
  {
    forall q: nat, b: nat | q in t.owner ensures b in t.free[q] <==> OnFree(t, b, q) {
      assert b in s.free[q] <==> OnFree(s, b, q);
    }
    forall i: nat, b: nat | i < CACHE_COUNT ensures b in t.cached[i] <==> InCache(t, b, i) {
      assert b in s.cached[i] <==> InCache(s, b, i);
    }
  }

  // ---- an object leaves the free list -------------------------------------------

  ghost function Popped(s: Slabs, p: nat): Slabs
    requires Sized(s) && p in s.owner && s.free[p] != [] && s.free[p][0] in s.link
  {
    var a := s.free[p][0];
    s.(hdr := s.hdr[p := s.hdr[p].(inUse := s.hdr[p].inUse + 1, freelist := s.link[a])],
       free := s.free[p := s.free[p][1..]],
       place := s.place[a := Out])
  }

  lemma PopReady(s: Slabs, p: nat)
    requires SlabInv(s) && p in s.owner
    ensures s.hdr[p].freelist == First(s.free[p])
    ensures s.hdr[p].freelist == 0 <==> s.free[p] == []
    ensures s.free[p] != [] ==> s.free[p][0] in s.link && OnFree(s, s.free[p][0], p)
  {
    assert HeaderOk(s, p);
    assert s.free[p] != [] ==> s.free[p][0] in s.free[p] && Cell(s.link, s.free[p], 0);
  }

  lemma {:induction false} PopStep(s: Slabs, p: nat)
    requires SlabInv(s) && p in s.owner && s.free[p] != [] && s.free[p][0] in s.link
    ensures SlabInv(Popped(s, p))
  {
    assert HeaderOk(s, p);
    PopHeaders(s, p);
    PopPlaced(s, p);
    ChainsKept(s, Popped(s, p));
  }

  lemma ChainsKept(s: Slabs, t: Slabs)
    requires Sized(s) && Chains(s) && Sized(t) && t.owner == s.owner
    requires t.next == s.next && t.prev == s.prev && t.heads == s.heads && t.chain == s.chain
    ensures Chains(t)
  {
  }

  lemma {:induction false} PopHeaders(s: Slabs, p: nat)
    requires Sized(s) && p in s.owner && s.free[p] != [] && s.free[p][0] in s.link
    requires forall q :: q in s.owner ==> HeaderOk(s, q)
    ensures var t := Popped(s, p); Sized(t) && forall q :: q in t.owner ==> HeaderOk(t, q)
  {
    var t := Popped(s, p);
    forall q | q in t.owner ensures HeaderOk(t, q) {
      assert HeaderOk(s, q);
      if q == p {
        DistinctTail(s.free[p]);
        ThreadedTail(s.link, s.free[p]);
      }
    }
  }

  lemma {:induction false} PopPlaced(s: Slabs, p: nat)
    requires Sized(s) && Placed(s) && p in s.owner && s.free[p] != [] && s.free[p][0] in s.link
    requires Distinct(s.free[p])
    ensures Sized(Popped(s, p)) && Placed(Popped(s, p))
  {
    var t := Popped(s, p);
    var l := s.free[p];
    assert l[0] in l && OnFree(s, l[0], p);
    DistinctTail(l);
    assert l == [l[0]] + l[1..];
    forall i: nat | i < CACHE_COUNT ensures l[0] !in s.cached[i] { assert !InCache(s, l[0], i); }
    forall q: nat | q in s.owner ensures l[0] !in t.free[q] {
      assert q != p ==> !OnFree(s, l[0], q);
    }
    MovePlaced(s, t, l[0]);
  }

  lemma ThreadedTail(link: map<nat, nat>, l: seq<nat>)
    requires Threaded(link, l) && l != []
    ensures Threaded(link, l[1..]) && l[0] in link && link[l[0]] == First(l[1..])
  {
    var t := l[1..];
    assert Cell(link, l, 0);
    forall i: nat | i < |t| ensures Cell(link, t, i) {
      assert Cell(link, l, i + 1);
    }
  }

  // ---- an object returns to the free list ------------------------------------------

  ghost function Pushed(s: Slabs, a: nat): Slabs
    requires Sized(s) && PageOf(a) in s.owner
  {
    var p := PageOf(a);
    s.(link := s.link[a := s.hdr[p].freelist],
       hdr := s.hdr[p := s.hdr[p].(inUse := s.hdr[p].inUse - 1, freelist := a)],
       free := s.free[p := [a] + s.free[p]],
       place := s.place[a := OnList])
  }

  lemma {:induction false} PushStep(s: Slabs, a: nat)
    requires SlabInv(s) && a in s.place && s.place[a] == Out
    ensures SlabInv(Pushed(s, a))
  {
    forall q: nat | q in s.owner ensures a !in s.free[q] { assert !OnFree(s, a, q); }
    PushHeaders(s, a);
    PushPlaced(s, a);
    ChainsKept(s, Pushed(s, a));
  }

  lemma {:induction false} PushHeaders(s: Slabs, a: nat)
    requires Sized(s) && PageOf(a) in s.owner
    requires forall q :: q in s.owner ==> HeaderOk(s, q) && a !in s.free[q]
    ensures var t := Pushed(s, a); Sized(t) && forall q :: q in t.owner ==> HeaderOk(t, q)
  {
    var t := Pushed(s, a);
    var p := PageOf(a);
    forall q | q in t.owner ensures HeaderOk(t, q) {
      assert HeaderOk(s, q);
      ThreadedFrame(s.link, s.free[q], a, s.hdr[p].freelist);
      if q == p {
        DistinctCons(a, s.free[p]);
        ThreadedCons(t.link, a, s.free[p]);
      }
    }
  }

  lemma {:induction false} PushPlaced(s: Slabs, a: nat)
    requires Sized(s) && Placed(s) && a in s.place && s.place[a] == Out
    ensures Sized(Pushed(s, a)) && Placed(Pushed(s, a))
  {
    var t := Pushed(s, a);
    forall i: nat | i < CACHE_COUNT ensures a !in s.cached[i] { assert !InCache(s, a, i); }
    forall q: nat | q in s.owner ensures a in t.free[q] <==> OnFree(t, a, q) {
      assert a in s.free[q] <==> OnFree(s, a, q);
    }
    MovePlaced(s, t, a);
  }

  lemma ThreadedFrame(link: map<nat, nat>, l: seq<nat>, a: nat, v: nat)
    requires Threaded(link, l) && a !in l
    ensures Threaded(link[a := v], l)
  {
    ThreadedAgree(link, link[a := v], l);
  }

  lemma ThreadedCons(link: map<nat, nat>, a: nat, l: seq<nat>)
    requires Threaded(link, l) && a != 0 && a in link && link[a] == First(l)
    ensures Threaded(link, [a] + l)
  {
    var m := [a] + l;
    forall i: nat | i < |m| ensures Cell(link, m, i) {
      assert i > 0 ==> Cell(link, l, i - 1);
    }
  }

  // ---- the per-CPU cache ----------------------------------------------------------

  ghost function Stashed(s: Slabs, id: nat, a: nat): Slabs
    requires Sized(s) && id < CACHE_COUNT
  {
    s.(cached := s.cached[id := s.cached[id] + [a]], place := s.place[a := Cached])
  }

  lemma StashStep(s: Slabs, id: nat, a: nat)
    requires SlabInv(s) && a in s.place && s.place[a] == Out && s.owner[PageOf(a)] == id
    ensures SlabInv(Stashed(s, id, a))
  {
    hide Linked, Threaded;
    StashPlaced(s, id, a);
    ChainsKept(s, Stashed(s, id, a));
    HeadersKept(s, Stashed(s, id, a));
  }

  lemma HeadersKept(s: Slabs, t: Slabs)
    requires Sized(s) && Sized(t) && t.owner == s.owner && t.hdr == s.hdr && t.free == s.free && t.link == s.link
    requires forall q :: q in s.owner ==> HeaderOk(s, q)
    ensures forall q :: q in t.owner ==> HeaderOk(t, q)
  {
    forall q | q in t.owner ensures HeaderOk(t, q) { assert HeaderOk(s, q); }
  }

  lemma {:induction false} StashPlaced(s: Slabs, id: nat, a: nat)
    requires Sized(s) && Placed(s) && a in s.place && s.place[a] == Out && s.owner[PageOf(a)] == id
    ensures Sized(Stashed(s, id, a)) && Placed(Stashed(s, id, a))
  {
    var t := Stashed(s, id, a);
    assert !InCache(s, a, id);
    DistinctSnoc(s.cached[id], a);
    forall q: nat | q in s.owner ensures a !in s.free[q] { assert !OnFree(s, a, q); }
    forall i: nat | i < CACHE_COUNT ensures a in t.cached[i] <==> InCache(t, a, i) {
      assert a in s.cached[i] <==> InCache(s, a, i);
    }
    MovePlaced(s, t, a);
  }

  lemma DistinctSnoc(l: seq<nat>, a: nat)
    requires Distinct(l) && a !in l
    ensures Distinct(l + [a])
  {
    var m := l + [a];
    forall i, j | 0 <= i < |m| && 0 <= j < |m| && m[i] == m[j] ensures i == j {
      assert i < |l| ==> m[i] in l;
      assert j < |l| ==> m[j] in l;
    }
  }

  ghost function Unstashed(s: Slabs, id: nat): Slabs
    requires Sized(s) && id < CACHE_COUNT && s.cached[id] != []
  {
    var n := |s.cached[id]| - 1;
    s.(cached := s.cached[id := s.cached[id][..n]], place := s.place[s.cached[id][n] := Out])
  }

  lemma {:induction false} UnstashStep(s: Slabs, id: nat)
    requires SlabInv(s) && id < CACHE_COUNT && s.cached[id] != []
    ensures SlabInv(Unstashed(s, id))
    ensures var a := s.cached[id][|s.cached[id]| - 1]; InCache(s, a, id)
  {
    hide Linked, Threaded;
    UnstashPlaced(s, id);
    ChainsKept(s, Unstashed(s, id));
    HeadersKept(s, Unstashed(s, id));
  }

  lemma {:induction false} UnstashPlaced(s: Slabs, id: nat)
    requires Sized(s) && Placed(s) && id < CACHE_COUNT && s.cached[id] != []
    ensures Sized(Unstashed(s, id)) && Placed(Unstashed(s, id))
    ensures var a := s.cached[id][|s.cached[id]| - 1]; InCache(s, a, id)
  {
    var t := Unstashed(s, id);
    var l := s.cached[id];
    var n := |l| - 1;
    var a := l[n];
    assert a in l && InCache(s, a, id);
    assert l == l[..n] + [a];
    assert a !in l[..n];
    forall q: nat | q in s.owner ensures a !in s.free[q] { assert !OnFree(s, a, q); }
    forall i: nat | i < CACHE_COUNT ensures a !in t.cached[i] {
      assert i != id ==> !InCache(s, a, i);
    }
    MovePlaced(s, t, a);
  }

  // ---- a page becomes a slab ---------------------------------------------------------

  /** The words written while the new page's free list is threaded. */
  ghost function Thread(link: map<nat, nat>, p: nat, id: nat, n: nat): map<nat, nat> {
    if n == 0 then link
    else Thread(link, p, id, n - 1)[ObjAt(p, id, n - 1) := First(ObjList(p, id, n - 1))]
  }

  lemma {:induction false} ThreadFacts(link: map<nat, nat>, p: nat, id: nat, n: nat)
    requires id < CACHE_COUNT
    ensures Threaded(Thread(link, p, id, n), ObjList(p, id, n))
    ensures forall a :: a in link && a !in ObjList(p, id, n) ==>
              a in Thread(link, p, id, n) && Thread(link, p, id, n)[a] == link[a]
  {
    if n > 0 {
      ThreadFacts(link, p, id, n - 1);
      ObjListFacts(p, id, n);
      var a, t := ObjAt(p, id, n - 1), ObjList(p, id, n - 1);
      assert ObjList(p, id, n) == [a] + t;
      assert a !in t by { DistinctTail(ObjList(p, id, n)); assert ObjList(p, id, n)[1..] == t; }
      ThreadedFrame(Thread(link, p, id, n - 1), t, a, First(t));
      ThreadedCons(Thread(link, p, id, n), a, t);
    }
  }

  ghost function Opened(s: Slabs, p: nat, id: nat): Slabs
    requires Sized(s) && p < FRAME_COUNT && id < CACHE_COUNT
  {
    var l := ObjList(p, id, PerSlab(id));
    s.(hdr := s.hdr[p := Header(SLAB_MAGIC, 0, PerSlab(id), First(l), id)],
       next := s.next[p := s.heads[id]],
       prev := AddPrev(s.heads[id], s.prev, p),
       heads := s.heads[id := p],
       link := Thread(s.link, p, id, PerSlab(id)),
       chain := s.chain[id := [p] + s.chain[id]],
       owner := s.owner[p := id],
       free := s.free[p := l],
       place := s.place + map a | a in l :: OnList)
  }

  lemma {:induction false} OpenStep(s: Slabs, p: nat, id: nat)
    requires SlabInv(s) && p !in s.owner && p < FRAME_COUNT && id < CACHE_COUNT
    ensures SlabInv(Opened(s, p, id))
  {
    var t := Opened(s, p, id);
    var l := ObjList(p, id, PerSlab(id));
    ObjListFacts(p, id, PerSlab(id));
    forall a | a in l ensures PageOf(a) == p && IsObj(a, p, id) && a !in s.place {
      var k: nat :| k < PerSlab(id) && a == ObjAt(p, id, k);
      ObjFits(p, id, k);
    }
    OpenChains(s, p, id);
    OpenHeaders(s, p, id);
    OpenPlaced(s, p, id);
  }

  lemma {:induction false} OpenChains(s: Slabs, p: nat, id: nat)
    requires SlabInv(s) && p !in s.owner && p < FRAME_COUNT && id < CACHE_COUNT
    ensures Sized(Opened(s, p, id)) && Chains(Opened(s, p, id))
  {
    var t := Opened(s, p, id);
    hide Placed, HeaderOk, Linked, Opened;
    OpenSized(s, p, id);
    OpenMembers(s, p, id);
    forall i: nat | i < CACHE_COUNT ensures Linked(t.heads[i], t.next, t.prev, t.chain[i]) { OpenList(s, p, id, i); }
  }

  lemma {:induction false} OpenSized(s: Slabs, p: nat, id: nat)
    requires Sized(s) && p < FRAME_COUNT && id < CACHE_COUNT
    ensures Sized(Opened(s, p, id))
  {
    hide ObjList, Thread, PerSlab, ObjSize;
  }

  lemma {:induction false} OpenMembers(s: Slabs, p: nat, id: nat)
    requires Sized(s) && Chains(s) && p !in s.owner && p < FRAME_COUNT && id < CACHE_COUNT
    ensures var t := Opened(s, p, id);
            && |t.chain| == CACHE_COUNT
            && forall i: nat, q: nat :: i < CACHE_COUNT ==> (q in t.chain[i] <==> q in t.owner && t.owner[q] == i)
  {
    var t := Opened(s, p, id);
    hide ObjList, Thread, PerSlab, ObjSize, Linked, AddPrev;
    forall i: nat, q: nat | i < CACHE_COUNT ensures q in t.chain[i] <==> q in t.owner && t.owner[q] == i {
      assert q in s.chain[i] <==> q in s.owner && s.owner[q] == i;
      assert p !in s.chain[i];
    }
  }

  /** One cache's list after the page joined cache `id`. */
  lemma {:induction false} OpenList(s: Slabs, p: nat, id: nat, i: nat)
    requires Sized(s) && Chains(s) && p !in s.owner && p < FRAME_COUNT && id < CACHE_COUNT && i < CACHE_COUNT
    ensures var t := Opened(s, p, id); Linked(t.heads[i], t.next, t.prev, t.chain[i])
  {
    var t := Opened(s, p, id);
    hide ObjList, Thread, PerSlab, ObjSize;
    assert p !in s.chain[i] && p !in s.chain[id];
    assert Linked(s.heads[id], s.next, s.prev, s.chain[id]);
    if i == id {
      AddLinked(s.heads[id], s.next, s.prev, s.chain[id], p);
    } else {
      ChainsApart(s, id, i);
      assert s.heads[id] != NIL ==> s.heads[id] in s.chain[id];
      LinkedFrame(s.heads[i], s.next, s.prev, t.next, t.prev, s.chain[i]);
    }
  }

  lemma ChainsApart(s: Slabs, i: nat, j: nat)
    requires Sized(s) && Chains(s) && i < CACHE_COUNT && j < CACHE_COUNT && i != j
    ensures forall q :: q in s.chain[i] ==> q !in s.chain[j]
  {
    forall q | q in s.chain[i] ensures q !in s.chain[j] {
      assert q in s.owner && s.owner[q] == i;
    }
  }

  lemma {:induction false} OpenHeaders(s: Slabs, p: nat, id: nat)
    requires SlabInv(s) && p !in s.owner && p < FRAME_COUNT && id < CACHE_COUNT
    requires forall a :: a in ObjList(p, id, PerSlab(id)) ==> a !in s.place
    requires Distinct(ObjList(p, id, PerSlab(id)))
    ensures var t := Opened(s, p, id); Sized(t) && forall q :: q in t.owner ==> HeaderOk(t, q)
  {
    var t := Opened(s, p, id);
    var l := ObjList(p, id, PerSlab(id));
    ThreadFacts(s.link, p, id, PerSlab(id));
    forall q | q in t.owner ensures HeaderOk(t, q) {
      if q != p {
        assert HeaderOk(s, q);
        OldListKept(s, q, l);
        ThreadedAgree(s.link, t.link, s.free[q]);
      }
    }
  }

  lemma OldListKept(s: Slabs, q: nat, l: seq<nat>)
    requires Sized(s) && Placed(s) && q in s.owner && forall a :: a in l ==> a !in s.place
    ensures forall a :: a in s.free[q] ==> a !in l
  {
    forall a | a in s.free[q] ensures a !in l { assert OnFree(s, a, q); }
  }

  lemma ThreadedAgree(link: map<nat, nat>, link': map<nat, nat>, l: seq<nat>)
    requires Threaded(link, l)
    requires forall a :: a in l && a in link ==> a in link' && link'[a] == link[a]
    ensures Threaded(link', l)
  {
    forall i: nat | i < |l| ensures Cell(link', l, i) {
      assert Cell(link, l, i) && l[i] in l;
    }
  }

  lemma {:induction false} OpenPlaced(s: Slabs, p: nat, id: nat)
    requires SlabInv(s) && p !in s.owner && p < FRAME_COUNT && id < CACHE_COUNT
    requires forall a :: a in ObjList(p, id, PerSlab(id)) <==> exists k: nat :: k < PerSlab(id) && a == ObjAt(p, id, k)
    requires forall a :: a in ObjList(p, id, PerSlab(id)) ==> PageOf(a) == p && a !in s.place
    ensures Sized(Opened(s, p, id)) && Placed(Opened(s, p, id))
  {
    hide HeaderOk, Chains, SlabInv;
    OpenTracked(s, p, id);
    OpenLists(s, p, id);
  }

  /** The objects tracked are those of the old slabs and of the new one. */
  lemma {:induction false} OpenTracked(s: Slabs, p: nat, id: nat)
    requires SlabInv(s) && p !in s.owner && p < FRAME_COUNT && id < CACHE_COUNT
    requires forall a :: a in ObjList(p, id, PerSlab(id)) <==> exists k: nat :: k < PerSlab(id) && a == ObjAt(p, id, k)
    requires forall a :: a in ObjList(p, id, PerSlab(id)) ==> PageOf(a) == p && a !in s.place
    ensures var t := Opened(s, p, id);
            && (forall q: nat, a: nat :: q in t.owner && IsObj(a, q, t.owner[q]) ==> a in t.place)
            && (forall a :: a in t.place ==> PageOf(a) in t.owner && IsObj(a, PageOf(a), t.owner[PageOf(a)]))
  {
    hide HeaderOk, Chains, Thread, PageOf, ObjAt, ObjSize, AddPrev, ObjList, PerSlab;
    var t, l := Opened(s, p, id), ObjList(p, id, PerSlab(id));
    forall q: nat, a: nat | q in t.owner && IsObj(a, q, t.owner[q]) ensures a in t.place {
      if q != p { assert IsObj(a, q, s.owner[q]); }
    }
    forall a | a in t.place ensures PageOf(a) in t.owner && IsObj(a, PageOf(a), t.owner[PageOf(a)]) {
      if a in l { assert IsObj(a, p, id); } else { assert a in s.place; }
    }
  }

  /** Free lists and caches agree with where the objects are. */
  lemma {:induction false} OpenLists(s: Slabs, p: nat, id: nat)
    requires SlabInv(s) && p !in s.owner && p < FRAME_COUNT && id < CACHE_COUNT
    requires forall a :: a in ObjList(p, id, PerSlab(id)) ==> PageOf(a) == p && a !in s.place
    ensures var t := Opened(s, p, id);
            && Sized(t)
            && (forall q: nat, a: nat :: q in t.owner ==> (a in t.free[q] <==> OnFree(t, a, q)))
            && (forall i: nat, a: nat :: i < CACHE_COUNT ==> (a in t.cached[i] <==> InCache(t, a, i)))
            && (forall i :: 0 <= i < CACHE_COUNT ==> Distinct(t.cached[i]))
  {
    OpenSized(s, p, id);
    hide HeaderOk, Chains, Thread, PageOf, IsObj, ObjSize, AddPrev, ObjList, PerSlab;
    var t := Opened(s, p, id);
    forall q: nat, a: nat | q in t.owner ensures a in t.free[q] <==> OnFree(t, a, q) {
      if q != p { assert a in s.free[q] <==> OnFree(s, a, q); }
    }
    forall i: nat, b: nat | i < CACHE_COUNT ensures b in t.cached[i] <==> InCache(t, b, i) {
      assert b in s.cached[i] <==> InCache(s, b, i);
    }
  }

  // ---- an idle slab gives its page back --------------------------------------------------

  ghost function Closed(s: Slabs, p: nat, k: nat): Slabs
    requires Sized(s) && p in s.owner && k < |s.chain[s.owner[p]]|
  {
    var id := s.owner[p];
    s.(next := RemoveNext(s.next, s.prev, p),
       prev := RemovePrev(s.next, s.prev, p),
       heads := s.heads[id := RemoveHead(s.heads[id], s.next, s.prev, p)],
       chain := s.chain[id := Without(s.chain[id], k)],
       owner := s.owner - {p},
       free := s.free - {p},
       place := map a | a in s.place && PageOf(a) != p :: s.place[a])
  }

  lemma ClosedOwner(s: Slabs, p: nat, k: nat)
    requires Sized(s) && p in s.owner && k < |s.chain[s.owner[p]]|
    ensures Closed(s, p, k).owner == s.owner - {p}
  {
    hide RemoveNext, RemovePrev, RemoveHead, Without;
  }

  lemma CloseReady(s: Slabs, p: nat) returns (k: nat)
    requires SlabInv(s) && p in s.owner
    ensures k < |s.chain[s.owner[p]]| && s.chain[s.owner[p]][k] == p
    ensures NIL <= s.next[p] < FRAME_COUNT && NIL <= s.prev[p] < FRAME_COUNT
    ensures s.next[p] != p && s.prev[p] != p
  {
    var id := s.owner[p];
    assert p in s.chain[id];
    k :| 0 <= k < |s.chain[id]| && s.chain[id][k] == p;
    NodeBounds(s.heads[id], s.next, s.prev, s.chain[id], k);
  }

  lemma {:induction false} CloseStep(s: Slabs, p: nat, k: nat)
    requires SlabInv(s) && p in s.owner && s.hdr[p].inUse == 0
    requires k < |s.chain[s.owner[p]]| && s.chain[s.owner[p]][k] == p
    ensures SlabInv(Closed(s, p, k))
    ensures forall a :: a in s.place && PageOf(a) == p ==> s.place[a] == OnList
  {
    FreeCount(s, p);
    CloseChains(s, p, k);
    ClosePlaced(s, p, k);
    var t := Closed(s, p, k);
    forall q | q in t.owner ensures HeaderOk(t, q) { assert HeaderOk(s, q); }
  }

  lemma {:induction false} CloseChains(s: Slabs, p: nat, k: nat)
    requires SlabInv(s) && p in s.owner
    requires k < |s.chain[s.owner[p]]| && s.chain[s.owner[p]][k] == p
    ensures Sized(Closed(s, p, k)) && Chains(Closed(s, p, k))
  {
    var id, t := s.owner[p], Closed(s, p, k);
    hide Placed, HeaderOk, Linked, RemoveNext, RemovePrev, RemoveHead, Without;
    forall i: nat | i < CACHE_COUNT ensures Linked(t.heads[i], t.next, t.prev, t.chain[i]) { CloseList(s, p, k, i); }
    CloseMembers(s, p, k);
    CloseSized(s, p, k);
  }

  lemma {:induction false} CloseSized(s: Slabs, p: nat, k: nat)
    requires Sized(s) && p in s.owner && k < |s.chain[s.owner[p]]|
    ensures Sized(Closed(s, p, k))
  {
  }

  /** One cache's list after the page left its own. */
  lemma {:induction false} CloseList(s: Slabs, p: nat, k: nat, i: nat)
    requires Sized(s) && Chains(s) && p in s.owner && i < CACHE_COUNT
    requires k < |s.chain[s.owner[p]]| && s.chain[s.owner[p]][k] == p
    ensures var t := Closed(s, p, k); Linked(t.heads[i], t.next, t.prev, t.chain[i])
  {
    var id, t := s.owner[p], Closed(s, p, k);
    assert Linked(s.heads[id], s.next, s.prev, s.chain[id]);
    RemoveLinked(s.heads[id], s.next, s.prev, s.chain[id], k);
    if i != id {
      assert Node(s.next, s.prev, s.chain[id], k);
      assert s.next[p] != NIL ==> s.next[p] in s.chain[id];
      assert s.prev[p] != NIL ==> s.prev[p] in s.chain[id];
      ChainsApart(s, id, i);
      LinkedFrame(s.heads[i], s.next, s.prev, t.next, t.prev, s.chain[i]);
    }
  }

  lemma {:induction false} CloseMembers(s: Slabs, p: nat, k: nat)
    requires Sized(s) && Chains(s) && p in s.owner && k < |s.chain[s.owner[p]]| && s.chain[s.owner[p]][k] == p
    ensures var t := Closed(s, p, k);
            forall i: nat, q: nat :: i < CACHE_COUNT ==> (q in t.chain[i] <==> q in t.owner && t.owner[q] == i)
  {
    var id, t := s.owner[p], Closed(s, p, k);
    assert Linked(s.heads[id], s.next, s.prev, s.chain[id]);
    hide RemoveNext, RemovePrev, RemoveHead;
    forall i: nat, q: nat | i < CACHE_COUNT ensures q in t.chain[i] <==> q in t.owner && t.owner[q] == i {
      assert q in s.chain[i] <==> q in s.owner && s.owner[q] == i;
      if i == id { WithoutMembers(s.chain[id], k, q); }
    }
  }

  lemma {:induction false} ClosePlaced(s: Slabs, p: nat, k: nat)
    requires SlabInv(s) && p in s.owner && k < |s.chain[s.owner[p]]|
    requires forall a :: a in s.place && PageOf(a) == p ==> s.place[a] == OnList
    ensures Sized(Closed(s, p, k)) && Placed(Closed(s, p, k))
  {
    hide HeaderOk, Chains, Threaded, Linked;
    var t := Closed(s, p, k);
    forall q: nat, a: nat | q in t.owner && IsObj(a, q, t.owner[q]) ensures a in t.place {
      assert IsObj(a, q, s.owner[q]);
      var j: nat :| j < PerSlab(s.owner[q]) && a == ObjAt(q, s.owner[q], j);
      ObjFits(q, s.owner[q], j);
    }
    forall q: nat, a: nat | q in t.owner ensures a in t.free[q] <==> OnFree(t, a, q) {
      assert a in s.free[q] <==> OnFree(s, a, q);
    }
    forall i: nat, b: nat | i < CACHE_COUNT ensures b in t.cached[i] <==> InCache(t, b, i) {
      assert b in s.cached[i] <==> InCache(s, b, i);
    }
  }
}
