/** One-page slabs as values: headers, threaded free lists, the per-CPU object caches,
    and where each object is. Steps are the memory writes the allocator makes. */
module SlabState {
  import opened Sequences
  import opened Arithmetic
  import opened Frames
  import opened Tiling
  import opened FreeLists

  const CACHE_COUNT: nat := 8
  const SLAB_MAGIC: nat := 0x534C4142
  const SLAB_HEADER: nat := 48
  const PCPU_OBJ_CACHE: nat := 16

  function ObjSize(id: nat): (n: nat)
    ensures id < CACHE_COUNT ==> 16 <= n <= 2048
  {
    match id
    case 0 => 16
    case 1 => 32
    case 2 => 64
    case 3 => 128
    case 4 => 256
    case 5 => 512
    case 6 => 1024
    case _ => 2048
  }

  function PerSlab(id: nat): (n: nat)
    ensures id < CACHE_COUNT ==> n >= 1
  {
    (FRAME_SIZE - SLAB_HEADER) / ObjSize(id)
  }

  function PageAddr(p: nat): nat { HEAP_PHYS + p * FRAME_SIZE }

  /** `ptr & ~(FRAME_SIZE - 1)`, as a frame number. */
  function PageOf(a: nat): nat {
    if a < HEAP_PHYS then FRAME_COUNT else (a - HEAP_PHYS) / FRAME_SIZE
  }

  function ObjAt(p: nat, id: nat, k: nat): nat {
    PageAddr(p) + SLAB_HEADER + k * ObjSize(id)
  }

  ghost predicate IsObj(a: nat, p: nat, id: nat) {
    exists k: nat :: k < PerSlab(id) && a == ObjAt(p, id, k)
  }

  lemma ObjFits(p: nat, id: nat, k: nat)
    requires id < CACHE_COUNT && k < PerSlab(id)
    ensures PageAddr(p) + SLAB_HEADER <= ObjAt(p, id, k)
    ensures ObjAt(p, id, k) + ObjSize(id) <= PageAddr(p) + FRAME_SIZE
    ensures PageOf(ObjAt(p, id, k)) == p
  {
    var n := ObjSize(id);
    assert (k + 1) * n <= PerSlab(id) * n by { MulLe(k + 1, PerSlab(id), n); }
    assert (k + 1) * n == k * n + n;
  }

  lemma ObjApart(p: nat, id: nat, j: nat, k: nat)
    requires id < CACHE_COUNT && j < k
    ensures ObjAt(p, id, j) + ObjSize(id) <= ObjAt(p, id, k)
  {
    MulLe(j + 1, k, ObjSize(id));
    assert (j + 1) * ObjSize(id) == j * ObjSize(id) + ObjSize(id);
  }

  datatype Header = Header(magic: nat, inUse: int, total: nat, freelist: nat, cache: nat)

  /** Where an object is: on its slab's free list, in the per-CPU cache, or with a caller. */
  datatype Place = OnList | Cached | Out

  datatype Slabs = Slabs( hdr: seq<Header>, next: seq<int>, prev: seq<int>, heads: seq<int>, link: map<nat, nat>,
                         cached: seq<seq<nat>>, chain: seq<seq<nat>>, owner: map<nat, nat>, free: map<nat, seq<nat>>,
                         place: map<nat, Place>)

  ghost function First(l: seq<nat>): nat { if l == [] then 0 else l[0] }

  /** Object `l[i]` holds a pointer to `l[i + 1]`, the last one a null pointer. */
  ghost predicate Cell(link: map<nat, nat>, l: seq<nat>, i: nat) {
    && i < |l| && l[i] != 0 && l[i] in link
    && link[l[i]] == if i + 1 < |l| then l[i + 1] else 0
  }

  /** The free list threaded through the first words of the free objects. */
  ghost predicate Threaded(link: map<nat, nat>, l: seq<nat>) {
    forall i :: 0 <= i < |l| ==> Cell(link, l, i)
  }

  ghost predicate Sized(s: Slabs) {
    && |s.hdr| == |s.next| == |s.prev| == FRAME_COUNT
    && |s.heads| == |s.cached| == |s.chain| == CACHE_COUNT
    && s.free.Keys == s.owner.Keys
    && forall p :: p in s.owner ==> p < FRAME_COUNT && s.owner[p] < CACHE_COUNT
  }

  ghost predicate Chains(s: Slabs)
    requires Sized(s)
  {
    && (forall id :: 0 <= id < CACHE_COUNT ==> Linked(s.heads[id], s.next, s.prev, s.chain[id]))
    && (forall id: nat, p: nat :: id < CACHE_COUNT ==> (p in s.chain[id] <==> p in s.owner && s.owner[p] == id))
  }

  ghost predicate HeaderOk(s: Slabs, p: nat)
    requires Sized(s) && p in s.owner
  {
    var id := s.owner[p];
    && s.hdr[p] == Header(SLAB_MAGIC, PerSlab(id) - |s.free[p]|, PerSlab(id), First(s.free[p]), id)
    && Distinct(s.free[p]) && Threaded(s.link, s.free[p])
  }

  ghost predicate OnFree(s: Slabs, a: nat, p: nat) { a in s.place && s.place[a] == OnList && PageOf(a) == p }

  ghost predicate InCache(s: Slabs, a: nat, id: nat) {
    a in s.place && s.place[a] == Cached && PageOf(a) in s.owner && s.owner[PageOf(a)] == id
  }

  /** Each object of each slab is in exactly one place, and nothing else is tracked. */
  ghost predicate Placed(s: Slabs)
    requires Sized(s)
  {
    && (forall p: nat, a: nat :: p in s.owner && IsObj(a, p, s.owner[p]) ==> a in s.place)
    && (forall a :: a in s.place ==> PageOf(a) in s.owner && IsObj(a, PageOf(a), s.owner[PageOf(a)]))
    && (forall p: nat, a: nat :: p in s.owner ==> (a in s.free[p] <==> OnFree(s, a, p)))
    && (forall id: nat, a: nat :: id < CACHE_COUNT ==> (a in s.cached[id] <==> InCache(s, a, id)))
    && (forall id :: 0 <= id < CACHE_COUNT ==> Distinct(s.cached[id]))
  }

  ghost predicate SlabInv(s: Slabs) {
    && Sized(s) && Chains(s) && Placed(s)
    && forall p :: p in s.owner ==> HeaderOk(s, p)
  }

  // ---- counting -----------------------------------------------------------------

  ghost function Elems(l: seq<nat>): set<nat> { set a | a in l }

  lemma {:induction false} DistinctSize(l: seq<nat>)
    requires Distinct(l)
    ensures |Elems(l)| == |l|
  {
    if l == [] {
      assert Elems(l) == {};
    } else {
      var t := l[1..];
      assert forall i, j :: 0 <= i < |t| && 0 <= j < |t| && t[i] == t[j] ==> l[i + 1] == l[j + 1];
      DistinctSize(t);
      assert l == [l[0]] + t;
      assert Elems(l) == {l[0]} + Elems(t);
      assert l[0] !in t;
    }
  }

  ghost function ObjList(p: nat, id: nat, n: nat): (l: seq<nat>)
    ensures |l| == n
  {
    if n == 0 then [] else [ObjAt(p, id, n - 1)] + ObjList(p, id, n - 1)
  }

  lemma {:induction false} ObjListFacts(p: nat, id: nat, n: nat)
    requires id < CACHE_COUNT
    ensures Distinct(ObjList(p, id, n))
    ensures forall a :: a in ObjList(p, id, n) <==> exists k: nat :: k < n && a == ObjAt(p, id, k)
  {
    if n > 0 {
      ObjListFacts(p, id, n - 1);
      var t := ObjList(p, id, n - 1);
      var l := ObjList(p, id, n);
      forall k: nat | k < n - 1 ensures ObjAt(p, id, k) != ObjAt(p, id, n - 1) { ObjApart(p, id, k, n - 1); }
      assert ObjAt(p, id, n - 1) !in t;
      DistinctCons(ObjAt(p, id, n - 1), t);
      forall a ensures a in l <==> exists k: nat :: k < n && a == ObjAt(p, id, k) {
        assert a in l <==> a == ObjAt(p, id, n - 1) || a in t;
      }
    }
  }

  lemma DistinctCons(a: nat, t: seq<nat>)
    requires Distinct(t) && a !in t
    ensures Distinct([a] + t)
  {
    var l := [a] + t;
    forall i, j | 0 <= i < |l| && 0 <= j < |l| && l[i] == l[j] ensures i == j {
      assert i > 0 ==> l[i] == t[i - 1] && l[i] in t;
      assert j > 0 ==> l[j] == t[j - 1] && l[j] in t;
    }
  }

  lemma DistinctTail(l: seq<nat>)
    requires Distinct(l) && l != []
    ensures Distinct(l[1..]) && l[0] !in l[1..]
  {
    var t := l[1..];
    assert forall i :: 0 <= i < |t| ==> t[i] == l[i + 1];
  }

  /** A free list holds at most the slab's objects; it holds all of them exactly when
      no object is cached or out. */
  lemma {:induction false} FreeCount(s: Slabs, p: nat)
    requires SlabInv(s) && p in s.owner
    ensures 0 <= s.hdr[p].inUse <= PerSlab(s.owner[p])
    ensures s.hdr[p].inUse == 0 <==> forall a :: a in s.place && PageOf(a) == p ==> s.place[a] == OnList
  {
    var id := s.owner[p];
    var all := ObjList(p, id, PerSlab(id));
    assert HeaderOk(s, p);
    ObjListFacts(p, id, PerSlab(id));
    DistinctSize(all);
    DistinctSize(s.free[p]);
    var fs, os := Elems(s.free[p]), Elems(all);
    forall a | a in fs ensures a in os {
      assert OnFree(s, a, p);
    }
    SubsetSize(fs, os);
    forall a ensures a in os <==> a in s.place && PageOf(a) == p {
      if a in os {
        var k: nat :| k < PerSlab(id) && a == ObjAt(p, id, k);
        ObjFits(p, id, k);
        assert IsObj(a, p, id);
      }
    }
    if fs == os {
      forall a | a in s.place && PageOf(a) == p ensures s.place[a] == OnList {
        assert a in os && a in s.free[p];
        assert OnFree(s, a, p);
      }
    } else {
      var a :| a in os && a !in fs;
      assert !OnFree(s, a, p);
    }
  }

  lemma SubsetSize(a: set<nat>, b: set<nat>)
    requires a <= b
    ensures |a| <= |b| && (|a| == |b| <==> a == b)
  {
    var c := b - a;
    assert b == a + c;
    assert |b| == |a| + |c|;
    assert c == {} <==> a == b;
  }
}
