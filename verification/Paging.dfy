/** Four-level paging as the processor reads it: page tables are pages of 512 words in
    physical memory, and `Walk` is the translation a virtual address gets through them. */
module Paging {
  import opened Options

  /** Page-aligned physical address to the 512 words stored there. */
  type Mem = map<nat, seq<nat>>

  function Span(l: nat): (n: nat)
    ensures n > 0
  {
    match l
    case 0 => 1
    case 1 => 0x1000
    case 2 => 0x20_0000
    case 3 => 0x4000_0000
    case 4 => 0x80_0000_0000
    case _ => 0x1_0000_0000_0000
  }

  const VA_LIMIT: nat := 0x1_0000_0000_0000

  /** The index a level's table is read at. */
  function Index(va: nat, l: nat): (i: nat)
    ensures i < 512
  {
    va / Span(l) % 512
  }

  predicate Present(w: nat) { w % 2 == 1 }
  predicate Writable(w: nat) { w / 2 % 2 == 1 }
  predicate User(w: nat) { w / 4 % 2 == 1 }
  predicate Huge(w: nat) { w / 0x80 % 2 == 1 }
  predicate NoExec(w: nat) { w / 0x8000_0000_0000_0000 % 2 == 1 }

  /** Bits 51..12: where the next table or the 4 KB page is. */
  function FrameBits(w: nat): nat { w / 0x1000 % 0x100_0000_0000 * 0x1000 }

  /** Bits 51..21: where the 2 MB page is. */
  function HugeBits(w: nat): nat { w / 0x20_0000 % 0x8000_0000 * 0x20_0000 }

  datatype Mapping = Unmapped | Mapped(pa: nat, rw: bool, us: bool, nx: bool)

  datatype Rights = Rights(rw: bool, us: bool, nx: bool)

  function RightsOf(w: nat): Rights { Rights(Writable(w), User(w), NoExec(w)) }

  function Both(a: Rights, b: Rights): Rights { Rights(a.rw && b.rw, a.us && b.us, a.nx || b.nx) }

  /** A mapping seen through an entry with the given rights. */
  function Through(r: Rights, m: Mapping): Mapping {
    match m
    case Unmapped => Unmapped
    case Mapped(pa, rw, us, nx) => Mapped(pa, rw && r.rw, us && r.us, nx || r.nx)
  }

  /** What a final entry maps: a 4 KB page at level 1, a 2 MB page at level 2. */
  function Leaf(w: nat, l: nat, va: nat): Mapping {
    var r := RightsOf(w);
    if l == 1 then Mapped(FrameBits(w) + va % 0x1000, r.rw, r.us, r.nx)
    else Mapped(HugeBits(w) + va % 0x20_0000, r.rw, r.us, r.nx)
  }

  predicate IsTable(mem: Mem, t: nat) { t in mem && |mem[t]| == 512 }

  function Entry(mem: Mem, t: nat, l: nat, va: nat): nat
    requires IsTable(mem, t)
  {
    mem[t][Index(va, l)]
  }

  /** The entry leads to a further table. */
  predicate Descends(w: nat, l: nat) { Present(w) && l > 1 && !(l == 2 && Huge(w)) }

  function Walk(mem: Mem, t: nat, l: nat, va: nat): Mapping
    decreases l
  {
    if l == 0 || !IsTable(mem, t) then Unmapped
    else
      var w := Entry(mem, t, l, va);
      if Descends(w, l) then Through(RightsOf(w), Walk(mem, FrameBits(w), l - 1, va))
      else if Present(w) then Leaf(w, l, va)
      else Unmapped
  }

  /** The words a walk reads. */
  ghost function Reads(mem: Mem, t: nat, l: nat, va: nat): set<(nat, nat)>
    decreases l
  {
    if l == 0 || !IsTable(mem, t) then {}
    else
      var w := Entry(mem, t, l, va);
      {(t, Index(va, l))} + if Descends(w, l) then Reads(mem, FrameBits(w), l - 1, va) else {}
  }

  /** The table a walk reaches at level `k`, and the rights collected on the way. */
  ghost function Reach(mem: Mem, t: nat, l: nat, va: nat, k: nat): Option<(nat, Rights)>
    decreases l
  {
    if l == 0 || !IsTable(mem, t) then None
    else if l == k then Some((t, Rights(true, true, false)))
    else
      var w := Entry(mem, t, l, va);
      if !Descends(w, l) then None
      else match Reach(mem, FrameBits(w), l - 1, va, k)
           case None => None
           case Some(x) => Some((x.0, Both(RightsOf(w), x.1)))
  }

  /** Every page has a level, and an entry that leads on leads one level down.
      There are no 1 GB pages. */
  ghost predicate Leveled(mem: Mem, lv: map<nat, nat>) {
    && lv.Keys == mem.Keys
    && (forall t :: t in mem ==> |mem[t]| == 512 && 1 <= lv[t] <= 4)
    && forall t, i :: t in mem && 0 <= i < 512 ==> EntryOk(lv, lv[t], mem[t][i])
  }

  ghost predicate EntryOk(lv: map<nat, nat>, l: nat, w: nat) {
    Descends(w, l) ==> w < 0x10_0000_0000_0000 && FrameBits(w) in lv && lv[FrameBits(w)] == l - 1
  }

  /** Tables reached from one root form a tree: a table is reached by one address prefix. */
  ghost predicate Tree(mem: Mem, root: nat) {
    forall k: nat, a: nat, b: nat ::
      SameTable(mem, root, k, a, b) && a < VA_LIMIT && b < VA_LIMIT ==> a / Span(k + 1) == b / Span(k + 1)
  }

  ghost predicate SameTable(mem: Mem, root: nat, k: nat, a: nat, b: nat) {
    && 1 <= k <= 4
    && Reach(mem, root, 4, a, k).Some? && Reach(mem, root, 4, b, k).Some?
    && Reach(mem, root, 4, a, k).value.0 == Reach(mem, root, 4, b, k).value.0
  }

  // ---- what a walk depends on ---------------------------------------------------------

  ghost predicate Agree(mem: Mem, mem': Mem, x: (nat, nat)) {
    IsTable(mem, x.0) && x.1 < 512 ==> IsTable(mem', x.0) && mem'[x.0][x.1] == mem[x.0][x.1]
  }

  /** A walk depends on the words it reads and on nothing else. */
  lemma {:induction false} WalkFrame(mem: Mem, mem': Mem, lv: map<nat, nat>, t: nat, l: nat, va: nat)
    requires Leveled(mem, lv) && t in mem && lv[t] == l
    requires forall x :: x in Reads(mem, t, l, va) ==> Agree(mem, mem', x)
    ensures Walk(mem', t, l, va) == Walk(mem, t, l, va)
    ensures Reads(mem', t, l, va) == Reads(mem, t, l, va)
    ensures forall k :: Reach(mem', t, l, va, k) == Reach(mem, t, l, va, k)
    decreases l
  {
    assert Agree(mem, mem', (t, Index(va, l)));
    var w := Entry(mem, t, l, va);
    assert EntryOk(lv, l, w);
    if Descends(w, l) {
      WalkFrame(mem, mem', lv, FrameBits(w), l - 1, va);
    }
  }

  /** A walk that reaches table `p` is the walk from `p` under the rights collected above. */
  lemma {:induction false} WalkVia(mem: Mem, lv: map<nat, nat>, t: nat, l: nat, va: nat, k: nat)
    requires Leveled(mem, lv) && t in mem && lv[t] == l && Reach(mem, t, l, va, k).Some?
    ensures var x := Reach(mem, t, l, va, k).value;
            && 1 <= k <= l && x.0 in mem && lv[x.0] == k
            && Walk(mem, t, l, va) == Through(x.1, Walk(mem, x.0, k, va))
    decreases l
  {
    if l != k {
      var w := Entry(mem, t, l, va);
      assert EntryOk(lv, l, w);
      WalkVia(mem, lv, FrameBits(w), l - 1, va, k);
    }
  }

  /** The walk reads word `i` of table `p` of level `k`. */
  ghost predicate Hits(mem: Mem, t: nat, l: nat, va: nat, p: nat, k: nat, i: nat) {
    Reach(mem, t, l, va, k).Some? && Reach(mem, t, l, va, k).value.0 == p && Index(va, k) == i
  }

  lemma {:induction false} ReadsHits(mem: Mem, lv: map<nat, nat>, t: nat, l: nat, va: nat, p: nat, i: nat)
    requires Leveled(mem, lv) && t in mem && lv[t] == l && (p, i) in Reads(mem, t, l, va)
    ensures p in mem && lv[p] <= l && Hits(mem, t, l, va, p, lv[p], i)
    decreases l
  {
    var w := Entry(mem, t, l, va);
    assert EntryOk(lv, l, w);
    if (p, i) != (t, Index(va, l)) {
      ReadsHits(mem, lv, FrameBits(w), l - 1, va, p, i);
    }
  }

  // ---- changing one word ----------------------------------------------------------------

  /** All old words but one are as before; pages may have been added. */
  ghost predicate Edit(mem: Mem, mem': Mem, p: nat, i: nat) {
    forall t, j :: t in mem && 0 <= j < 512 && (t, j) != (p, i) ==> Agree(mem, mem', (t, j))
  }

  /** Above the edited word's level nothing changes. */
  lemma {:induction false} EditReach(mem: Mem, mem': Mem, lv: map<nat, nat>, t: nat, l: nat, va: nat, p: nat, i: nat,
                                     k: nat)
    requires Leveled(mem, lv) && t in mem && lv[t] == l && p in mem && lv[p] <= k
    requires Edit(mem, mem', p, i) && IsTable(mem', p)
    ensures Reach(mem', t, l, va, k) == Reach(mem, t, l, va, k)
    decreases l
  {
    if l > k {
      assert Agree(mem, mem', (t, Index(va, l)));
      var w := Entry(mem, t, l, va);
      assert EntryOk(lv, l, w);
      if Descends(w, l) {
        EditReach(mem, mem', lv, FrameBits(w), l - 1, va, p, i, k);
      }
    } else if l == k {
      assert t != p ==> Agree(mem, mem', (t, 0));
    } else {
      ReachAbove(mem, lv, t, l, va, k);
      ReachAbove'(mem', t, l, va, k);
    }
  }

  lemma {:induction false} ReachAbove(mem: Mem, lv: map<nat, nat>, t: nat, l: nat, va: nat, k: nat)
    requires Leveled(mem, lv) && t in mem && lv[t] == l < k
    ensures Reach(mem, t, l, va, k) == None
  {
    ReachAbove'(mem, t, l, va, k);
  }

  lemma {:induction false} ReachAbove'(mem: Mem, t: nat, l: nat, va: nat, k: nat)
    requires l < k
    ensures Reach(mem, t, l, va, k) == None
    decreases l
  {
    if l > 0 && IsTable(mem, t) {
      ReachAbove'(mem, FrameBits(Entry(mem, t, l, va)), l - 1, va, k);
    }
  }

  /** An edit of word `i` of table `p` moves exactly the walks that read it, and those
      only as far as the walk from `p` moves. */
  lemma EditWalk(mem: Mem, mem': Mem, lv: map<nat, nat>, lv': map<nat, nat>, t: nat, l: nat, va: nat, p: nat, i: nat)
    requires Leveled(mem, lv) && Leveled(mem', lv') && t in mem && lv[t] == l && p in mem
    requires Edit(mem, mem', p, i) && t in mem' && lv'[t] == l && p in mem' && lv'[p] == lv[p]
    ensures !Hits(mem, t, l, va, p, lv[p], i) ==> Walk(mem', t, l, va) == Walk(mem, t, l, va)
    ensures Hits(mem, t, l, va, p, lv[p], i) ==>
              var r := Reach(mem, t, l, va, lv[p]).value.1;
              && Walk(mem, t, l, va) == Through(r, Walk(mem, p, lv[p], va))
              && Walk(mem', t, l, va) == Through(r, Walk(mem', p, lv[p], va))
  {
    var k := lv[p];
    if Hits(mem, t, l, va, p, k, i) {
      EditReach(mem, mem', lv, t, l, va, p, i, k);
      WalkVia(mem, lv, t, l, va, k);
      WalkVia(mem', lv', t, l, va, k);
    } else {
      forall x | x in Reads(mem, t, l, va) ensures Agree(mem, mem', x) {
        ReadsHits(mem, lv, t, l, va, x.0, x.1);
      }
      WalkFrame(mem, mem', lv, t, l, va);
    }
  }

  // ---- words as the kernel writes them -------------------------------------------------------

  /** `w & ~0xFFF`: how the kernel finds the next table. */
  function Ptr(w: nat): nat { w - w % 0x1000 }

  lemma PtrIsFrame(w: nat)
    requires w < 0x10_0000_0000_0000
    ensures Ptr(w) == FrameBits(w)
  {
  }

  /** `pa | 0x07` for a page-aligned address. */
  function TableWord(pa: nat): nat { pa + 7 }

  predicate PageAligned(pa: nat) { pa % 0x1000 == 0 && pa < 0x10_0000_0000_0000 }

  lemma {:induction false} TableWordFacts(pa: nat)
    requires PageAligned(pa)
    ensures var w := TableWord(pa);
            && Present(w) && !Huge(w) && RightsOf(w) == Rights(true, true, false)
            && FrameBits(w) == pa && w < 0x10_0000_0000_0000
  {
  }

  /** A cleared page. */
  function Zeros(): (s: seq<nat>)
    ensures |s| == 512 && forall i :: 0 <= i < 512 ==> s[i] == 0
  {
    seq(512, _ => 0)
  }
}
