/** Loading a Mach-O file into fresh 2 MB pages of another address space. */
module MachOPaged {
  import opened MachineWords
  import opened Sequences
  import opened Arithmetic
  import opened Frames
  import opened Tiling
  import opened Buddy
  import BuddyState
  import opened Paging
  import opened PagingEdits
  import opened PageTables
  import opened ByteMemory
  import opened MachO

  const PAGE: nat := 0x20_0000

  // ---- a 2 MB block ----------------------------------------------------------------------------------

  lemma {:induction false} Pow9()
    ensures Pow2(9) == 512
  {
    assert Pow2(3) == 8;
    assert Pow2(6) == 64;
  }

  /** An order-9 block of the heap starts on a 2 MB boundary. */
  lemma {:induction false} BlockAligned(p: nat)
    requires HeapPage(p) && Aligned(FrameOf(p), 9)
    ensures p % PAGE == 0
  {
    var h := FrameOf(p);
    ShrValue(h, 9);
    Pow9();
    assert p == HEAP_PHYS + h * 0x1000;
    assert p == (5 + Shr(h, 9)) * PAGE;
    ModShift(5 + Shr(h, 9), 0, PAGE);
  }

  lemma {:induction false} OrderOf2M()
    ensures OrderFor(PAGE) == 9
  {
    Pow9();
    assert Pow2(8) == 256;
    var o := OrderFor(PAGE);
    if o < 9 { Pow2Mono(o, 8); }
    if o > 9 { Pow2Mono(9, o - 1); }
  }

  /** The 2 MB at `p` are not allocated. */
  ghost predicate HugeFree(al: map<nat, Allocation>, p: nat) {
    HeapPage(p) && Aligned(FrameOf(p), 9) && RunFree(al, FrameOf(p), 9)
  }

  /** The 2 MB at `p` are one allocation. */
  ghost predicate HugeBlock(al: map<nat, Allocation>, p: nat) {
    && HeapPage(p) && p % PAGE == 0 && Aligned(FrameOf(p), 9)
    && FrameOf(p) in al && al[FrameOf(p)].order == 9
  }

  /** Nothing was given back. */
  ghost predicate Extends(al: map<nat, Allocation>, al': map<nat, Allocation>) {
    forall h :: h in al ==> h in al' && al'[h] == al[h]
  }

  /** Address `b` is not the heap's to give out: it lies outside the heap or in an allocated block. */
  ghost predicate Held(al: map<nat, Allocation>, b: nat) {
    b < HEAP_PHYS || HEAP_PHYS + HEAP_SIZE <= b || Busy(al, FrameOf(b))
  }

  /** Every byte of an allocated 2 MB block is held. */
  lemma {:induction false} HugeHeld(al: map<nat, Allocation>, p: nat, i: nat)
    requires HugeBlock(al, p) && i < PAGE
    ensures Held(al, p + i)
  {
    var h, f := FrameOf(p), FrameOf(p + i);
    Pow9();
    assert p == HEAP_PHYS + h * FRAME_SIZE;
    assert h <= f < h + 512;
    RunIsInterval(f, h, 9);
  }

  /** No held byte lies in free 2 MB. */
  lemma {:induction false} HeldOutside(al: map<nat, Allocation>, p: nat, b: nat)
    requires HugeFree(al, p) && Held(al, b) && p + PAGE <= HEAP_PHYS + HEAP_SIZE
    ensures b < p || p + PAGE <= b
  {
    if p <= b < p + PAGE {
      var h, f := FrameOf(p), FrameOf(b);
      Pow9();
      assert p == HEAP_PHYS + h * FRAME_SIZE;
      assert h <= f < h + 512;
      RunIsInterval(f, h, 9);
    }
  }

  lemma {:induction false} HugeInHeap(p: nat)
    requires HeapPage(p) && p % PAGE == 0
    ensures p + PAGE <= HEAP_PHYS + HEAP_SIZE
  {
    assert HEAP_PHYS % PAGE == 0 && HEAP_SIZE % PAGE == 0;
  }

  lemma {:induction false} HeldStays(al: map<nat, Allocation>, al': map<nat, Allocation>, b: nat)
    requires Extends(al, al') && Held(al, b)
    ensures Held(al', b)
  {
    if HEAP_PHYS <= b < HEAP_PHYS + HEAP_SIZE {
      var h :| h in al && InRun(FrameOf(b), h, al[h].order);
      assert h in al' && al'[h] == al[h];
    }
  }

  /** A block of 2 MB, aligned, holding no table. */
  method NewHugePage(m: PageMemory) returns (p: nat)
    requires m.Valid()
    modifies m.buddy.Repr()
    ensures m.Valid()
    ensures p != 0 ==> HugeFree(old(m.buddy.Live()), p) && HugeBlock(m.buddy.Live(), p)
    ensures p != 0 ==> forall t :: t in m.tables && HeapPage(t) ==> t < p || p + PAGE <= t
    ensures Extends(old(m.buddy.Live()), m.buddy.Live())
    ensures p == 0 <==> !RunAvailable(old(m.buddy.Live()), 9)
    ensures p == 0 ==> m.buddy.Live() == old(m.buddy.Live())
  {
    hide BuddyState.Inv, NoHand, Leveled, RunAvailable;
    OrderOf2M();
    ghost var al := m.buddy.Live();
    p := m.buddy.MmapUser(PAGE);
    if p != 0 {
      BlockAligned(p);
      forall t | t in m.tables && HeapPage(t) ensures t < p || p + PAGE <= t { TableOutside(al, p, t); }
    }
  }

  lemma {:induction false} TableOutside(al: map<nat, Allocation>, p: nat, t: nat)
    requires HeapPage(p) && HeapPage(t) && FrameOf(t) in al && Aligned(FrameOf(p), 9) && RunFree(al, FrameOf(p), 9)
    ensures t < p || p + PAGE <= t
  {
    var h, f := FrameOf(p), FrameOf(t);
    Pow9();
    RunIsInterval(f, h, 9);
    assert InRun(f, f, al[f].order);
    assert Busy(al, f);
    assert f < FRAME_COUNT;
  }

  // ---- a segment ---------------------------------------------------------------------------------------

  /** The byte a segment puts at `a`: file contents, zero around them. */
  function Image(dst: nat, file: seq<nat>, a: nat): nat {
    if dst <= a < dst + |file| then file[a - dst] else 0
  }

  /** Address `a` translates into the block `p` and reads the image's byte. */
  ghost predicate Shows(tables: Mem, bytes: Bytes, root: nat, dst: nat, file: seq<nat>, p: nat, a: nat) {
    && Walk(tables, root, 4, a).Mapped? && Walk(tables, root, 4, a).pa == p + a % PAGE
    && p + a % PAGE in bytes && bytes[p + a % PAGE] == Image(dst, file, a)
  }

  ghost predicate PageAt(tables: Mem, al: map<nat, Allocation>, bytes: Bytes, root: nat, dst: nat, file: seq<nat>,
                         v: nat, p: nat)
  {
    && HugeBlock(al, p)
    && forall a: nat :: v <= a < v + PAGE ==> Shows(tables, bytes, root, dst, file, p, a)
  }

  ghost predicate PageIn(tables: Mem, al: map<nat, Allocation>, bytes: Bytes, root: nat, dst: nat, file: seq<nat>,
                         v: nat)
  {
    exists p: nat :: PageAt(tables, al, bytes, root, dst, file, v, p)
  }

  /** Memory after the block `p` was cleared and, for the first page, the file copied into it. */
  ghost function Filled(m: Bytes, p: nat, v: nat, dst: nat, file: seq<nat>): Bytes {
    var z := Overlay(m, p, ZeroBytes(PAGE));
    if v == dst - dst % PAGE then Overlay(z, p + dst % PAGE, file) else z
  }

  /** The bytes in the new block. */
  lemma {:induction false} BlockBytes(m: Bytes, p: nat, v: nat, dst: nat, file: seq<nat>, a: nat)
    requires p % PAGE == 0 && v % PAGE == 0 && v <= a < v + PAGE && dst % PAGE + |file| <= PAGE
    ensures var r := Filled(m, p, v, dst, file); p + a % PAGE in r && r[p + a % PAGE] == Image(dst, file, a)
  {
    hide Overlay, ZeroBytes;
    ModUnique(a, PAGE, v / PAGE, a - v);
    assert a % PAGE == a - v;
    assert dst - dst % PAGE <= dst < dst - dst % PAGE + PAGE;
  }

  /** Storing into one block leaves the rest of memory alone. */
  lemma {:induction false} OtherByte(m: Bytes, p: nat, v: nat, dst: nat, file: seq<nat>, b: nat)
    requires (b < p || p + PAGE <= b) && dst % PAGE + |file| <= PAGE
    ensures SameByte(m, Filled(m, p, v, dst, file), b)
  {
    hide Overlay, ZeroBytes;
  }

  /** Where the file part of a segment is longer: the copy into the first block runs on into the memory behind it,
      whatever that is, and the segment's later pages show zeros. */
  lemma {:induction false} PastFirstPage(m: Bytes, p: nat, v: nat, dst: nat, file: seq<nat>, j: nat)
    requires j < |file| && dst % PAGE + j >= PAGE
    ensures var r := Filled(m, p, Floor(dst), dst, file);
            p + dst % PAGE + j >= p + PAGE && p + dst % PAGE + j in r && r[p + dst % PAGE + j] == file[j]
    ensures v > Floor(dst) ==> var r := Filled(m, p, v, dst, file);
              forall b: nat :: p <= b < p + PAGE ==> b in r && r[b] == 0
  {
    hide Overlay, ZeroBytes;
  }

  /** Every byte outside the heap and every byte of a block that was already allocated is as before. */
  ghost predicate BlocksKept(al: map<nat, Allocation>, m: Bytes, m': Bytes) {
    forall b: nat :: Held(al, b) ==> SameByte(m, m', b)
  }

  ghost predicate SameByte(m: Bytes, m': Bytes, b: nat) { (b in m' <==> b in m) && (b in m ==> m'[b] == m[b]) }

  /** Translations of other 2 MB regions are as before. */
  ghost predicate RegionsKept(tables: Mem, tables': Mem, root: nat, lo: nat, hi: nat) {
    forall a: nat :: a < VA_LIMIT && !(lo <= a < hi) ==> Walk(tables', root, 4, a) == Walk(tables, root, 4, a)
  }

  lemma {:induction false} RegionOf(a: nat, v: nat)
    requires v % PAGE == 0
    ensures a / PAGE == v / PAGE <==> v <= a < v + PAGE
  {
  }

  ghost predicate Backs(tables: Mem, root: nat, v: nat, p: nat) {
    forall a: nat :: v <= a < v + PAGE ==>
      Walk(tables, root, 4, a).Mapped? && Walk(tables, root, 4, a).pa == p + a % PAGE
  }

  /** No 2 MB block is free, or no directory is reached for some page of `[lo, hi)`. */
  ghost predicate CannotMap(tables: Mem, al: map<nat, Allocation>, root: nat, lo: nat, hi: nat) {
    !RunAvailable(al, 9) || exists v: nat :: lo <= v < hi && NoDirectory(tables, root, v)
  }

  ghost predicate NoDirectory(tables: Mem, root: nat, v: nat) { Reach(tables, root, 4, v, 2).None? }

  /** A fresh block mapped at `v`. */
  method MapPage(m: PageMemory, root: nat, v: nat) returns (ok: bool, p: nat)
    requires m.Valid() && m.Root(root) && Tree(m.tables, root) && v % PAGE == 0 && v + PAGE <= VA_LIMIT
    modifies m`tables, m.buddy.Repr()
    ensures m.Valid() && m.Root(root) && Tree(m.tables, root) && Extends(old(m.buddy.Live()), m.buddy.Live())
    ensures ok ==> HugeFree(old(m.buddy.Live()), p) && HugeBlock(m.buddy.Live(), p)
    ensures ok ==> Backs(m.tables, root, v, p)
    ensures RegionsKept(old(m.tables), m.tables, root, v, v + PAGE)
    ensures !ok ==> CannotMap(m.tables, m.buddy.Live(), root, v, v + PAGE)
  {
    hide BuddyState.Inv, NoHand, Leveled, Tree, Walk, LocalTo, Reach, RunAvailable, Extends, HugeFree;
    p := NewHugePage(m);
    if p == 0 { return false, p; }
    var r := m.Map2M(root, v, p);
    forall a: nat ensures a / PAGE == v / PAGE <==> v <= a < v + PAGE { RegionOf(a, v); }
    ok := r == 0;
    assert !ok ==> NoDirectory(m.tables, root, v);
  }

  /** Clears the block, and copies the file into it when it is the segment's first. */
  method FillPage(ram: Ram, p: nat, v: nat, dst: nat, file: seq<nat>, ghost al: map<nat, Allocation>)
    requires HugeFree(al, p) && p % PAGE == 0 && v % PAGE == 0 && dst % PAGE + |file| <= PAGE
    modifies ram
    ensures forall a: nat :: v <= a < v + PAGE ==>
              p + a % PAGE in ram.bytes && ram.bytes[p + a % PAGE] == Image(dst, file, a)
    ensures BlocksKept(al, old(ram.bytes), ram.bytes)
  {
    FilledAll(ram.bytes, p, v, dst, file, al);
    hide Image, SameByte, BlocksKept, Filled, HugeFree;
    StorePage(ram, p, v, dst, file);
  }

  method StorePage(ram: Ram, p: nat, v: nat, dst: nat, file: seq<nat>)
    modifies ram
    ensures ram.bytes == Filled(old(ram.bytes), p, v, dst, file)
  {
    ram.Clear(p, p + PAGE);
    if v == dst - dst % PAGE { ram.Copy(p + dst % PAGE, file); }
    hide Overlay, ZeroBytes;
  }

  lemma {:induction false} FilledAll(b: Bytes, p: nat, v: nat, dst: nat, file: seq<nat>, al: map<nat, Allocation>)
    requires HugeFree(al, p) && p % PAGE == 0 && v % PAGE == 0 && dst % PAGE + |file| <= PAGE
    ensures var r := Filled(b, p, v, dst, file);
            forall a: nat :: v <= a < v + PAGE ==> p + a % PAGE in r && r[p + a % PAGE] == Image(dst, file, a)
    ensures BlocksKept(al, b, Filled(b, p, v, dst, file))
  {
    HugeInHeap(p);
    hide Image, SameByte, Filled, HugeFree, Held;
    var r := Filled(b, p, v, dst, file);
    forall a: nat | v <= a < v + PAGE ensures p + a % PAGE in r && r[p + a % PAGE] == Image(dst, file, a) {
      BlockBytes(b, p, v, dst, file, a);
    }
    forall x: nat | Held(al, x) ensures SameByte(b, r, x) {
      HeldOutside(al, p, x);
      OtherByte(b, p, v, dst, file, x);
    }
  }

  /** One page: a fresh block, mapped, cleared, and filled when it is the first of the segment. */
  method LoadPage(m: PageMemory, ram: Ram, root: nat, v: nat, dst: nat, file: seq<nat>) returns (ok: bool)
    requires m.Valid() && m.Root(root) && Tree(m.tables, root) && v % PAGE == 0 && v + PAGE <= VA_LIMIT
    requires dst % PAGE + |file| <= PAGE
    modifies m`tables, m.buddy.Repr(), ram
    ensures m.Valid() && m.Root(root) && Tree(m.tables, root)
    ensures ok ==> PageIn(m.tables, m.buddy.Live(), ram.bytes, root, dst, file, v)
    ensures !ok ==> CannotMap(m.tables, m.buddy.Live(), root, v, v + PAGE)
    ensures RegionsKept(old(m.tables), m.tables, root, v, v + PAGE)
    ensures BlocksKept(old(m.buddy.Live()), old(ram.bytes), ram.bytes)
    ensures Extends(old(m.buddy.Live()), m.buddy.Live())
  {
    hide BuddyState.Inv, NoHand, Leveled, Tree, Walk, Image, CannotMap, Extends, HugeFree, BlocksKept,
         RegionsKept;
    KeptSame(m.buddy.Live(), ram.bytes);
    var p;
    ok, p := MapPage(m, root, v);
    if ok {
      FillPage(ram, p, v, dst, file, old(m.buddy.Live()));
      forall a: nat | v <= a < v + PAGE ensures Shows(m.tables, ram.bytes, root, dst, file, p, a) { }
      assert PageAt(m.tables, m.buddy.Live(), ram.bytes, root, dst, file, v, p);
    }
  }

  /** A loaded page stays loaded when another one is. */
  lemma {:induction false} PageStays(tables: Mem, tables': Mem, al: map<nat, Allocation>, al': map<nat, Allocation>,
                                     bytes: Bytes, bytes': Bytes, root: nat, dst: nat, file: seq<nat>, v: nat, lo: nat,
                                     hi: nat)
    requires PageIn(tables, al, bytes, root, dst, file, v) && v % PAGE == 0 && v + PAGE <= VA_LIMIT
    requires (v + PAGE <= lo || hi <= v) && Extends(al, al')
    requires RegionsKept(tables, tables', root, lo, hi) && BlocksKept(al, bytes, bytes')
    ensures PageIn(tables', al', bytes', root, dst, file, v)
  {
    hide Walk, Image;
    var p: nat :| PageAt(tables, al, bytes, root, dst, file, v, p);
    forall a: nat | v <= a < v + PAGE ensures Shows(tables', bytes', root, dst, file, p, a) {
      assert Shows(tables, bytes, root, dst, file, p, a);
      HugeHeld(al, p, a % PAGE);
      assert SameByte(bytes, bytes', p + a % PAGE);
    }
    assert PageAt(tables', al', bytes', root, dst, file, v, p);
  }

  /** Pages `lo..hi` show the segment. */
  ghost predicate PagesIn(tables: Mem, al: map<nat, Allocation>, bytes: Bytes, root: nat, dst: nat, file: seq<nat>,
                          lo: nat, hi: nat)
  {
    forall v: nat :: lo <= v < hi && v % PAGE == 0 ==> PageIn(tables, al, bytes, root, dst, file, v)
  }

  function Floor(a: nat): nat { a - a % PAGE }

  function Ceil(a: nat): nat { Floor(a + PAGE - 1) }

  /** The tables are well formed, and a tree from `root`. */
  ghost predicate Ready(m: PageMemory, root: nat)
    reads m.Repr()
  {
    m.Valid() && m.Root(root) && Tree(m.tables, root)
  }

  /** The pages of one segment, in order of address. */
  method LoadSegmentInto(m: PageMemory, ram: Ram, root: nat, dst: nat, vmsize: nat, file: seq<nat>) returns (ok: bool)
    requires Ready(m, root) && dst + vmsize + PAGE <= VA_LIMIT
    requires dst % PAGE + |file| <= PAGE
    modifies m`tables, m.buddy.Repr(), ram
    ensures Ready(m, root)
    ensures ok ==> PagesIn(m.tables, m.buddy.Live(), ram.bytes, root, dst, file, Floor(dst), Ceil(dst + vmsize))
    ensures !ok ==> CannotMap(m.tables, m.buddy.Live(), root, Floor(dst), Ceil(dst + vmsize))
    ensures SegmentKept(old(m.tables), old(m.buddy.Live()), old(ram.bytes), m.tables, m.buddy.Live(), ram.bytes, root,
                        Floor(dst), Ceil(dst + vmsize))
  {
    hide *;
    var va, end := Floor(dst), Ceil(dst + vmsize);
    ghost var t0, al0, b0 := m.tables, m.buddy.Live(), ram.bytes;
    Rounded(dst, vmsize);
    SegmentStart(t0, al0, b0, root, dst, file, va, end);
    while va < end
      invariant va % PAGE == 0 && Floor(dst) <= va <= end && Ready(m, root)
      invariant PagesIn(m.tables, m.buddy.Live(), ram.bytes, root, dst, file, Floor(dst), va)
      invariant SegmentKept(t0, al0, b0, m.tables, m.buddy.Live(), ram.bytes, root, Floor(dst), end)
    {
      NextPage(va, end);
      ok := StepSegment(m, ram, root, va, dst, file, t0, al0, b0, end);
      if !ok { return false; }
      va := va + PAGE;
    }
    ok := true;
  }

  /** Addresses outside the segment and blocks held before are untouched, and none was given back. */
  ghost predicate SegmentKept(t0: Mem, al0: map<nat, Allocation>, b0: Bytes, t: Mem, al: map<nat, Allocation>, b: Bytes,
                              root: nat, lo: nat, hi: nat)
  {
    RegionsKept(t0, t, root, lo, hi) && BlocksKept(al0, b0, b) && Extends(al0, al)
  }

  lemma {:induction false} SegmentStart(tables: Mem, al: map<nat, Allocation>, bytes: Bytes, root: nat, dst: nat,
                                        file: seq<nat>, va: nat, end: nat)
    ensures SegmentKept(tables, al, bytes, tables, al, bytes, root, va, end)
    ensures PagesIn(tables, al, bytes, root, dst, file, va, va)
  {
    KeptSame(al, bytes);
  }

  lemma {:induction false} Rounded(dst: nat, vmsize: nat)
    ensures Floor(dst) % PAGE == 0 && Ceil(dst + vmsize) % PAGE == 0
    ensures Floor(dst) <= dst < Floor(dst) + PAGE
    ensures Floor(dst) <= dst + vmsize <= Ceil(dst + vmsize) < dst + vmsize + PAGE
  {
  }

  lemma {:induction false} NextPage(va: nat, end: nat)
    requires va % PAGE == 0 && end % PAGE == 0 && va < end
    ensures va + PAGE <= end && (va + PAGE) % PAGE == 0
  {
  }

  lemma {:induction false} KeptSame(al: map<nat, Allocation>, m: Bytes)
    ensures BlocksKept(al, m, m)
  {
  }

  method StepSegment(m: PageMemory, ram: Ram, root: nat, va: nat, dst: nat, file: seq<nat>, ghost tables0: Mem,
                     ghost al0: map<nat, Allocation>, ghost bytes0: Bytes, ghost end: nat) returns (ok: bool)
    requires Ready(m, root) && va % PAGE == 0 && va + PAGE <= VA_LIMIT
    requires dst % PAGE + |file| <= PAGE && Floor(dst) <= va && va + PAGE <= end
    requires PagesIn(m.tables, m.buddy.Live(), ram.bytes, root, dst, file, Floor(dst), va)
    requires SegmentKept(tables0, al0, bytes0, m.tables, m.buddy.Live(), ram.bytes, root, Floor(dst), end)
    modifies m`tables, m.buddy.Repr(), ram
    ensures Ready(m, root)
    ensures ok ==> PagesIn(m.tables, m.buddy.Live(), ram.bytes, root, dst, file, Floor(dst), va + PAGE)
    ensures !ok ==> CannotMap(m.tables, m.buddy.Live(), root, Floor(dst), end)
    ensures SegmentKept(tables0, al0, bytes0, m.tables, m.buddy.Live(), ram.bytes, root, Floor(dst), end)
  {
    hide BuddyState.Inv, NoHand, Leveled, Tree, Walk, PageIn, SameByte, CannotMap;
    ok := LoadPage(m, ram, root, va, dst, file);
    if !ok { CannotWiden(m.tables, m.buddy.Live(), root, va, va + PAGE, Floor(dst), end); }
    KeptTwice(al0, old(m.buddy.Live()), bytes0, old(ram.bytes), ram.bytes);
    RegionsTwice(tables0, old(m.tables), m.tables, root, Floor(dst), end, va);
    forall v: nat | Floor(dst) <= v < va && v % PAGE == 0
      ensures PageIn(m.tables, m.buddy.Live(), ram.bytes, root, dst, file, v)
    {
      PageStays(old(m.tables), m.tables, old(m.buddy.Live()), m.buddy.Live(), old(ram.bytes), ram.bytes, root, dst,
                file, v, va, va + PAGE);
    }
  }

  lemma {:induction false} CannotWiden(tables: Mem, al: map<nat, Allocation>, root: nat, lo: nat, hi: nat, lo': nat,
                                       hi': nat)
    requires CannotMap(tables, al, root, lo, hi) && lo' <= lo && hi <= hi'
    ensures CannotMap(tables, al, root, lo', hi')
  {
  }

  lemma {:induction false} RegionsTwice(t0: Mem, t1: Mem, t2: Mem, root: nat, lo: nat, hi: nat, va: nat)
    requires RegionsKept(t0, t1, root, lo, hi) && RegionsKept(t1, t2, root, va, va + PAGE) && lo <= va
    requires va + PAGE <= hi
    ensures RegionsKept(t0, t2, root, lo, hi)
  {
    hide Walk;
  }

  lemma {:induction false} KeptTwice(al: map<nat, Allocation>, al1: map<nat, Allocation>, m: Bytes, m1: Bytes,
                                     m2: Bytes)
    requires BlocksKept(al, m, m1) && BlocksKept(al1, m1, m2) && Extends(al, al1)
    ensures BlocksKept(al, m, m2)
  {
    hide Held, Extends;
    forall b: nat | Held(al, b) ensures SameByte(m, m2, b) {
      HeldStays(al, al1, b);
      assert SameByte(m, m1, b) && SameByte(m1, m2, b);
    }
  }

  // ---- the whole file ----------------------------------------------------------------------------------------

  /** The command lies in the file; a segment's file part fits in its first 2 MB page. */
  ghost predicate PagedCommandFits(data: seq<nat>, off: nat) {
    && CommandFits(data, off)
    && (Word(data, off, 4) == LC_SEGMENT ==>
          && Word(data, off + 24, 8) + Word(data, off + 32, 8) + PAGE <= VA_LIMIT
          && Word(data, off + 24, 8) % PAGE + Word(data, off + 48, 8) <= PAGE)
  }

  ghost predicate PagedFits(data: seq<nat>, off: nat, n: nat)
    decreases n
  {
    n > 0 ==> PagedCommandFits(data, off) && PagedFits(data, off + Word(data, off + 4, 4), n - 1)
  }

  /** Every address of the packed code's 2 MB page shows the code followed by zeros. */
  ghost predicate CodeSeen(tables: Mem, al: map<nat, Allocation>, bytes: Bytes, root: nat, code: seq<nat>) {
    PageIn(tables, al, bytes, root, BASE, code, BASE)
  }

  lemma {:induction false} CodeVisible(tables: Mem, al: map<nat, Allocation>, bytes: Bytes, root: nat, code: seq<nat>,
                                       a: nat)
    requires CodeSeen(tables, al, bytes, root, code) && BASE <= a < BASE + PAGE
    ensures var w := Walk(tables, root, 4, a);
            w.Mapped? && w.pa in bytes && bytes[w.pa] == if a < BASE + |code| then code[a - BASE] else 0
  {
    hide Walk;
    var p: nat :| PageAt(tables, al, bytes, root, BASE, code, BASE, p);
    assert Shows(tables, bytes, root, BASE, code, p, a);
  }

  /** `a` lies in a page of the segment that the command at `off` loads. */
  ghost predicate SegmentCovers(data: seq<nat>, off: nat, a: nat)
    requires PagedCommandFits(data, off)
  {
    && Word(data, off, 4) == LC_SEGMENT && Word(data, off + 48, 8) > 0
    && Floor(Word(data, off + 24, 8)) <= a < Ceil(Word(data, off + 24, 8) + Word(data, off + 32, 8))
  }

  /** `a` lies in a page of a segment that one of the `n` commands from `off` on loads. */
  ghost predicate Covered(data: seq<nat>, off: nat, n: nat, a: nat)
    requires PagedFits(data, off, n)
    decreases n
  {
    n > 0 && (SegmentCovers(data, off, a) || Covered(data, off + Word(data, off + 4, 4), n - 1, a))
  }

  /** Addresses the command does not load keep their translation. */
  ghost predicate CommandKeeps(tables: Mem, tables': Mem, root: nat, data: seq<nat>, off: nat)
    requires PagedCommandFits(data, off)
  {
    forall a: nat :: a < VA_LIMIT && !SegmentCovers(data, off, a) ==>
      Walk(tables', root, 4, a) == Walk(tables, root, 4, a)
  }

  /** The command cannot be carried out: no 2 MB block is free, or no directory is reached for a page of it. */
  ghost predicate CommandStuck(tables: Mem, al: map<nat, Allocation>, root: nat, data: seq<nat>, off: nat)
    requires PagedCommandFits(data, off)
  {
    !RunAvailable(al, 9) || exists v: nat :: SegmentCovers(data, off, v) && NoDirectory(tables, root, v)
  }

  lemma {:induction false} CommandIdle(tables: Mem, root: nat, data: seq<nat>, off: nat)
    requires PagedCommandFits(data, off)
    ensures CommandKeeps(tables, tables, root, data, off)
  {
  }

  lemma {:induction false} SegmentEffect(tables: Mem, tables': Mem, al: map<nat, Allocation>, root: nat, data: seq<nat>,
                                         off: nat, lo: nat, hi: nat, ok: bool)
    requires PagedCommandFits(data, off) && Word(data, off, 4) == LC_SEGMENT && Word(data, off + 48, 8) > 0
    requires lo == Floor(Word(data, off + 24, 8)) && hi == Ceil(Word(data, off + 24, 8) + Word(data, off + 32, 8))
    requires RegionsKept(tables, tables', root, lo, hi) && (!ok ==> CannotMap(tables', al, root, lo, hi))
    ensures CommandKeeps(tables, tables', root, data, off) && (!ok ==> CommandStuck(tables', al, root, data, off))
  {
    hide Walk, Word, Floor, Ceil, PagedCommandFits, NoDirectory, RunAvailable;
    if !ok && RunAvailable(al, 9) {
      var v: nat :| lo <= v < hi && NoDirectory(tables', root, v);
      assert SegmentCovers(data, off, v);
    }
  }

  lemma {:induction false} SegmentWords(data: seq<nat>, off: nat, base: nat, slide: nat)
    requires Octets(data) && PagedCommandFits(data, off) && Word(data, off, 4) == LC_SEGMENT && base == slide
    ensures off + 72 <= |data| && Word(data, off + 24, 8) < W64
    ensures Wrap(Word(data, off + 24, 8) - base + slide) == Word(data, off + 24, 8)
    ensures Wrap(Word(data, off + 24, 8) - Word(data, off + 24, 8) + Word(data, off + 24, 8)) == Word(data, off + 24, 8)
  {
    AtBound(data, off + 24, 8);
    Powers();
  }

  /** The pages of the segment at `off`. */
  method LoadSegmentAt(m: PageMemory, ram: Ram, root: nat, data: seq<nat>, off: nat, dst: nat) returns (ok: bool)
    requires PagedCommandFits(data, off) && Word(data, off, 4) == LC_SEGMENT
    requires Word(data, off + 48, 8) > 0 && dst == Word(data, off + 24, 8)
    requires m.Valid() && m.Root(root) && Tree(m.tables, root)
    modifies m`tables, m.buddy.Repr(), ram
    ensures m.Valid() && m.Root(root) && Tree(m.tables, root)
    ensures ok ==> var o, n := Word(data, off + 40, 8), Word(data, off + 48, 8);
                   var end := Ceil(dst + Word(data, off + 32, 8));
                   PagesIn(m.tables, m.buddy.Live(), ram.bytes, root, dst, data[o..o + n], Floor(dst), end)
    ensures CommandKeeps(old(m.tables), m.tables, root, data, off)
    ensures BlocksKept(old(m.buddy.Live()), old(ram.bytes), ram.bytes)
    ensures Extends(old(m.buddy.Live()), m.buddy.Live())
    ensures !ok ==> CommandStuck(m.tables, m.buddy.Live(), root, data, off)
  {
    hide Num, BuddyState.Inv, NoHand, Leveled, Tree, PagesIn, Floor, Ceil, Walk, SegmentCovers, CommandStuck,
         BlocksKept, CannotMap,
         RegionsKept, CommandKeeps, Hosted;
    var vmsize := Word(data, off + 32, 8);
    var fileoff, filesize := Word(data, off + 40, 8), Word(data, off + 48, 8);
    ok := LoadSegmentInto(m, ram, root, dst, vmsize, data[fileoff..fileoff + filesize]);
    SegmentEffect(old(m.tables), m.tables, m.buddy.Live(), root, data, off, Floor(dst), Ceil(dst + vmsize), ok);
  }

  /** What carrying out the command at `off` did. */
  ghost predicate CommandDone(t0: Mem, al0: map<nat, Allocation>, b0: Bytes, t: Mem, al: map<nat, Allocation>, b: Bytes,
                              root: nat, data: seq<nat>, off: nat, ok: bool, base: nat, slide: nat, entry: nat,
                              base': nat, slide': nat, entry': nat)
    requires PagedCommandFits(data, off)
  {
    && base' == slide' < W64
    && (ok && Word(data, off, 4) == LC_SEGMENT && Word(data, off + 48, 8) > 0 ==>
          var dst, vmsize := Word(data, off + 24, 8), Word(data, off + 32, 8);
          var o, n := Word(data, off + 40, 8), Word(data, off + 48, 8);
          && base' == (if base == 0 then dst else base) && entry' == entry
          && PagesIn(t, al, b, root, dst, data[o..o + n], Floor(dst), Ceil(dst + vmsize)))
    && (Word(data, off, 4) == LC_MAIN ==>
          && ok && base' == base && entry' == Wrap(slide + Word(data, off + 8, 8)) && t == t0 && al == al0 && b == b0)
    && CommandKeeps(t0, t, root, data, off) && BlocksKept(al0, b0, b) && Extends(al0, al)
    && (!ok ==> CommandStuck(t, al, root, data, off))
  }

  method LoadCommandInto(m: PageMemory, ram: Ram, root: nat, data: seq<nat>, off: nat, base: nat, slide: nat,
                         entry: nat)
    returns (ok: bool, base': nat, slide': nat, entry': nat)
    requires Octets(data) && PagedCommandFits(data, off) && base == slide < W64 && Ready(m, root)
    modifies m`tables, m.buddy.Repr(), ram
    ensures Ready(m, root)
    ensures CommandDone(old(m.tables), old(m.buddy.Live()), old(ram.bytes), m.tables, m.buddy.Live(), ram.bytes, root,
                        data, off, ok, base, slide, entry, base', slide', entry')
  {
    ok, base', slide', entry' := true, base, slide, entry;
    KeptSame(m.buddy.Live(), ram.bytes);
    CommandIdle(m.tables, root, data, off);
    hide Num, BuddyState.Inv, NoHand, Leveled, Tree, PagesIn, Floor, Ceil, Walk, SegmentCovers, CommandStuck,
         BlocksKept, CannotMap,
         RegionsKept, CommandKeeps, Hosted, Octets;
    var cmd := Word(data, off, 4);
    if cmd == LC_SEGMENT {
      SegmentWords(data, off, base, slide);
      var vmaddr, filesize := Word(data, off + 24, 8), Word(data, off + 48, 8);
      if filesize > 0 {
        if base' == 0 { base', slide' := vmaddr, vmaddr; }
        var dst := Wrap(vmaddr - base' + slide');
        ok := LoadSegmentAt(m, ram, root, data, off, dst);
      }
    } else if cmd == LC_MAIN {
      entry' := Wrap(slide' + Word(data, off + 8, 8));
    } else if cmd == LC_UNIXTHREAD {
      var e := Word(data, off + 48, 8);
      entry' := if base' != 0 then Wrap(e - base' + slide') else e;
    }
  }

  /** The commands carried out so far left everything outside the segments alone; those from `off` on, `k` of
      them, are among the file's `n`. */
  ghost predicate Going(tables0: Mem, al0: map<nat, Allocation>, bytes0: Bytes, tables: Mem, al: map<nat, Allocation>,
                        bytes: Bytes, root: nat, data: seq<nat>, n: nat, off: nat, k: nat)
  {
    && PagedFits(data, 32, n) && PagedFits(data, off, k)
    && (forall a: nat :: Covered(data, off, k, a) ==> Covered(data, 32, n, a))
    && (forall a: nat :: a < VA_LIMIT && !Covered(data, 32, n, a) ==>
         Walk(tables, root, 4, a) == Walk(tables0, root, 4, a))
    && BlocksKept(al0, bytes0, bytes) && Extends(al0, al)
  }

  /** Some command of the file cannot be carried out. */
  ghost predicate Stuck(tables: Mem, al: map<nat, Allocation>, root: nat, data: seq<nat>, n: nat) {
    && PagedFits(data, 32, n)
    && (!RunAvailable(al, 9) || exists v: nat :: Covered(data, 32, n, v) && NoDirectory(tables, root, v))
  }

  lemma {:induction false} GoingStart(tables: Mem, al: map<nat, Allocation>, bytes: Bytes, root: nat, data: seq<nat>,
                                      n: nat)
    requires PagedFits(data, 32, n)
    ensures Going(tables, al, bytes, tables, al, bytes, root, data, n, 32, n)
  {
    KeptSame(al, bytes);
  }

  lemma {:induction false} GoingStep(tables0: Mem, al0: map<nat, Allocation>, bytes0: Bytes, tables: Mem, al: map<nat,
                                     Allocation>, bytes: Bytes, tables': Mem, al': map<nat, Allocation>, bytes': Bytes,
                                     root: nat, data: seq<nat>, n: nat, off: nat, k: nat, ok: bool)
    requires Going(tables0, al0, bytes0, tables, al, bytes, root, data, n, off, k) && k > 0
    requires PagedCommandFits(data, off)
    requires CommandKeeps(tables, tables', root, data, off) && BlocksKept(al, bytes, bytes') && Extends(al, al')
    requires !ok ==> CommandStuck(tables', al', root, data, off)
    ensures Going(tables0, al0, bytes0, tables', al', bytes', root, data, n, off + Word(data, off + 4, 4), k - 1)
    ensures !ok ==> Stuck(tables', al', root, data, n)
  {
    KeptTwice(al0, al, bytes0, bytes, bytes');
    hide Walk, BlocksKept, SegmentCovers, PagedCommandFits, RunAvailable, NoDirectory, Word;
    forall a: nat | Covered(data, off + Word(data, off + 4, 4), k - 1, a) ensures Covered(data, 32, n, a) {
      assert Covered(data, off, k, a);
    }
    forall a: nat | SegmentCovers(data, off, a) ensures Covered(data, 32, n, a) { assert Covered(data, off, k, a); }
  }

  lemma {:induction false} PackPagedFits(code: seq<nat>, entry: nat)
    requires Packable(code, entry) && |code| <= PAGE
    ensures var d := Pack(code, entry);
            Word(d, 16, 4) == 2 && PagedCommandFits(d, 32) && PagedCommandFits(d, 104) && PagedFits(d, 32, 2)
  {
    PackFits(code, entry);
    PackHeader(code, entry);
    PackText(code, entry);
    PackMain(code, entry);
    hide Num, Pack, Word, CommandFits;
    var d := Pack(code, entry);
    assert PagedFits(d, 128, 0);
    assert PagedFits(d, 104, 1);
  }

  /** How far a packed file has been carried out after `i` commands. */
  ghost predicate Progress(tables: Mem, al: map<nat, Allocation>, bytes: Bytes, root: nat, code: seq<nat>, e: nat,
                           i: nat, off: nat, base: nat, slide: nat, entry: nat)
  {
    && i <= 2 && off == (if i == 0 then 32 else if i == 1 then 104 else 128)
    && base == slide == (if i == 0 then 0 else BASE) && (i >= 1 ==> CodeSeen(tables, al, bytes, root, code))
    && (i == 2 ==> entry == Wrap(BASE + e))
  }

  /** `mach_o_load_into_pml4`: a packed file of at most 2 MB is seen through the page tables as its code
      followed by zeros, and its entry point is returned. Whatever the file, addresses outside its segments and
      blocks held before are untouched, and it fails only when a segment's page cannot be mapped. */
  method LoadInto(m: PageMemory, ram: Ram, data: seq<nat>, root: nat, ghost code: seq<nat>, ghost e: nat)
    returns (ok: bool, entry: nat)
    requires Octets(data) && |data| >= 32 && (IsMachO(data) && root != 0 ==> PagedFits(data, 32, Word(data, 16, 4)))
    requires m.Valid() && (root != 0 ==> m.Root(root) && Tree(m.tables, root))
    modifies m`tables, m.buddy.Repr(), ram
    ensures m.Valid() && (!ok ==> entry == 0) && (!IsMachO(data) || root == 0 ==> !ok && m.tables == old(m.tables))
    ensures ok && Packable(code, e) && |code| <= PAGE && data == Pack(code, e) ==>
              entry == Wrap(BASE + e) && CodeSeen(m.tables, m.buddy.Live(), ram.bytes, root, code)
    ensures IsMachO(data) && root != 0 ==>
              && Going(old(m.tables), old(m.buddy.Live()), old(ram.bytes), m.tables, m.buddy.Live(), ram.bytes,
                       root, data, Word(data, 16, 4), 32, 0)
              && (!ok ==> Stuck(m.tables, m.buddy.Live(), root, data, Word(data, 16, 4)))
  {
    var magic := Word(data, 0, 4);
    entry := 0;
    if magic != MH_MAGIC && magic != MH_CIGAM { return false, 0; }
    if root == 0 { return false, 0; }
    ghost var packed := Packable(code, e) && |code| <= PAGE && data == Pack(code, e);
    if packed { PackPagedFits(code, e); }
    hide Num, Word, Pack, PagedFits, BuddyState.Inv, NoHand, Leveled, Tree, CodeSeen, Octets, Packable, Going, Stuck,
         Wrap;
    Started(m, ram, root, data, code, e, packed, Word(data, 16, 4));
    ghost var t0, al0, b0 := m.tables, m.buddy.Live(), ram.bytes;
    ok, entry := RunCommands(m, ram, data, root, Word(data, 16, 4), code, e, packed, t0, al0, b0);
  }

  /** The loop over the commands, `k` of `n` to go: the part that is about values. */
  ghost predicate At(t: Mem, al: map<nat, Allocation>, b: Bytes, root: nat, data: seq<nat>, code: seq<nat>, e: nat,
                     packed: bool, t0: Mem, al0: map<nat, Allocation>, b0: Bytes, n: nat, k: nat, off: nat, base: nat,
                     slide: nat, entry: nat)
  {
    && k <= n && PagedFits(data, off, k) && base == slide < W64
    && (packed ==> n == 2 && Progress(t, al, b, root, code, e, n - k, off, base, slide, entry))
    && Going(t0, al0, b0, t, al, b, root, data, n, off, k)
  }

  ghost predicate Running(m: PageMemory, ram: Ram, root: nat, data: seq<nat>, code: seq<nat>, e: nat, packed: bool,
                          t0: Mem, al0: map<nat, Allocation>, b0: Bytes, n: nat, k: nat, off: nat, base: nat,
                          slide: nat, entry: nat)
    reads m.Repr(), ram
  {
    && Ready(m, root)
    && At(m.tables, m.buddy.Live(), ram.bytes, root, data, code, e, packed, t0, al0, b0, n, k, off, base, slide, entry)
  }

  /** What the loop leaves: the file loaded, or one of its pages could not be mapped. */
  ghost predicate Loaded(m: PageMemory, ram: Ram, root: nat, data: seq<nat>, code: seq<nat>, e: nat, packed: bool,
                         t0: Mem, al0: map<nat, Allocation>, b0: Bytes, n: nat, ok: bool, entry: nat)
    reads m.Repr(), ram
  {
    && Ready(m, root) && Going(t0, al0, b0, m.tables, m.buddy.Live(), ram.bytes, root, data, n, 32, 0)
    && (ok && packed ==> entry == Wrap(BASE + e) && CodeSeen(m.tables, m.buddy.Live(), ram.bytes, root, code))
    && (!ok ==> entry == 0 && Stuck(m.tables, m.buddy.Live(), root, data, n))
  }

  lemma {:induction false} Started(m: PageMemory, ram: Ram, root: nat, data: seq<nat>, code: seq<nat>, e: nat,
                                   packed: bool, n: nat)
    requires Ready(m, root) && PagedFits(data, 32, n) && (packed ==> n == 2)
    ensures Running(m, ram, root, data, code, e, packed, m.tables, m.buddy.Live(), ram.bytes, n, n, 32, 0, 0, 0)
  {
    hide BuddyState.Inv, NoHand, Leveled, Tree, PagedFits, Going;
    GoingStart(m.tables, m.buddy.Live(), ram.bytes, root, data, n);
  }

  lemma {:induction false} Finished(m: PageMemory, ram: Ram, root: nat, data: seq<nat>, code: seq<nat>, e: nat,
                                    packed: bool, t0: Mem, al0: map<nat, Allocation>, b0: Bytes, n: nat, off: nat,
                                    base: nat, slide: nat, entry: nat)
    requires Running(m, ram, root, data, code, e, packed, t0, al0, b0, n, 0, off, base, slide, entry)
    ensures Loaded(m, ram, root, data, code, e, packed, t0, al0, b0, n, true, entry)
  {
    hide BuddyState.Inv, NoHand, Leveled, Tree, PagedFits, Going, CodeSeen;
    GoingEnd(t0, al0, b0, m.tables, m.buddy.Live(), ram.bytes, root, data, n, off, 0);
  }

  method RunCommands(m: PageMemory, ram: Ram, data: seq<nat>, root: nat, n: nat, ghost code: seq<nat>, ghost e: nat,
                     ghost packed: bool, ghost t0: Mem, ghost al0: map<nat, Allocation>, ghost b0: Bytes)
    returns (ok: bool, entry: nat)
    requires Octets(data) && Running(m, ram, root, data, code, e, packed, t0, al0, b0, n, n, 32, 0, 0, 0)
    requires packed ==> Packable(code, e) && |code| <= PAGE && data == Pack(code, e)
    modifies m`tables, m.buddy.Repr(), ram
    ensures Loaded(m, ram, root, data, code, e, packed, t0, al0, b0, n, ok, entry)
  {
    hide *;
    var off: nat, base: nat, slide: nat, i: nat := 32, 0, 0, 0;
    entry := 0;
    while i < n
      invariant i <= n && Running(m, ram, root, data, code, e, packed, t0, al0, b0, n, n - i, off, base, slide, entry)
    {
      ok, off, base, slide, entry :=
        StepInto(m, ram, data, root, off, base, slide, entry, code, e, packed, t0, al0, b0, n, n - i);
      if !ok { return; }
      i := i + 1;
    }
    Finished(m, ram, root, data, code, e, packed, t0, al0, b0, n, off, base, slide, entry);
    ok := true;
  }

  lemma {:induction false} GoingEnd(tables0: Mem, al0: map<nat, Allocation>, bytes0: Bytes, tables: Mem, al: map<nat,
                                    Allocation>, bytes: Bytes, root: nat, data: seq<nat>, n: nat, off: nat, k: nat)
    requires Going(tables0, al0, bytes0, tables, al, bytes, root, data, n, off, k)
    ensures Going(tables0, al0, bytes0, tables, al, bytes, root, data, n, 32, 0)
  {
    hide Walk, BlocksKept;
  }

  lemma {:induction false} FitsStep(data: seq<nat>, off: nat, k: nat)
    requires PagedFits(data, off, k) && k > 0
    ensures PagedCommandFits(data, off) && off + 8 <= |data| && PagedFits(data, off + Word(data, off + 4, 4), k - 1)
  {
  }

  /** One command: what it adds to a packed file's progress, and what it leaves alone. */
  method StepInto(m: PageMemory, ram: Ram, data: seq<nat>, root: nat, off: nat, base: nat, slide: nat, entry: nat,
                  ghost code: seq<nat>, ghost e: nat, ghost packed: bool, ghost t0: Mem, ghost al0: map<nat,
                  Allocation>, ghost b0: Bytes, ghost n: nat, ghost k: nat)
    returns (ok: bool, off': nat, base': nat, slide': nat, entry': nat)
    requires Octets(data) && k > 0
    requires Running(m, ram, root, data, code, e, packed, t0, al0, b0, n, k, off, base, slide, entry)
    requires packed ==> Packable(code, e) && |code| <= PAGE && data == Pack(code, e)
    modifies m`tables, m.buddy.Repr(), ram
    ensures ok ==> Running(m, ram, root, data, code, e, packed, t0, al0, b0, n, k - 1, off', base', slide', entry')
    ensures !ok ==> Loaded(m, ram, root, data, code, e, packed, t0, al0, b0, n, false, entry')
  {
    hide *;
    CommandReady(m, ram, root, data, code, e, packed, t0, al0, b0, n, k, off, base, slide, entry);
    ghost var t1, al1, b1 := m.tables, m.buddy.Live(), ram.bytes;
    ok, base', slide', entry' := LoadCommandInto(m, ram, root, data, off, base, slide, entry);
    off' := off + Word(data, off + 4, 4);
    CommandResult(m, ram, root, data, code, e, packed, t0, al0, b0, t1, al1, b1, n, k, off, base, slide, entry,
                  ok, off', base', slide', entry');
    if !ok { entry' := 0; }
  }

  /** What the state of the loop gives the next command. */
  lemma {:induction false} CommandReady(m: PageMemory, ram: Ram, root: nat, data: seq<nat>, code: seq<nat>, e: nat,
                                        packed: bool, t0: Mem, al0: map<nat, Allocation>, b0: Bytes, n: nat, k: nat,
                                        off: nat, base: nat, slide: nat, entry: nat)
    requires k > 0 && Running(m, ram, root, data, code, e, packed, t0, al0, b0, n, k, off, base, slide, entry)
    ensures Ready(m, root) && PagedCommandFits(data, off) && off + 8 <= |data| && base == slide < W64
    ensures At(m.tables, m.buddy.Live(), ram.bytes, root, data, code, e, packed, t0, al0, b0, n, k, off, base, slide,
               entry)
  {
    FitsStep(data, off, k);
    hide BuddyState.Inv, NoHand, Leveled, Tree, PagedFits, PagedCommandFits, Going, Progress, Word;
  }

  lemma {:induction false} CommandResult(m: PageMemory, ram: Ram, root: nat, data: seq<nat>, code: seq<nat>, e: nat,
                                         packed: bool, t0: Mem, al0: map<nat, Allocation>, b0: Bytes, t1: Mem,
                                         al1: map<nat, Allocation>, b1: Bytes, n: nat, k: nat, off: nat, base: nat,
                                         slide: nat, entry: nat, ok: bool, off': nat, base': nat, slide': nat,
                                         entry': nat)
    requires k > 0 && Ready(m, root) && PagedCommandFits(data, off) && off' == off + Word(data, off + 4, 4)
    requires At(t1, al1, b1, root, data, code, e, packed, t0, al0, b0, n, k, off, base, slide, entry)
    requires packed ==> Packable(code, e) && |code| <= PAGE && data == Pack(code, e)
    requires CommandDone(t1, al1, b1, m.tables, m.buddy.Live(), ram.bytes, root, data, off, ok, base, slide, entry,
                         base', slide', entry')
    ensures ok ==> Running(m, ram, root, data, code, e, packed, t0, al0, b0, n, k - 1, off', base', slide', entry')
    ensures !ok ==> Loaded(m, ram, root, data, code, e, packed, t0, al0, b0, n, false, 0)
  {
    hide BuddyState.Inv, NoHand, Leveled, Tree, CodeSeen, Num, PagedFits, PagedCommandFits, Going, Stuck, CommandDone,
         Pack, Packable, Progress, Word, Wrap, Ready;
    FitsStep(data, off, k);
    CommandEffect(t0, al0, b0, t1, al1, b1, m.tables, m.buddy.Live(), ram.bytes, root, data, n, off, k, ok,
                  base, slide, entry, base', slide', entry');
    if ok && packed {
      PackedStep(t1, al1, b1, m.tables, m.buddy.Live(), ram.bytes, root, data, code, e, n - k,
                 off, base, slide, entry, off', base', slide', entry');
    }
  }

  lemma {:induction false} CommandEffect(t0: Mem, al0: map<nat, Allocation>, b0: Bytes, t1: Mem, al1: map<nat,
                                         Allocation>, b1: Bytes, t: Mem, al: map<nat, Allocation>, b: Bytes, root: nat,
                                         data: seq<nat>, n: nat, off: nat, k: nat, ok: bool, base: nat, slide: nat,
                                         entry: nat, base': nat, slide': nat, entry': nat)
    requires Going(t0, al0, b0, t1, al1, b1, root, data, n, off, k) && k > 0 && PagedCommandFits(data, off)
    requires CommandDone(t1, al1, b1, t, al, b, root, data, off, ok, base, slide, entry, base', slide', entry')
    ensures Going(t0, al0, b0, t, al, b, root, data, n, off + Word(data, off + 4, 4), k - 1) && base' == slide' < W64
    ensures !ok ==> Stuck(t, al, root, data, n) && Going(t0, al0, b0, t, al, b, root, data, n, 32, 0)
  {
    GoingStep(t0, al0, b0, t1, al1, b1, t, al, b, root, data, n, off, k, ok);
    GoingEnd(t0, al0, b0, t, al, b, root, data, n, off + Word(data, off + 4, 4), k - 1);
  }

  /** The packed file's two commands. */
  lemma {:induction false} PackedStep(t0: Mem, al0: map<nat, Allocation>, b0: Bytes, t: Mem, al: map<nat, Allocation>,
                                      b: Bytes, root: nat, data: seq<nat>, code: seq<nat>, e: nat, i: nat, off: nat,
                                      base: nat, slide: nat, entry: nat, off': nat, base': nat, slide': nat,
                                      entry': nat)
    requires Packable(code, e) && |code| <= PAGE && data == Pack(code, e) && i < 2 && PagedCommandFits(data, off)
    requires Progress(t0, al0, b0, root, code, e, i, off, base, slide, entry)
    requires off' == off + Word(data, off + 4, 4)
    requires CommandDone(t0, al0, b0, t, al, b, root, data, off, true, base, slide, entry, base', slide', entry')
    ensures Progress(t, al, b, root, code, e, i + 1, off', base', slide', entry')
  {
    hide CodeSeen, Num, CommandKeeps, BlocksKept, CommandStuck;
    PackText(code, e);
    PackMain(code, e);
    assert data[128..128 + |code|] == data[128..] == code;
    if i == 0 { FirstPage(t, al, b, root, code); }
  }

  lemma {:induction false} FirstPage(tables: Mem, al: map<nat, Allocation>, bytes: Bytes, root: nat, code: seq<nat>)
    requires PagesIn(tables, al, bytes, root, BASE, code, Floor(BASE), Ceil(BASE + |code|)) && 0 < |code| <= PAGE
    ensures CodeSeen(tables, al, bytes, root, code)
  {
    assert Floor(BASE) == BASE && Ceil(BASE + |code|) == BASE + PAGE;
  }
}
