/** Wiring as changes of page tables and objects: what one store or one new table does, and
    how the steps add up over pages, 2 MB chunks and regions. */
module WireSteps {
  import opened Options
  import opened Arithmetic
  import opened Paging
  import opened PagingEdits
  import opened PageTables
  import opened Regions

  const MB2: nat := 0x20_0000

  function PageBase(a: nat): nat { a - a % 0x1000 }

  /** `flags & MAP_ANON` */
  predicate IsAnon(flags: int) { flags / 0x1000 % 2 == 1 }

  /** The page of `a` is one the kernel may wire: its base lies in `[lo, hi)`. */
  predicate PageIn(a: nat, lo: nat, hi: nat) { lo <= PageBase(a) < hi }

  // ---- objects -----------------------------------------------------------------------------

  ghost predicate GoodPages(objects: seq<seq<nat>>) {
    forall o, i :: 0 <= o < |objects| && 0 <= i < |objects[o]| ==> objects[o][i] == 0 || PageAligned(objects[o][i])
  }

  /** A page of an object, once it has a frame, keeps it; objects may be added. */
  ghost predicate Grown(objs: seq<seq<nat>>, objs': seq<seq<nat>>) {
    && |objs| <= |objs'|
    && forall o :: 0 <= o < |objs| ==> PagesGrown(objs[o], objs'[o])
  }

  ghost predicate PagesGrown(pages: seq<nat>, pages': seq<nat>) {
    |pages'| == |pages| && forall i :: 0 <= i < |pages| && pages[i] != 0 ==> pages'[i] == pages[i]
  }

  lemma GrownTrans(objs: seq<seq<nat>>, objs1: seq<seq<nat>>, objs2: seq<seq<nat>>)
    requires Grown(objs, objs1) && Grown(objs1, objs2)
    ensures Grown(objs, objs2)
  {
    forall o | 0 <= o < |objs| ensures PagesGrown(objs[o], objs2[o]) {
      assert PagesGrown(objs[o], objs1[o]) && PagesGrown(objs1[o], objs2[o]);
    }
  }

  /** Part of a region to wire: its object, where the region starts, its offset in the
      object, and the range. */
  datatype Window = Window(o: nat, start: nat, offset: nat, lo: nat, hi: nat)

  function PageNo(w: Window, va: nat): nat
    requires w.start <= va
  {
    (va - w.start + w.offset) / 0x1000
  }

  /** The region's first page is the object's page at the region's offset, and pages follow each other in both. */
  lemma {:induction false} PagesInOrder(w: Window, i: nat)
    requires w.start % 0x1000 == 0 && w.offset % 0x1000 == 0
    ensures PageNo(w, w.start + i * 0x1000) == w.offset / 0x1000 + i
  {
    ModUnique(i * 0x1000 + w.offset, 0x1000, w.offset / 0x1000 + i, 0);
  }

  /** The page of the object that belongs at `va` has frame `pa`. */
  ghost predicate FrameFor(objs: seq<seq<nat>>, w: Window, va: nat, pa: nat) {
    && w.o < |objs| && w.start <= va && PageNo(w, va) < |objs[w.o]|
    && objs[w.o][PageNo(w, va)] == pa && pa != 0
  }

  /** Some page of the window lies past the end of the object. */
  ghost predicate Short(objs: seq<seq<nat>>, w: Window) {
    w.o < |objs| && exists va: nat :: PastEnd(objs[w.o], w, va)
  }

  ghost predicate PastEnd(pages: seq<nat>, w: Window, va: nat) {
    w.start <= va && w.lo <= va < w.hi && PageNo(w, va) >= |pages|
  }

  /** `a` is mapped to its place in the object's page for it. */
  ghost predicate FromObject(objs: seq<seq<nat>>, w: Window, a: nat, m: Mapping) {
    m.Mapped? && m.pa >= a % 0x1000 && FrameFor(objs, w, PageBase(a), m.pa - a % 0x1000)
  }

  lemma FrameGrown(objs: seq<seq<nat>>, objs': seq<seq<nat>>, w: Window, va: nat, pa: nat)
    requires Grown(objs, objs') && FrameFor(objs, w, va, pa)
    ensures FrameFor(objs', w, va, pa)
  {
    assert PagesGrown(objs[w.o], objs'[w.o]);
  }

  // ---- what a step keeps -----------------------------------------------------------------------

  /** Translations of pages outside `[lo, hi)` are as before. */
  ghost predicate KeptOutside(mem: Mem, mem': Mem, root: nat, lo: nat, hi: nat) {
    forall a: nat :: a < VA_LIMIT && !PageIn(a, lo, hi) ==> Walk(mem', root, 4, a) == Walk(mem, root, 4, a)
  }

  /** Pages mapped by 4 KB entries stay as they are. */
  ghost predicate SmallKept(mem: Mem, mem': Mem, root: nat) {
    forall a: nat :: a < VA_LIMIT && Small(mem, root, a) ==> KeptSmall(mem, mem', root, a)
  }

  ghost predicate KeptSmall(mem: Mem, mem': Mem, root: nat, a: nat) {
    Small(mem', root, a) && Walk(mem', root, 4, a) == Walk(mem, root, 4, a)
  }

  /** A translation that changed leads to the object's page, with the rights the levels above allow. */
  ghost predicate Supplied(mem: Mem, mem': Mem, root: nat, objs: seq<seq<nat>>, w: Window) {
    forall a: nat :: a < VA_LIMIT && Walk(mem', root, 4, a) != Walk(mem, root, 4, a) ==>
      FromObject(objs, w, a, Walk(mem', root, 4, a)) && Opened(mem', root, a)
  }

  /** Such a page stays open. */
  lemma {:induction false} OpenedKept(mem: Mem, mem': Mem, root: nat, a: nat)
    requires Opened(mem, root, a) && SmallKept(mem, mem', root) && AllowedKept(mem, mem', root) && a < VA_LIMIT
    ensures Opened(mem', root, a) && Walk(mem', root, 4, a) == Walk(mem, root, 4, a)
  {
    hide Walk, Reach, Allowed;
    assert KeptSmall(mem, mem', root, a);
  }

  /** Only pages in `[from, to)` get a 4 KB entry. */
  ghost predicate NewSmall(mem: Mem, mem': Mem, root: nat, from: nat, to: nat) {
    forall a: nat :: a < VA_LIMIT && !(from <= a < to) && Small(mem', root, a) ==> Small(mem, root, a)
  }

  /** A step of wiring a window. */
  ghost predicate WireStep(mem: Mem, objs: seq<seq<nat>>, mem': Mem, objs': seq<seq<nat>>, root: nat, w: Window) {
    && KeptOutside(mem, mem', root, w.lo, w.hi) && SmallKept(mem, mem', root) && AllowedKept(mem, mem', root)
    && Grown(objs, objs') && Supplied(mem, mem', root, objs', w)
  }

  /** A page mapped by a 4 KB entry before is kept, any other now leads to the object's page. */
  ghost predicate Wired(mem: Mem, mem': Mem, root: nat, objs: seq<seq<nat>>, w: Window, a: nat) {
    if Small(mem, root, a) then Walk(mem', root, 4, a) == Walk(mem, root, 4, a)
    else FromObject(objs, w, a, Walk(mem', root, 4, a)) && Opened(mem', root, a)
  }

  /** Every page of the window in `[from, to)` is wired. */
  ghost predicate RangeWired(mem: Mem, mem': Mem, root: nat, objs: seq<seq<nat>>, w: Window, from: nat, to: nat) {
    forall a: nat :: a < VA_LIMIT && from <= a < to && PageIn(a, w.lo, w.hi) ==> Wired(mem, mem', root, objs, w, a)
  }

  /** `[from, to)` has been dealt with, and nothing else touched. */
  ghost predicate DealtWith(mem: Mem, objs: seq<seq<nat>>, mem': Mem, objs': seq<seq<nat>>, root: nat, w: Window,
                            from: nat, to: nat)
  {
    && WireStep(mem, objs, mem', objs', root, w) && NewSmall(mem, mem', root, from, to)
    && RangeWired(mem, mem', root, objs', w, from, to)
  }

  // ---- one directory entry that maps a 2 MB page ------------------------------------------------

  /** Word `j` of the table that replaces a 2 MB page: an object page inside the window, the
      old page's own frame elsewhere. */
  ghost predicate Replacement(word: nat, pde: nat, chunk: nat, objs: seq<seq<nat>>, w: Window, j: nat) {
    if w.lo <= chunk + j * 0x1000 < w.hi then
      word >= 7 && PageAligned(word - 7) && FrameFor(objs, w, chunk + j * 0x1000, word - 7)
    else word == SplitWord(pde, j)
  }

  ghost predicate ReplacementWords(words: seq<nat>, pde: nat, chunk: nat, objs: seq<seq<nat>>, w: Window) {
    |words| == 512 && forall j: nat :: j < 512 ==> Replacement(words[j], pde, chunk, objs, w, j)
  }

  /** A directory entry for the chunk maps a 2 MB page. */
  ghost predicate HugeChunk(mem: Mem, lv: map<nat, nat>, root: nat, pd: nat, chunk: nat) {
    && Leveled(mem, lv) && root in mem && lv[root] == 4 && Tree(mem, root)
    && chunk % MB2 == 0 && chunk < VA_LIMIT && pd in mem && lv[pd] == 2
    && Hits(mem, root, 4, chunk, pd, 2, Index(chunk, 2))
    && Present(mem[pd][Index(chunk, 2)]) && Huge(mem[pd][Index(chunk, 2)])
  }

  lemma {:induction false} ChunkPage(a: nat, chunk: nat)
    requires chunk % MB2 == 0 && a / MB2 == chunk / MB2
    ensures PageBase(a) == chunk + Index(a, 1) * 0x1000
  {
    OffsetParts(a);
  }

  lemma {:induction false} ReplacementInstalls(mem: Mem, lv: map<nat, nat>, root: nat, pd: nat, pt: nat,
          words: seq<nat>, chunk: nat, objs: seq<seq<nat>>, w: Window)
    requires HugeChunk(mem, lv, root, pd, chunk) && pt !in mem && PageAligned(pt)
    requires ReplacementWords(words, mem[pd][Index(chunk, 2)], chunk, objs, w)
    ensures Installable(mem, lv, pd, Index(chunk, 2), pt, words)
  {
  }

  /** The rights above the new page table are those above the directory. */
  lemma {:induction false} ReplaceReach(mem: Mem, lv: map<nat, nat>, root: nat, pd: nat, pt: nat, words: seq<nat>,
                                        chunk: nat, a: nat)
    requires HugeChunk(mem, lv, root, pd, chunk) && Installable(mem, lv, pd, Index(chunk, 2), pt, words)
    requires a < VA_LIMIT && a / MB2 == chunk / MB2
    ensures Reach(mem, root, 4, a, 2).Some?
    ensures Reach(Install(mem, pd, Index(chunk, 2), pt, words), root, 4, a, 1) ==
            Some((pt, Reach(mem, root, 4, a, 2).value.1))
  {
    var i := Index(chunk, 2);
    var mem' := Install(mem, pd, i, pt, words);
    InstallLeveled(mem, lv, pd, i, pt, words);
    SamePd(mem, root, 4, a, chunk);
    IndexPrefix(a, chunk, 2);
    EditReach(mem, mem', lv, root, 4, a, pd, i, 2);
    ReachVia(mem', root, 4, a, 2, 1);
    TableWordFacts(pt);
    hide RightsOf, FrameBits, TableWord, Present, Huge;
    assert Entry(mem', pd, 2, a) == TableWord(pt) && IsTable(mem', pt);
  }

  /** What an address of the chunk sees before and after. */
  lemma {:induction false} ReplaceWalk(mem: Mem, lv: map<nat, nat>, root: nat, pd: nat, pt: nat, words: seq<nat>,
                                       chunk: nat, a: nat)
    requires HugeChunk(mem, lv, root, pd, chunk) && Installable(mem, lv, pd, Index(chunk, 2), pt, words)
    requires a < VA_LIMIT && a / MB2 == chunk / MB2
    ensures !Small(mem, root, a) && Reach(mem, root, 4, a, 2).Some?
    ensures var x, r := words[Index(a, 1)], Reach(mem, root, 4, a, 2).value.1;
            && Walk(mem, root, 4, a) == Through(r, Leaf(mem[pd][Index(chunk, 2)], 2, a))
            && Walk(Install(mem, pd, Index(chunk, 2), pt, words), root, 4, a) ==
               Through(r, if Present(x) then Leaf(x, 1, a) else Unmapped)
  {
    var i := Index(chunk, 2);
    InstallLeveled(mem, lv, pd, i, pt, words);
    SamePd(mem, root, 4, a, chunk);
    IndexPrefix(a, chunk, 2);
    EditWalk(mem, Install(mem, pd, i, pt, words), lv, lv[pt := 1], root, 4, a, pd, i);
    ReachVia(mem, root, 4, a, 2, 1);
    InstallBelow(mem, lv, pd, i, pt, words, a);
  }

  lemma {:induction false} ReplacementLeaf(x: nat, pde: nat, chunk: nat, objs: seq<seq<nat>>, w: Window, a: nat,
                                           r: Rights)
    requires Replacement(x, pde, chunk, objs, w, Index(a, 1)) && Present(pde) && Huge(pde)
    requires chunk % MB2 == 0 && a / MB2 == chunk / MB2
    ensures Present(x)
    ensures if PageIn(a, w.lo, w.hi) then FromObject(objs, w, a, Through(r, Leaf(x, 1, a))) && Passes(r, x, a)
            else Leaf(x, 1, a) == Leaf(pde, 2, a)
  {
    ChunkPage(a, chunk);
    hide Index, SplitWord, SplitWords, Leaf, Through, FromObject, FrameFor, Present, Huge, PageAligned, PageBase,
         Passes;
    if PageIn(a, w.lo, w.hi) {
      ObjectLeaf(x, objs, w, a, r);
    } else {
      KeptLeaf(pde, a);
    }
  }

  /** The 4 KB entry takes no right away. */
  ghost predicate Passes(r: Rights, x: nat, a: nat) {
    var m := Through(r, Leaf(x, 1, a)); m == Mapped(m.pa, r.rw, r.us, r.nx)
  }

  lemma {:induction false} ObjectLeaf(x: nat, objs: seq<seq<nat>>, w: Window, a: nat, r: Rights)
    requires x >= 7 && PageAligned(x - 7) && FrameFor(objs, w, PageBase(a), x - 7)
    ensures Present(x) && FromObject(objs, w, a, Through(r, Leaf(x, 1, a))) && Passes(r, x, a)
  {
    TableWordFacts(x - 7);
    hide FrameBits, PageBase, FrameFor, Present, Huge, Writable, User, NoExec, PageAligned;
  }

  lemma {:induction false} KeptLeaf(pde: nat, a: nat)
    requires Present(pde) && Huge(pde)
    ensures Present(SplitWord(pde, Index(a, 1))) && Leaf(SplitWord(pde, Index(a, 1)), 1, a) == Leaf(pde, 2, a)
  {
    SplitLeaf(pde, a);
    SplitFlags(pde, Index(a, 1));
    hide Leaf, SplitWord, Present, Huge;
  }

  /** What the replacement does to an address of the chunk. */
  lemma {:induction false} ReplaceIn(mem: Mem, lv: map<nat, nat>, root: nat, pd: nat, pt: nat, words: seq<nat>,
                                     chunk: nat, objs: seq<seq<nat>>, w: Window, a: nat)
    requires HugeChunk(mem, lv, root, pd, chunk) && pt !in mem && PageAligned(pt)
    requires ReplacementWords(words, mem[pd][Index(chunk, 2)], chunk, objs, w) && a < VA_LIMIT && a / MB2 == chunk / MB2
    ensures var mem' := Install(mem, pd, Index(chunk, 2), pt, words);
            && !Small(mem, root, a)
            && (!PageIn(a, w.lo, w.hi) ==> Walk(mem', root, 4, a) == Walk(mem, root, 4, a))
            && (PageIn(a, w.lo, w.hi) ==> FromObject(objs, w, a, Walk(mem', root, 4, a)) && Opened(mem', root, a))
  {
    var j, pde := Index(a, 1), mem[pd][Index(chunk, 2)];
    ReplacementInstalls(mem, lv, root, pd, pt, words, chunk, objs, w);
    ReplaceWalk(mem, lv, root, pd, pt, words, chunk, a);
    ReplaceReach(mem, lv, root, pd, pt, words, chunk, a);
    AllowedReach(Install(mem, pd, Index(chunk, 2), pt, words), root, 4, a);
    assert Replacement(words[j], pde, chunk, objs, w, j);
    ReplacementLeaf(words[j], pde, chunk, objs, w, a, Reach(mem, root, 4, a, 2).value.1);
    hide Walk, Reach, Leveled, Tree, Install, Installable, ReplacementWords, FromObject, SplitWord, Leaf,
         Through, Present;
  }

  lemma {:induction false} ReplaceOut(mem: Mem, lv: map<nat, nat>, root: nat, pd: nat, pt: nat, words: seq<nat>,
                                      chunk: nat, objs: seq<seq<nat>>, w: Window, a: nat)
    requires HugeChunk(mem, lv, root, pd, chunk) && pt !in mem && PageAligned(pt)
    requires ReplacementWords(words, mem[pd][Index(chunk, 2)], chunk, objs, w) && a < VA_LIMIT && a / MB2 != chunk / MB2
    ensures var mem' := Install(mem, pd, Index(chunk, 2), pt, words);
            && Walk(mem', root, 4, a) == Walk(mem, root, 4, a)
            && Small(mem', root, a) == Small(mem, root, a)
  {
    var i := Index(chunk, 2);
    ReplacementInstalls(mem, lv, root, pd, pt, words, chunk, objs, w);
    InstallLeveled(mem, lv, pd, i, pt, words);
    if Hits(mem, root, 4, a, pd, 2, i) {
      HitsRegion(mem, root, pd, 2, i, a, chunk);
    } else {
      MissesSame(mem, Install(mem, pd, i, pt, words), lv, root, a, pd, i);
    }
  }

  lemma {:induction false} InChunk(a: nat, chunk: nat)
    requires chunk % MB2 == 0
    ensures a / MB2 == chunk / MB2 <==> chunk <= a < chunk + MB2
  {
    if chunk <= a < chunk + MB2 { ModUnique(a, MB2, chunk / MB2, a - chunk); }
  }

  lemma {:induction false} ReplaceAll(mem: Mem, lv: map<nat, nat>, root: nat, pd: nat, pt: nat, words: seq<nat>,
                                      chunk: nat, objs: seq<seq<nat>>, objs': seq<seq<nat>>, w: Window)
    requires HugeChunk(mem, lv, root, pd, chunk) && pt !in mem && PageAligned(pt) && Grown(objs, objs')
    requires ReplacementWords(words, mem[pd][Index(chunk, 2)], chunk, objs', w)
    ensures var mem' := Install(mem, pd, Index(chunk, 2), pt, words);
            && Installable(mem, lv, pd, Index(chunk, 2), pt, words) && Tree(mem', root)
            && DealtWith(mem, objs, mem', objs', root, w, chunk, chunk + MB2)
  {
    var i := Index(chunk, 2);
    var mem' := Install(mem, pd, i, pt, words);
    ReplacementInstalls(mem, lv, root, pd, pt, words, chunk, objs', w);
    InstallTree(mem, lv, pd, i, pt, words, root);
    forall a: nat ensures Allowed(mem', root, 4, a) == Allowed(mem, root, 4, a) {
      InstallAllowed(mem, lv, pd, i, pt, words, root, a);
    }
    hide Small, FromObject, Install, Installable, Tree, Leveled, ReplacementWords, Opened, Walk, Reach, Allowed;
    forall a: nat ensures a / MB2 == chunk / MB2 <==> chunk <= a < chunk + MB2 { InChunk(a, chunk); }
    forall a: nat | a < VA_LIMIT && a / MB2 == chunk / MB2
      ensures !Small(mem, root, a)
      ensures !PageIn(a, w.lo, w.hi) ==> Walk(mem', root, 4, a) == Walk(mem, root, 4, a)
      ensures PageIn(a, w.lo, w.hi) ==> FromObject(objs', w, a, Walk(mem', root, 4, a)) && Opened(mem', root, a)
    {
      ReplaceIn(mem, lv, root, pd, pt, words, chunk, objs', w, a);
    }
    forall a: nat | a < VA_LIMIT && a / MB2 != chunk / MB2
      ensures Walk(mem', root, 4, a) == Walk(mem, root, 4, a) && Small(mem', root, a) == Small(mem, root, a)
    {
      ReplaceOut(mem, lv, root, pd, pt, words, chunk, objs', w, a);
    }
  }

  // ---- one page-table entry -----------------------------------------------------------------------

  /** The page at `va` has a page table and no frame. */
  ghost predicate Absent(mem: Mem, lv: map<nat, nat>, root: nat, pt: nat, va: nat) {
    && Leveled(mem, lv) && root in mem && lv[root] == 4 && Tree(mem, root) && va < VA_LIMIT && va % 0x1000 == 0
    && Reach(mem, root, 4, va, 1).Some? && Reach(mem, root, 4, va, 1).value.0 == pt && IsTable(mem, pt)
    && !Present(mem[pt][Index(va, 1)])
  }

  lemma {:induction false} SamePage(mem: Mem, root: nat, va: nat, a: nat)
    requires va % 0x1000 == 0 && a / 0x1000 == va / 0x1000
    ensures Reach(mem, root, 4, a, 1) == Reach(mem, root, 4, va, 1) && Index(a, 1) == Index(va, 1)
    ensures PageBase(a) == va
  {
    DivDiv(a, 0x1000, 512);
    DivDiv(va, 0x1000, 512);
    SamePrefix(mem, root, 4, a, va);
  }

  /** Giving the page a frame: what its addresses saw and see. */
  lemma {:induction false} FillIn(mem: Mem, lv: map<nat, nat>, root: nat, pt: nat, va: nat, pa: nat, a: nat)
    requires Absent(mem, lv, root, pt, va) && PageAligned(pa) && a / 0x1000 == va / 0x1000
    ensures pt in lv && lv[pt] == 1 && Tame(mem, lv, pt, Index(va, 1), TableWord(pa))
    ensures var m := Walk(Put(mem, pt, Index(va, 1), TableWord(pa)), root, 4, a);
            Walk(mem, root, 4, a).Unmapped? && m.Mapped? && m.pa == pa + a % 0x1000
    ensures Opened(Put(mem, pt, Index(va, 1), TableWord(pa)), root, a)
  {
    var i := Index(va, 1);
    SamePage(mem, root, va, a);
    WalkVia(mem, lv, root, 4, a, 1);
    TableWordFacts(pa);
    PutLeveled(mem, lv, pt, i, TableWord(pa));
    EditWalk(mem, Put(mem, pt, i, TableWord(pa)), lv, lv, root, 4, a, pt, i);
    EditReach(mem, Put(mem, pt, i, TableWord(pa)), lv, root, 4, a, pt, i, 1);
    AllowedReach(Put(mem, pt, i, TableWord(pa)), root, 4, a);
  }

  lemma {:induction false} FillOut(mem: Mem, lv: map<nat, nat>, root: nat, pt: nat, va: nat, pa: nat, a: nat)
    requires Absent(mem, lv, root, pt, va) && PageAligned(pa) && a < VA_LIMIT
    ensures pt in lv && lv[pt] == 1 && Tame(mem, lv, pt, Index(va, 1), TableWord(pa))
    ensures var mem' := Put(mem, pt, Index(va, 1), TableWord(pa));
            && Reach(mem', root, 4, a, 1) == Reach(mem, root, 4, a, 1)
            && (a / 0x1000 != va / 0x1000 ==> Walk(mem', root, 4, a) == Walk(mem, root, 4, a))
  {
    var i, x := Index(va, 1), TableWord(pa);
    WalkVia(mem, lv, root, 4, va, 1);
    PutLeveled(mem, lv, pt, i, x);
    EditReach(mem, Put(mem, pt, i, x), lv, root, 4, a, pt, i, 1);
    if a / 0x1000 != va / 0x1000 {
      PutElsewhere(mem, lv, pt, i, x, root, va, a);
    }
  }

  /** Giving one absent page of the window its frame. */
  lemma {:induction false} FillAll(mem: Mem, lv: map<nat, nat>, root: nat, pt: nat, va: nat, pa: nat,
                                   objs: seq<seq<nat>>, objs': seq<seq<nat>>, w: Window)
    requires Absent(mem, lv, root, pt, va) && PageAligned(pa) && w.lo <= va < w.hi
    requires Grown(objs, objs') && FrameFor(objs', w, va, pa)
    ensures pt in lv && lv[pt] == 1 && Tame(mem, lv, pt, Index(va, 1), TableWord(pa))
    ensures var mem' := Put(mem, pt, Index(va, 1), TableWord(pa));
            && Tree(mem', root) && DealtWith(mem, objs, mem', objs', root, w, va, va + 0x1000)
            && Reach(mem', root, 4, va, 1) == Reach(mem, root, 4, va, 1)
  {
    var i, x := Index(va, 1), TableWord(pa);
    var mem' := Put(mem, pt, i, x);
    FillIn(mem, lv, root, pt, va, pa, va);
    FillOut(mem, lv, root, pt, va, pa, va);
    PutTree(mem, lv, pt, i, x, root);
    forall a: nat ensures Allowed(mem', root, 4, a) == Allowed(mem, root, 4, a) {
      PutAllowed(mem, lv, pt, i, x, root, a);
    }
    hide Leveled, Tree, Tame, Put, Walk, Reach, FrameFor, Opened, Allowed;
    forall a: nat | a < VA_LIMIT
      ensures Reach(mem', root, 4, a, 1) == Reach(mem, root, 4, a, 1)
      ensures a / 0x1000 != va / 0x1000 ==> Walk(mem', root, 4, a) == Walk(mem, root, 4, a)
      ensures a / 0x1000 == va / 0x1000 ==>
                Walk(mem, root, 4, a).Unmapped? && FromObject(objs', w, a, Walk(mem', root, 4, a)) && PageBase(a) == va
      ensures a / 0x1000 == va / 0x1000 ==> Opened(mem', root, a)
    {
      FillOut(mem, lv, root, pt, va, pa, a);
      if a / 0x1000 == va / 0x1000 {
        FillIn(mem, lv, root, pt, va, pa, a);
        SamePage(mem, root, va, a);
      }
    }
  }

  // ---- adding steps up --------------------------------------------------------------------------

  lemma {:induction false} StepRefl(mem: Mem, objs: seq<seq<nat>>, root: nat, w: Window)
    ensures WireStep(mem, objs, mem, objs, root, w)
  {
    assert forall a: nat :: a < VA_LIMIT && Small(mem, root, a) ==> KeptSmall(mem, mem, root, a);
  }

  lemma {:induction false} SmallKeptTrans(mem: Mem, mem1: Mem, mem2: Mem, root: nat)
    requires SmallKept(mem, mem1, root) && SmallKept(mem1, mem2, root)
    ensures SmallKept(mem, mem2, root)
  {
    hide Small;
    forall a: nat | a < VA_LIMIT && Small(mem, root, a) ensures KeptSmall(mem, mem2, root, a) {
      assert KeptSmall(mem, mem1, root, a);
      assert KeptSmall(mem1, mem2, root, a);
    }
  }

  lemma {:induction false} FromGrown(objs: seq<seq<nat>>, objs': seq<seq<nat>>, w: Window, a: nat, m: Mapping)
    requires Grown(objs, objs') && FromObject(objs, w, a, m)
    ensures FromObject(objs', w, a, m)
  {
    FrameGrown(objs, objs', w, PageBase(a), m.pa - a % 0x1000);
  }

  lemma {:induction false} StepTrans(mem: Mem, objs: seq<seq<nat>>, mem1: Mem, objs1: seq<seq<nat>>, mem2: Mem,
                                     objs2: seq<seq<nat>>, root: nat, w: Window)
    requires WireStep(mem, objs, mem1, objs1, root, w) && WireStep(mem1, objs1, mem2, objs2, root, w)
    ensures WireStep(mem, objs, mem2, objs2, root, w)
  {
    SmallKeptTrans(mem, mem1, mem2, root);
    GrownTrans(objs, objs1, objs2);
    hide Small, SmallKept, FromObject, Grown, Opened, Walk, Allowed;
    forall a: nat | a < VA_LIMIT && Walk(mem2, root, 4, a) != Walk(mem, root, 4, a)
      ensures FromObject(objs2, w, a, Walk(mem2, root, 4, a)) && Opened(mem2, root, a)
    {
      if Walk(mem2, root, 4, a) == Walk(mem1, root, 4, a) {
        FromGrown(objs1, objs2, w, a, Walk(mem1, root, 4, a));
        OpenedKept(mem1, mem2, root, a);
      }
    }
  }

  /** Only the objects grew. */
  lemma {:induction false} StepObjects(mem: Mem, objs: seq<seq<nat>>, objs': seq<seq<nat>>, root: nat, w: Window)
    requires Grown(objs, objs')
    ensures WireStep(mem, objs, mem, objs', root, w)
  {
    assert forall a: nat :: a < VA_LIMIT && Small(mem, root, a) ==> KeptSmall(mem, mem, root, a);
  }

  /** Work on adjacent ranges adds up. */
  lemma {:induction false} DealtMore(mem: Mem, objs: seq<seq<nat>>, mem1: Mem, objs1: seq<seq<nat>>, mem2: Mem,
                                     objs2: seq<seq<nat>>, root: nat, w: Window, from: nat, mid: nat, to: nat)
    requires DealtWith(mem, objs, mem1, objs1, root, w, from, mid)
    requires DealtWith(mem1, objs1, mem2, objs2, root, w, mid, to)
    requires from <= mid <= to
    ensures DealtWith(mem, objs, mem2, objs2, root, w, from, to)
  {
    StepTrans(mem, objs, mem1, objs1, mem2, objs2, root, w);
    hide Walk, Reach, FromObject, Grown, WireStep, PageBase, Allowed;
    forall a: nat | a < VA_LIMIT && from <= a < to && PageIn(a, w.lo, w.hi)
      ensures Wired(mem, mem2, root, objs2, w, a)
    {
      if a < mid {
        WiredStays(mem, mem1, objs1, mem2, objs2, root, w, a);
      } else {
        WiredBefore(mem, mem1, mem2, objs, objs1, objs2, root, w, from, mid, a);
      }
    }
  }

  /** A page that is wired stays so. */
  lemma {:induction false} WiredStays(mem: Mem, mem1: Mem, objs1: seq<seq<nat>>, mem2: Mem, objs2: seq<seq<nat>>,
                                      root: nat, w: Window, a: nat)
    requires Wired(mem, mem1, root, objs1, w, a) && a < VA_LIMIT && WireStep(mem1, objs1, mem2, objs2, root, w)
    requires Small(mem, root, a) ==> Small(mem1, root, a)
    ensures Wired(mem, mem2, root, objs2, w, a)
  {
    hide Walk, Reach, FromObject, Grown, Allowed;
    if Small(mem, root, a) {
      assert KeptSmall(mem1, mem2, root, a);
    } else {
      OpenedKept(mem1, mem2, root, a);
      FromGrown(objs1, objs2, w, a, Walk(mem1, root, 4, a));
    }
  }

  /** A page outside what has been dealt with is wired by the next step. */
  lemma {:induction false} WiredBefore(mem: Mem, mem1: Mem, mem2: Mem, objs: seq<seq<nat>>, objs1: seq<seq<nat>>,
                                       objs2: seq<seq<nat>>, root: nat, w: Window, from: nat, mid: nat, a: nat)
    requires WireStep(mem, objs, mem1, objs1, root, w) && NewSmall(mem, mem1, root, from, mid) && !(from <= a < mid)
    requires Wired(mem1, mem2, root, objs2, w, a) && a < VA_LIMIT
    ensures Wired(mem, mem2, root, objs2, w, a)
  {
    hide Walk, Reach, FromObject, Grown, Allowed;
    if Small(mem, root, a) { assert KeptSmall(mem, mem1, root, a); }
  }

  lemma {:induction false} NothingYet(mem: Mem, objs: seq<seq<nat>>, root: nat, w: Window, at: nat)
    ensures DealtWith(mem, objs, mem, objs, root, w, at, at)
  {
    StepRefl(mem, objs, root, w);
  }

  /** New empty tables change no translation. */
  lemma {:induction false} EmptyStep(mem: Mem, lv: map<nat, nat>, mem': Mem, lv': map<nat, nat>, objs: seq<seq<nat>>,
                                     root: nat, w: Window, at: nat)
    requires SameMeaning(mem, lv, mem', lv') && SmallSame(mem, lv, mem') && AllowedSame(mem, lv, mem')
    requires root in mem && root in lv && lv[root] == 4
    ensures DealtWith(mem, objs, mem', objs, root, w, at, at)
  {
    hide Walk, Small, Allowed;
    AllowedRoot(mem, lv, mem', root);
    assert forall a: nat :: Walk(mem', root, 4, a) == Walk(mem, root, 4, a);
    assert forall a: nat :: Small(mem, root, a) ==> KeptSmall(mem, mem', root, a);
  }

  /** A page with a present entry is left alone. */
  lemma {:induction false} PageDone(mem: Mem, lv: map<nat, nat>, objs: seq<seq<nat>>, root: nat, w: Window, pt: nat,
                                    va: nat)
    requires Leveled(mem, lv) && root in mem && lv[root] == 4 && va % 0x1000 == 0
    requires Reach(mem, root, 4, va, 1).Some? && Reach(mem, root, 4, va, 1).value.0 == pt && IsTable(mem, pt)
    requires w.lo <= va < w.hi ==> Present(mem[pt][Index(va, 1)])
    ensures DealtWith(mem, objs, mem, objs, root, w, va, va + 0x1000)
  {
    StepRefl(mem, objs, root, w);
    forall a: nat | a < VA_LIMIT && va <= a < va + 0x1000 && PageIn(a, w.lo, w.hi)
      ensures Wired(mem, mem, root, objs, w, a)
    {
      SamePage(mem, root, va, a);
      WalkVia(mem, lv, root, 4, a, 1);
    }
  }

  lemma {:induction false} ChunkOffset(mem: Mem, root: nat, chunk: nat, i: nat)
    requires chunk % MB2 == 0 && chunk < VA_LIMIT && i < 512
    ensures var va := chunk + i * 0x1000;
            && va % 0x1000 == 0 && va < VA_LIMIT && va / MB2 == chunk / MB2
            && Reach(mem, root, 4, va, 1) == Reach(mem, root, 4, chunk, 1)
  {
    var va := chunk + i * 0x1000;
    ModUnique(va, MB2, chunk / MB2, i * 0x1000);
    SamePrefix(mem, root, 4, va, chunk);
  }

  // ---- regions ------------------------------------------------------------------------------------

  /** The region has an object or gets one. */
  ghost predicate Backed(r: Region) { r.obj != 0 || IsAnon(r.flags) }

  function WindowOf(r: Region, lo: nat, hi: nat): Window
    requires r.obj != 0
  {
    Window(r.obj - 1, r.start, r.offset, lo, hi)
  }

  /** The region's object ends before the region's share of `[lo, hi)` does. */
  ghost predicate RegionShort(objs: seq<seq<nat>>, r: Region, lo: nat, hi: nat) {
    r.obj != 0 && Short(objs, WindowOf(r, if r.start > lo then r.start else lo, if r.end < hi then r.end else hi))
  }

  /** Why a region `r`, now `r'`, may be left without a page: it could get no object, or the object it had is too
      short, or the new one is because it starts past its first page. */
  ghost predicate Starved(objs: seq<seq<nat>>, r: Region, r': Region, memory: bool, lo: nat, hi: nat) {
    || (!memory && r.obj == 0 && IsAnon(r.flags))
    || (RegionShort(objs, r', lo, hi) && (r.obj != 0 || r.offset > 0))
  }

  /** Some region is left without a page. */
  ghost predicate Unsupplied(objs: seq<seq<nat>>, rs: seq<Region>, rs': seq<Region>, memory: seq<bool>, lo: nat,
                             hi: nat)
  {
    exists i :: 0 <= i < |rs| && i < |memory| && i < |rs'| && Starved(objs, rs[i], rs'[i], memory[i], lo, hi)
  }

  /** `a` lies in region `i` and is mapped to its place in the region's object. */
  ghost predicate FromRegion(rs: seq<Region>, objs: seq<seq<nat>>, i: nat, a: nat, m: Mapping) {
    && i < |rs| && rs[i].obj != 0 && PageIn(a, rs[i].start, rs[i].end)
    && FromObject(objs, WindowOf(rs[i], 0, 0), a, m)
  }

  ghost predicate Fed(rs: seq<Region>, objs: seq<seq<nat>>, a: nat, m: Mapping) {
    exists i: nat :: FromRegion(rs, objs, i, a, m)
  }

  /** Regions without an object may get one; nothing else about them changes. */
  ghost predicate RegionsGrown(rs: seq<Region>, rs': seq<Region>) {
    && |rs'| == |rs|
    && forall i :: 0 <= i < |rs| ==> rs'[i] == rs[i].(obj := rs'[i].obj) && (rs[i].obj != 0 ==> rs'[i] == rs[i])
  }

  /** The object is long enough for the region. */
  ghost predicate Covers(objs: seq<seq<nat>>, r: Region) {
    0 < r.obj <= |objs| && |objs[r.obj - 1]| * 0x1000 >= r.end - r.start
  }

  /** An object that a region got was nobody's, is nobody else's, and covers the region. */
  ghost predicate OwnObjects(objs: seq<seq<nat>>, rs: seq<Region>, objs': seq<seq<nat>>, rs': seq<Region>) {
    |rs'| == |rs| &&
    forall i :: 0 <= i < |rs| && rs'[i].obj != rs[i].obj ==>
      && |objs| < rs'[i].obj && Covers(objs', rs'[i])
      && forall j :: 0 <= j < |rs| && j != i ==> rs'[j].obj != rs'[i].obj
  }

  lemma {:induction false} OwnTrans(objs: seq<seq<nat>>, rs: seq<Region>, objs1: seq<seq<nat>>, rs1: seq<Region>,
                                    objs2: seq<seq<nat>>, rs2: seq<Region>)
    requires OwnObjects(objs, rs, objs1, rs1) && RegionsGrown(rs, rs1) && Grown(objs1, objs2)
    requires OwnObjects(objs1, rs1, objs2, rs2) && RegionsGrown(rs1, rs2) && |objs| <= |objs1|
    ensures OwnObjects(objs, rs, objs2, rs2)
  {
    forall i | 0 <= i < |rs| && rs2[i].obj != rs[i].obj
      ensures |objs| < rs2[i].obj && Covers(objs2, rs2[i])
      ensures forall j :: 0 <= j < |rs| && j != i ==> rs2[j].obj != rs2[i].obj
    {
      if rs1[i].obj != rs[i].obj {
        assert Covers(objs1, rs1[i]) && rs2[i] == rs1[i];
        assert PagesGrown(objs1[rs1[i].obj - 1], objs2[rs1[i].obj - 1]);
        assert forall j :: 0 <= j < |rs| && rs2[j].obj != rs1[j].obj ==> |objs1| < rs2[j].obj;
      }
    }
  }

  /** A new object is long enough for the share of a region that starts at its first page. */
  lemma {:induction false} NewReaches(objs: seq<seq<nat>>, r: Region, lo: nat, hi: nat)
    requires Covers(objs, r) && r.offset == 0
    ensures !RegionShort(objs, r, lo, hi)
  {
    var w := WindowOf(r, if r.start > lo then r.start else lo, if r.end < hi then r.end else hi);
    forall va: nat ensures !PastEnd(objs[w.o], w, va) {
      var pages := |objs[w.o]|;
      if w.start <= va < r.end {
        assert va - r.start < pages * 0x1000;
        assert PageNo(w, va) == (va - r.start) / 0x1000;
      }
    }
  }

  /** What wiring `[lo, hi)` may do: a page outside or mapped by a 4 KB entry is kept, and a
      translation that changed leads to the page of the object behind a region at that address, with exactly the
      rights that the entries above it allow; and those allow what they did before. */
  ghost predicate RangeStep(mem: Mem, objs: seq<seq<nat>>, rs: seq<Region>, mem': Mem, objs': seq<seq<nat>>,
                            rs': seq<Region>, root: nat, lo: nat, hi: nat)
  {
    && KeptOutside(mem, mem', root, lo, hi) && SmallKept(mem, mem', root) && AllowedKept(mem, mem', root)
    && Grown(objs, objs') && RegionsGrown(rs, rs') && OwnObjects(objs, rs, objs', rs')
    && forall a: nat :: a < VA_LIMIT && Walk(mem', root, 4, a) != Walk(mem, root, 4, a) ==>
         Fed(rs', objs', a, Walk(mem', root, 4, a)) && Opened(mem', root, a)
  }

  lemma {:induction false} FedGrown(rs: seq<Region>, objs: seq<seq<nat>>, rs': seq<Region>, objs': seq<seq<nat>>,
                                    a: nat, m: Mapping)
    requires Fed(rs, objs, a, m) && RegionsGrown(rs, rs') && Grown(objs, objs')
    ensures Fed(rs', objs', a, m)
  {
    var i: nat :| FromRegion(rs, objs, i, a, m);
    FromGrown(objs, objs', WindowOf(rs[i], 0, 0), a, m);
    assert FromRegion(rs', objs', i, a, m);
  }

  lemma {:induction false} RangeRefl(mem: Mem, objs: seq<seq<nat>>, rs: seq<Region>, root: nat, lo: nat, hi: nat)
    ensures RangeStep(mem, objs, rs, mem, objs, rs, root, lo, hi)
  {
    assert forall a: nat :: a < VA_LIMIT && Small(mem, root, a) ==> KeptSmall(mem, mem, root, a);
  }

  lemma {:induction false} RangeTrans(mem: Mem, objs: seq<seq<nat>>, rs: seq<Region>, mem1: Mem, objs1: seq<seq<nat>>,
                                      rs1: seq<Region>, mem2: Mem, objs2: seq<seq<nat>>, rs2: seq<Region>, root: nat,
                                      lo: nat, hi: nat)
    requires RangeStep(mem, objs, rs, mem1, objs1, rs1, root, lo, hi)
    requires RangeStep(mem1, objs1, rs1, mem2, objs2, rs2, root, lo, hi)
    ensures RangeStep(mem, objs, rs, mem2, objs2, rs2, root, lo, hi)
  {
    SmallKeptTrans(mem, mem1, mem2, root);
    GrownTrans(objs, objs1, objs2);
    OwnTrans(objs, rs, objs1, rs1, objs2, rs2);
    hide Small, SmallKept, Fed, Grown, Opened, Walk, Allowed, OwnObjects;
    forall a: nat | a < VA_LIMIT && Walk(mem2, root, 4, a) != Walk(mem, root, 4, a)
      ensures Fed(rs2, objs2, a, Walk(mem2, root, 4, a)) && Opened(mem2, root, a)
    {
      if Walk(mem2, root, 4, a) == Walk(mem1, root, 4, a) {
        FedGrown(rs1, objs1, rs2, objs2, a, Walk(mem1, root, 4, a));
        OpenedKept(mem1, mem2, root, a);
      }
    }
  }

  /** Wiring a window of region `i` is such a step. */
  lemma {:induction false} WindowStep(mem: Mem, objs: seq<seq<nat>>, mem': Mem, objs': seq<seq<nat>>, rs: seq<Region>,
                                      i: nat, root: nat, ws: nat, we: nat, lo: nat, hi: nat)
    requires i < |rs| && rs[i].obj != 0 && WireStep(mem, objs, mem', objs', root, WindowOf(rs[i], ws, we))
    requires rs[i].start <= ws && we <= rs[i].end && lo <= ws && we <= hi
    ensures RangeStep(mem, objs, rs, mem', objs', rs, root, lo, hi)
  {
    hide Small, SmallKept, Grown, FromObject, Fed, PageBase, Opened, Allowed;
    forall a: nat | a < VA_LIMIT && Walk(mem', root, 4, a) != Walk(mem, root, 4, a)
      ensures Fed(rs, objs', a, Walk(mem', root, 4, a))
    {
      FromWindow(rs, objs', i, ws, we, a, Walk(mem', root, 4, a));
    }
  }

  lemma {:induction false} FromWindow(rs: seq<Region>, objs: seq<seq<nat>>, i: nat, ws: nat, we: nat, a: nat,
                                      m: Mapping)
    requires i < |rs| && rs[i].obj != 0 && rs[i].start <= ws && we <= rs[i].end && PageIn(a, ws, we)
    requires FromObject(objs, WindowOf(rs[i], ws, we), a, m)
    ensures Fed(rs, objs, a, m)
  {
    SameSource(objs, rs[i], ws, we, 0, 0, a, m);
    assert FromRegion(rs, objs, i, a, m);
  }

  /** Which page belongs at an address does not depend on the range being wired. */
  lemma {:induction false} SameSource(objs: seq<seq<nat>>, r: Region, lo: nat, hi: nat, lo': nat, hi': nat, a: nat,
                                      m: Mapping)
    requires r.obj != 0
    ensures FromObject(objs, WindowOf(r, lo, hi), a, m) == FromObject(objs, WindowOf(r, lo', hi'), a, m)
  {
    hide PageBase;
    var w, w' := WindowOf(r, lo, hi), WindowOf(r, lo', hi');
    assert w.o == w'.o && w.start == w'.start && w.offset == w'.offset;
    if w.start <= PageBase(a) { assert PageNo(w, PageBase(a)) == PageNo(w', PageBase(a)); }
  }

  /** Only objects and regions grew. */
  lemma {:induction false} ObjectsStep(mem: Mem, objs: seq<seq<nat>>, rs: seq<Region>, objs': seq<seq<nat>>,
                                       rs': seq<Region>, root: nat, lo: nat, hi: nat)
    requires Grown(objs, objs') && RegionsGrown(rs, rs') && OwnObjects(objs, rs, objs', rs')
    ensures RangeStep(mem, objs, rs, mem, objs', rs', root, lo, hi)
  {
    assert forall a: nat :: a < VA_LIMIT && Small(mem, root, a) ==> KeptSmall(mem, mem, root, a);
  }

  /** Every page of the range that lies in the region is wired. */
  ghost predicate ShareWired(mem: Mem, mem': Mem, root: nat, objs: seq<seq<nat>>, r: Region, lo: nat, hi: nat)
    requires r.obj != 0
  {
    forall a: nat :: a < VA_LIMIT && PageIn(a, r.start, r.end) && PageIn(a, lo, hi) ==>
      Wired(mem, mem', root, objs, WindowOf(r, lo, hi), a)
  }

  /** Every page of the range that lies in the region is mapped. */
  ghost predicate ShareMapped(mem: Mem, root: nat, r: Region, lo: nat, hi: nat) {
    forall a: nat :: a < VA_LIMIT && PageIn(a, r.start, r.end) && PageIn(a, lo, hi) ==> Walk(mem, root, 4, a).Mapped?
  }

  lemma {:induction false} NoShare(mem: Mem, mem': Mem, root: nat, objs: seq<seq<nat>>, r: Region, lo: nat, hi: nat)
    requires !(r.start < hi && r.end > lo)
    ensures ShareMapped(mem', root, r, lo, hi) && (r.obj != 0 ==> ShareWired(mem, mem', root, objs, r, lo, hi))
  {
  }

  /** The window is the region's share. */
  lemma {:induction false} Share(mem: Mem, mem': Mem, root: nat, objs: seq<seq<nat>>, r: Region, lo: nat, hi: nat,
                                 ws: nat, we: nat)
    requires r.obj != 0 && ws == (if r.start > lo then r.start else lo) && we == if r.end < hi then r.end else hi
    requires RangeWired(mem, mem', root, objs, WindowOf(r, ws, we), 0, VA_LIMIT)
    ensures ShareWired(mem, mem', root, objs, r, lo, hi)
  {
    hide Walk, Small, FromObject, PageBase;
    forall a: nat | a < VA_LIMIT && PageIn(a, r.start, r.end) && PageIn(a, lo, hi)
      ensures Wired(mem, mem', root, objs, WindowOf(r, lo, hi), a)
    {
      assert Wired(mem, mem', root, objs, WindowOf(r, ws, we), a);
      SameSource(objs, r, ws, we, lo, hi, a, Walk(mem', root, 4, a));
    }
  }

  /** A wired page is mapped. */
  lemma {:induction false} WiredMapped(mem: Mem, mem': Mem, root: nat, objs: seq<seq<nat>>, r: Region, lo: nat, hi: nat)
    requires r.obj != 0 && ShareWired(mem, mem', root, objs, r, lo, hi)
    ensures ShareMapped(mem', root, r, lo, hi)
  {
    hide Reach, PageBase;
  }

  /** Nothing gets unmapped. */
  lemma {:induction false} ShareKept(mem: Mem, objs: seq<seq<nat>>, rs: seq<Region>, mem': Mem, objs': seq<seq<nat>>,
                                     rs': seq<Region>, root: nat, r: Region, lo: nat, hi: nat)
    requires RangeStep(mem, objs, rs, mem', objs', rs', root, lo, hi) && ShareMapped(mem, root, r, lo, hi)
    ensures ShareMapped(mem', root, r, lo, hi)
  {
    hide Small, Reach, PageBase, Grown;
    forall a: nat | a < VA_LIMIT && PageIn(a, r.start, r.end) && PageIn(a, lo, hi)
      ensures Walk(mem', root, 4, a).Mapped?
    {
      if Walk(mem', root, 4, a) != Walk(mem, root, 4, a) {
        var i: nat :| FromRegion(rs', objs', i, a, Walk(mem', root, 4, a));
      }
    }
  }

  /** The chunks of a window cover it. */
  lemma {:induction false} WholeWindow(mem: Mem, mem': Mem, root: nat, objs: seq<seq<nat>>, w: Window, from: nat,
                                       to: nat)
    requires RangeWired(mem, mem', root, objs, w, from, to) && from <= w.lo && w.hi <= to && to % MB2 == 0
    ensures RangeWired(mem, mem', root, objs, w, 0, VA_LIMIT)
  {
    forall a: nat | a < VA_LIMIT && PageIn(a, w.lo, w.hi) ensures from <= a < to {
      ModUnique(to, 0x1000, to / MB2 * 512, 0);
    }
    hide Walk, Small, Wired, PageBase;
  }

  lemma {:induction false} SameShare(mem: Mem, root: nat, r: Region, r': Region, lo: nat, hi: nat)
    requires r' == r.(obj := r'.obj) && ShareMapped(mem, root, r', lo, hi)
    ensures ShareMapped(mem, root, r, lo, hi)
  {
  }

  /** A region that got its object on the way is not starved by it. */
  lemma {:induction false} NewCovers(mem: Mem, objs: seq<seq<nat>>, rs: seq<Region>, mem': Mem, objs': seq<seq<nat>>,
                                     rs': seq<Region>, root: nat, lo: nat, hi: nat, i: nat)
    requires RangeStep(mem, objs, rs, mem', objs', rs', root, lo, hi) && i < |rs|
    requires rs[i].obj == 0 && rs[i].offset == 0
    ensures i < |rs'| && !RegionShort(objs', rs'[i], lo, hi)
  {
    hide Small, Reach, Grown, Walk, Fed, Opened, RegionShort;
    if rs'[i].obj != 0 {
      NewReaches(objs', rs'[i], lo, hi);
    } else {
      Objectless(objs', rs'[i], lo, hi);
    }
  }

  lemma {:induction false} Objectless(objs: seq<seq<nat>>, r: Region, lo: nat, hi: nat)
    requires r.obj == 0
    ensures !RegionShort(objs, r, lo, hi)
  {
  }

  lemma {:induction false} StepLength(mem: Mem, objs: seq<seq<nat>>, rs: seq<Region>, mem': Mem, objs': seq<seq<nat>>,
                                      rs': seq<Region>, root: nat, lo: nat, hi: nat)
    requires RangeStep(mem, objs, rs, mem', objs', rs', root, lo, hi)
    ensures |rs'| == |rs|
  {
  }

  lemma {:induction false} StepGrown(mem: Mem, objs: seq<seq<nat>>, mem': Mem, objs': seq<seq<nat>>, root: nat,
                                     w: Window)
    requires WireStep(mem, objs, mem', objs', root, w)
    ensures |objs| <= |objs'|
  {
  }

  // ---- words of a replacement table ------------------------------------------------------------

  lemma {:induction false} ObjectWord(pa: nat, pde: nat, chunk: nat, objs: seq<seq<nat>>, w: Window, j: nat)
    requires w.lo <= chunk + j * 0x1000 < w.hi && PageAligned(pa) && FrameFor(objs, w, chunk + j * 0x1000, pa)
    ensures Replacement(TableWord(pa), pde, chunk, objs, w, j)
  {
  }

  lemma {:induction false} OldWord(pde: nat, chunk: nat, objs: seq<seq<nat>>, w: Window, j: nat)
    requires !(w.lo <= chunk + j * 0x1000 < w.hi)
    ensures Replacement(SplitWord(pde, j), pde, chunk, objs, w, j)
  {
  }

  lemma {:induction false} WordsKept(words: seq<nat>, pde: nat, chunk: nat, objs: seq<seq<nat>>, objs': seq<seq<nat>>,
                                     w: Window)
    requires Grown(objs, objs') && forall j: nat :: j < |words| ==> Replacement(words[j], pde, chunk, objs, w, j)
    ensures forall j: nat :: j < |words| ==> Replacement(words[j], pde, chunk, objs', w, j)
  {
    hide Grown, FrameFor, SplitWord, PageAligned;
    forall j: nat | j < |words| ensures Replacement(words[j], pde, chunk, objs', w, j) {
      var va := chunk + j * 0x1000;
      assert Replacement(words[j], pde, chunk, objs, w, j);
      if w.lo <= va < w.hi { FrameGrown(objs, objs', w, va, words[j] - 7); }
    }
  }
}
