/** The kernel's page-table routines, updating tables in physical memory in place.
    Fresh tables and frames come from the buddy allocator. */
module PageTables {
  import opened Options
  import opened Frames
  import opened Tiling
  import opened Buddy
  import BuddyState
  import opened Arithmetic
  import opened Paging
  import opened PagingEdits

  /** A table that lies in the heap lies in an allocated block. */
  ghost predicate Hosted(mem: Mem, al: map<nat, Allocation>) {
    forall t :: t in mem && HeapPage(t) ==> FrameOf(t) in al
  }

  /** Tables that are new lie in frames that were not in use. */
  ghost predicate NewHeld(held: set<nat>, held': set<nat>, used: set<nat>) {
    forall t :: t in held' && t !in held ==> HeapPage(t) && FrameOf(t) !in used
  }

  /** Every table keeps its level and every address its translation through it. */
  ghost predicate SameMeaning(mem: Mem, lv: map<nat, nat>, mem': Mem, lv': map<nat, nat>) {
    forall t :: t in mem && t in lv ==>
      t in mem' && t in lv' && lv'[t] == lv[t] && forall va: nat :: Walk(mem', t, lv[t], va) == Walk(mem, t, lv[t], va)
  }

  ghost predicate TreesKept(mem: Mem, lv: map<nat, nat>, mem': Mem) {
    forall t :: t in mem && t in lv && lv[t] == 4 && Tree(mem, t) ==> Tree(mem', t)
  }

  /** The address is mapped by a 4 KB entry. */
  ghost predicate Small(mem: Mem, root: nat, a: nat)
  {
    Reach(mem, root, 4, a, 1).Some? && Walk(mem, root, 4, a).Mapped?
  }

  /** Through every root, the same addresses are mapped by 4 KB entries. */
  ghost predicate SmallSame(mem: Mem, lv: map<nat, nat>, mem': Mem) {
    forall t, a: nat :: t in mem && t in lv && lv[t] == 4 ==> Small(mem', t, a) == Small(mem, t, a)
  }

  /** Through every table, the upper levels allow what they did. */
  ghost predicate AllowedSame(mem: Mem, lv: map<nat, nat>, mem': Mem) {
    forall t, va: nat :: t in mem && t in lv ==> Allowed(mem', t, lv[t], va) == Allowed(mem, t, lv[t], va)
  }

  ghost predicate AllowedKept(mem: Mem, mem': Mem, root: nat) {
    forall va: nat :: Allowed(mem', root, 4, va) == Allowed(mem, root, 4, va)
  }

  lemma AllowedTrans(mem: Mem, lv: map<nat, nat>, mem1: Mem, lv1: map<nat, nat>, mem2: Mem)
    requires AllowedSame(mem, lv, mem1) && AllowedSame(mem1, lv1, mem2) && SameMeaning(mem, lv, mem1, lv1)
    ensures AllowedSame(mem, lv, mem2)
  {
    hide Walk, Allowed;
  }

  lemma AllowedRoot(mem: Mem, lv: map<nat, nat>, mem': Mem, root: nat)
    requires AllowedSame(mem, lv, mem') && root in mem && root in lv && lv[root] == 4
    ensures AllowedKept(mem, mem', root)
  {
    hide Allowed;
  }

  /** A 4 KB entry maps the address with exactly the rights that the levels above allow. */
  ghost predicate Opened(mem: Mem, root: nat, a: nat) {
    && Small(mem, root, a)
    && var m, u := Walk(mem, root, 4, a), Allowed(mem, root, 4, a); m == Mapped(m.pa, u.rw, u.us, u.nx)
  }

  /** The 2 MB region of `virt` maps the 2 MB page of `phys` with the rights the upper levels allow. */
  ghost predicate HugeMapped(mem: Mem, mem': Mem, root: nat, virt: nat, phys: nat) {
    && Reach(mem, root, 4, virt, 2).Some?
    && forall a: nat :: a < VA_LIMIT && a / 0x20_0000 == virt / 0x20_0000 ==>
         Walk(mem', root, 4, a) ==
         Through(Reach(mem, root, 4, virt, 2).value.1,
                 Mapped(phys - phys % 0x20_0000 + a % 0x20_0000, true, true, false))
  }

  datatype PtResult = NoMemory | HugePage | At(pt: nat)

  /** The directory entry for `va` has its size bit set. */
  ghost predicate HugeEntry(mem: Mem, root: nat, va: nat) {
    && Reach(mem, root, 4, va, 2).Some?
    && IsTable(mem, Reach(mem, root, 4, va, 2).value.0)
    && Huge(Entry(mem, Reach(mem, root, 4, va, 2).value.0, 2, va))
  }

  /** The directory entry for `va` has its size bit set without being present. */
  ghost predicate StaleHuge(mem: Mem, root: nat, va: nat) {
    HugeEntry(mem, root, va) && !Present(Entry(mem, Reach(mem, root, 4, va, 2).value.0, 2, va))
  }

  /** The address maps into a heap page that was not allocated before. */
  ghost predicate FreshPage(al: map<nat, Allocation>, m: Mapping, va: nat) {
    m.Mapped? && exists f: nat :: HeapPage(f) && FrameOf(f) !in al && m.pa == f + va % 0x1000
  }

  /** An operation on the directory entry for `va` writes to that directory and to the page
      table below the entry, and the directory leads to no table it did not lead to before
      except fresh ones. */
  ghost predicate LocalTo(mem: Mem, mem': Mem, root: nat, va: nat) {
    match Reach(mem, root, 4, va, 2)
    case None => mem' == mem
    case Some(x) =>
      && IsTable(mem, x.0) && IsTable(mem', x.0)
      && (forall t :: t in mem ==> || t == x.0 || Below(mem, x.0, Index(va, 2), t)
                                   || (t in mem' && mem'[t] == mem[t]))
      && (forall j :: 0 <= j < 512 ==> NoNewLink(mem, mem[x.0][j], mem'[x.0][j]))
  }

  ghost predicate Below(mem: Mem, pd: nat, i: nat, t: nat) {
    IsTable(mem, pd) && i < 512 && Descends(mem[pd][i], 2) && t == FrameBits(mem[pd][i])
  }

  ghost predicate NoNewLink(mem: Mem, w: nat, w': nat) {
    Descends(w', 2) ==> (Descends(w, 2) && FrameBits(w') == FrameBits(w)) || FrameBits(w') !in mem
  }

  lemma {:induction false} OnePage()
    ensures OrderFor(4096) == 0
  {
    var o := OrderFor(4096);
  }

  /** The directory entry for `va` is reached and present. */
  ghost predicate Leads(mem: Mem, root: nat, va: nat) {
    && Reach(mem, root, 4, va, 2).Some?
    && IsTable(mem, Reach(mem, root, 4, va, 2).value.0)
    && Present(Entry(mem, Reach(mem, root, 4, va, 2).value.0, 2, va))
  }

  lemma {:induction false} InstallHosted(mem: Mem, lv: map<nat, nat>, al: map<nat, Allocation>, p: nat, i: nat, t: nat,
                                         words: seq<nat>)
    requires Installable(mem, lv, p, i, t, words) && Hosted(mem, al) && HeapPage(t) && FrameOf(t) in al
    ensures IsTable(mem, p) && p in lv && Hosted(Install(mem, p, i, t, words), al)
  {
  }

  class PageMemory {
    const buddy: BuddyAllocator
    var tables: Mem
    ghost var level: map<nat, nat>

    ghost function Repr(): set<object> { {this} + buddy.Repr() }

    ghost predicate Valid()
      reads Repr()
    {
      buddy.Valid() && Leveled(tables, level) && Hosted(tables, buddy.Live())
    }

    ghost predicate Root(t: nat)
      reads this
    {
      t in tables && t in level && level[t] == 4
    }

    /** No frame is free. */
    ghost predicate NoFrame()
      reads Repr()
    {
      !RunAvailable(buddy.Live(), 0)
    }

    constructor (b: BuddyAllocator, mem: Mem, ghost lv: map<nat, nat>)
      requires b.Valid() && Leveled(mem, lv) && Hosted(mem, b.Live())
      ensures buddy == b && tables == mem && level == lv && Valid()
    {
      buddy, tables, level := b, mem, lv;
    }

    /** One page for a table or a frame: never one that is in use as a table. */
    method NewPage() returns (t: nat)
      requires Valid()
      modifies buddy.Repr()
      ensures Valid()
      ensures t != 0 ==> t !in tables && PageAligned(t) && HeapPage(t)
      ensures t != 0 ==> FrameOf(t) !in old(buddy.Live()) && FrameOf(t) in buddy.Live()
      ensures t == 0 <==> old(NoFrame())
      ensures t == 0 ==> buddy.Live() == old(buddy.Live()) && NoFrame()
      ensures old(buddy.Live()).Keys <= buddy.Live().Keys
    {
      hide BuddyState.Inv, NoHand, Leveled, RunAvailable;
      OnePage();
      t := buddy.MmapUser(4096);
    }

    /** Fills a fresh page and points an entry at it. */
    method InstallTable(p: nat, i: nat, t: nat, words: seq<nat>)
      requires Valid() && Installable(tables, level, p, i, t, words) && HeapPage(t) && FrameOf(t) in buddy.Live()
      modifies this
      ensures Valid() && tables == Install(old(tables), p, i, t, words) && level == old(level)[t := old(level[p]) - 1]
    {
      hide BuddyState.Inv, NoHand, Leveled, Hosted;
      InstallLeveled(tables, level, p, i, t, words);
      InstallHosted(tables, level, buddy.Live(), p, i, t, words);
      level := level[t := level[p] - 1];
      tables := tables[p := Stored(tables[p], i, TableWord(t))][t := words];
    }

    /** Walks to the page directory that translates `va`, if the upper entries are present. */
    method FindPd(pml4: nat, va: nat) returns (pd: Option<nat>)
      requires Valid() && Root(pml4)
      ensures pd.Some? <==> Reach(tables, pml4, 4, va, 2).Some?
      ensures pd.Some? ==>
                Reach(tables, pml4, 4, va, 2).value.0 == pd.value && IsTable(tables, pd.value) && level[pd.value] == 2
    {
      var e4 := tables[pml4][Index(va, 4)];
      if !Present(e4) { return None; }
      assert EntryOk(level, 4, e4);
      PtrIsFrame(e4);
      var pdpt := Ptr(e4);
      var e3 := tables[pdpt][Index(va, 3)];
      if !Present(e3) { return None; }
      assert EntryOk(level, 3, e3);
      PtrIsFrame(e3);
      pd := Some(Ptr(e3));
    }

    /** Replaces a 2 MB page by 512 pages of 4 KB: no address changes its translation. */
    method SplitPde(pml4: nat, va: nat) returns (r: int)
      requires Valid() && Root(pml4)
      modifies Repr()
      ensures Valid() && SameMeaning(old(tables), old(level), tables, level)
      ensures TreesKept(old(tables), old(level), tables)
      ensures r == 0 || r == -1
      ensures r == 0 <==> Reach(tables, pml4, 4, va, 1).Some?
      ensures r == -1 ==> tables == old(tables) && (!Leads(tables, pml4, va) || NoFrame())
      ensures LocalTo(old(tables), tables, pml4, va) && ReachKept(old(tables), old(level), tables, 2)
      ensures AllowedSame(old(tables), old(level), tables)
    {
      hide BuddyState.Inv, NoHand, Leveled, RunAvailable, Reach, Walk, SameMeaning, TreesKept, SplitWords, LocalTo,
           ReachKept, AllowedSame;
      LocalRefl(tables, level, pml4, va);
      Unchanged(tables, level);
      var found := FindPd(pml4, va);
      if found.None? {
        NoPd(tables, level, pml4, va);
        return -1;
      }
      var pd, i := found.value, Index(va, 2);
      var pde := tables[pd][i];
      ReachPt(tables, level, pml4, va, pd);
      if !Present(pde) { return -1; }
      if !Huge(pde) { return 0; }
      var pt := NewPage();
      if pt == 0 { return -1; }
      SplitAll(tables, level, pd, i, pt, pml4, va);
      EmptyAllowed(tables, level, pd, i, pt, SplitWords(pde));
      var words := FillSplit(pde);
      InstallTable(pd, i, pt, words);
      return 0;
    }

    /** The page table that translates `va`, when the upper entries are present. */
    method FindPt(pml4: nat, va: nat) returns (pt: nat)
      requires Valid() && Root(pml4) && Reach(tables, pml4, 4, va, 1).Some?
      ensures pt == Reach(tables, pml4, 4, va, 1).value.0 && IsTable(tables, pt) && level[pt] == 1
    {
      var pd := FindPd(pml4, va);
      if pd.None? { NoPd(tables, level, pml4, va); assert false; }
      ReachPt(tables, level, pml4, va, pd.value);
      var w := tables[pd.value][Index(va, 2)];
      assert EntryOk(level, 2, w);
      PtrIsFrame(w);
      pt := Ptr(w);
    }

    method StoreWord(p: nat, i: nat, w: nat)
      requires Valid() && Tame(tables, level, p, i, w)
      modifies this`tables
      ensures Valid() && tables == Put(old(tables), p, i, w)
    {
      PutLeveled(tables, level, p, i, w);
      hide BuddyState.Inv, NoHand, Leveled;
      tables := tables[p := Stored(tables[p], i, w)];
    }

    /** Opens one 4 KB page to user mode: at most the U/S right of that page changes, and
        it becomes what the upper levels allow. */
    method AddUser4K(pml4: nat, va: nat) returns (r: int)
      requires Valid() && Root(pml4) && Tree(tables, pml4) && va < VA_LIMIT
      modifies Repr()
      ensures Valid() && Root(pml4) && Tree(tables, pml4)
      ensures r == -1 ==> tables == old(tables) && (!Leads(tables, pml4, va) || NoFrame())
      ensures r == 0 || r == -1
      ensures forall a: nat :: a < VA_LIMIT && a / 0x1000 != va / 0x1000 ==>
                Walk(tables, pml4, 4, a) == old(Walk(tables, pml4, 4, a))
      ensures r == 0 ==> forall a: nat :: a < VA_LIMIT && a / 0x1000 == va / 0x1000 ==>
                OnlyUser(old(Walk(tables, pml4, 4, a)), Walk(tables, pml4, 4, a), old(Allowed(tables, pml4, 4, va).us))
      ensures LocalTo(old(tables), tables, pml4, va)
      ensures forall t :: t in old(tables) ==> t in level && level[t] == old(level)[t]
    {
      hide BuddyState.Inv, NoHand, Leveled, RunAvailable, Reach, Walk, Tree, SetUser, LocalTo, Tame, Leads, Allowed,
           AllowedSame;
      ghost var mem0, lv0 := tables, level;
      ghost var base := va - va % 0x20_0000;
      r := SplitPde(pml4, va - va % 0x20_0000);
      Meaning(mem0, lv0, tables, level, pml4);
      LevelKeys(mem0, lv0);
      MeaningLevels(mem0, lv0, tables, level);
      if r < 0 {
        LocalRefl(mem0, lv0, pml4, va);
        SameLeads(mem0, pml4, base, va);
        return -1;
      }
      SamePrefix(tables, pml4, 4, va - va % 0x20_0000, va);
      var pt := FindPt(pml4, va);
      var i := Index(va, 1);
      AllowedRoot(mem0, lv0, tables, pml4);
      UserAll(tables, level, pml4, pt, va);
      LocalThenPt(mem0, lv0, tables, level, pml4, base, va, pt, SetUser(tables[pt][i]));
      StoreWord(pt, i, SetUser(tables[pt][i]));
      return 0;
    }

    /** Follows the entry for `va` in a table of level `k`, first giving it an empty table if it is absent. */
    method Follow(p: nat, k: nat, va: nat) returns (q: Option<nat>)
      requires Valid() && p in tables && level[p] == k >= 2
      requires k == 2 ==> !(Present(tables[p][Index(va, 2)]) && Huge(tables[p][Index(va, 2)]))
      modifies Repr()
      ensures Valid() && SameMeaning(old(tables), old(level), tables, level)
      ensures TreesKept(old(tables), old(level), tables)
      ensures ReachKept(old(tables), old(level), tables, k) && SmallSame(old(tables), old(level), tables)
      ensures AllowedSame(old(tables), old(level), tables)
      ensures q.None? ==> tables == old(tables) && NoFrame()
      ensures old(Present(tables[p][Index(va, k)])) ==> tables == old(tables)
      ensures q.Some? && !old(Present(tables[p][Index(va, k)])) ==> q.value in tables && tables[q.value] == Zeros()
      ensures q.Some? ==> p in tables && level[p] == k && IsTable(tables, p) && IsTable(tables, q.value)
      ensures q.Some? ==> Descends(Entry(tables, p, k, va), k) && FrameBits(Entry(tables, p, k, va)) == q.value
      ensures q.Some? ==> q.value in level && level[q.value] == k - 1
      ensures old(buddy.Live()).Keys <= buddy.Live().Keys
      ensures NewHeld(old(tables).Keys, tables.Keys, old(buddy.Live()).Keys)
    {
      hide BuddyState.Inv, NoHand, Leveled, RunAvailable, Reach, Walk, SameMeaning, SmallSame, TreesKept, ReachKept,
           Tree, AllowedSame;
      var i := Index(va, k);
      TableSize(tables, level, p);
      var ok := EnsureTable(p, k, i);
      if !ok { return None; }
      EntryLeads(tables, level, p, i);
      q := Some(Ptr(tables[p][i]));
    }

    /** Gives an absent entry an empty table. */
    method EnsureTable(p: nat, k: nat, i: nat) returns (ok: bool)
      requires Valid() && IsTable(tables, p) && level[p] == k >= 2 && i < 512
      modifies Repr()
      ensures Valid() && SameMeaning(old(tables), old(level), tables, level)
      ensures TreesKept(old(tables), old(level), tables)
      ensures ReachKept(old(tables), old(level), tables, k) && SmallSame(old(tables), old(level), tables)
      ensures AllowedSame(old(tables), old(level), tables)
      ensures IsTable(tables, p) && p in level && level[p] == k
      ensures !ok || old(Present(tables[p][i])) ==> tables == old(tables)
      ensures !ok ==> NoFrame()
      ensures ok ==> Present(tables[p][i]) && (old(Present(tables[p][i])) || NewlyEmpty(tables, tables[p][i]))
      ensures old(buddy.Live()).Keys <= buddy.Live().Keys
      ensures NewHeld(old(tables).Keys, tables.Keys, old(buddy.Live()).Keys)
    {
      hide BuddyState.Inv, NoHand, Leveled, RunAvailable, Reach, Walk, SameMeaning, SmallSame, TreesKept, ReachKept,
           Tree, AllowedSame;
      Unchanged(tables, level);
      TableSize(tables, level, p);
      if Present(tables[p][i]) { return true; }
      var t := NewPage();
      if t == 0 { return false; }
      EmptyAll(tables, level, p, i, t);
      EmptySmall(tables, level, p, i, t);
      EmptyAllowed(tables, level, p, i, t, Zeros());
      InstallTable(p, i, t, Zeros());
      TableWordFacts(t);
      ok := true;
    }

    /** Follows the first two levels, creating what is missing. */
    method MakePd(pml4: nat, va: nat) returns (pd: Option<nat>)
      requires Valid() && Root(pml4)
      modifies Repr()
      ensures Valid() && SameMeaning(old(tables), old(level), tables, level)
      ensures TreesKept(old(tables), old(level), tables)
      ensures SmallSame(old(tables), old(level), tables) && (pd.None? ==> NoFrame())
      ensures AllowedSame(old(tables), old(level), tables)
      ensures pd.Some? ==> Root(pml4) && IsTable(tables, pd.value) && pd.value in level && level[pd.value] == 2
      ensures pd.Some? ==> Reach(tables, pml4, 4, va, 2).Some? && Reach(tables, pml4, 4, va, 2).value.0 == pd.value
      ensures pd.Some? ==> tables == old(tables) || tables[pd.value] == Zeros()
      ensures old(Reach(tables, pml4, 4, va, 2)).Some? ==> tables == old(tables)
      ensures old(buddy.Live()).Keys <= buddy.Live().Keys
      ensures NewHeld(old(tables).Keys, tables.Keys, old(buddy.Live()).Keys)
    {
      hide BuddyState.Inv, NoHand, Leveled, RunAvailable, Reach, Walk, SameMeaning, SmallSame, TreesKept, ReachKept,
           Tree, Zeros, FrameBits, AllowedSame;
      ghost var mem0, lv0 := tables, level;
      TableSize(tables, level, pml4);
      UpperPresent(tables, level, pml4, va);
      var pdpt := Follow(pml4, 4, va);
      if pdpt.None? { return None; }
      ghost var mem1, lv1 := tables, level;
      TableSize(mem1, lv1, pml4);
      ReachSelf(mem1, lv1, pml4, va);
      ReachDown(mem1, lv1, pml4, va, pml4, 4);
      pd := Follow(pdpt.value, 3, va);
      MeaningTrans(mem0, lv0, mem1, lv1, tables, level, pml4);
      SmallTrans(mem0, lv0, mem1, lv1, tables);
      AllowedTrans(mem0, lv0, mem1, lv1, tables);
      if pd.None? { return None; }
      Kept(mem1, lv1, tables, 3, pml4, va);
      ReachDown(tables, level, pml4, va, pdpt.value, 3);
      ZerosAbsent(Index(va, 3));
    }

    /** The page table for `va`, creating what is missing unless a 2 MB page is in the way. */
    method MakePt(pml4: nat, va: nat) returns (x: PtResult)
      requires Valid() && Root(pml4)
      modifies Repr()
      ensures Valid() && SameMeaning(old(tables), old(level), tables, level)
      ensures TreesKept(old(tables), old(level), tables)
      ensures AllowedSame(old(tables), old(level), tables) && (x.NoMemory? ==> NoFrame())
      ensures x.HugePage? ==> tables == old(tables) && HugeEntry(tables, pml4, va)
      ensures x.At? ==> !StaleHuge(old(tables), pml4, va)
      ensures x.At? ==> Root(pml4) && IsTable(tables, x.pt) && x.pt in level && level[x.pt] == 1
      ensures x.At? ==> Reach(tables, pml4, 4, va, 1).Some? && Reach(tables, pml4, 4, va, 1).value.0 == x.pt
      ensures old(buddy.Live()).Keys <= buddy.Live().Keys
    {
      hide BuddyState.Inv, NoHand, Leveled, RunAvailable, Reach, Walk, SameMeaning, TreesKept, ReachKept, Tree, Zeros,
           FrameBits, AllowedSame;
      ghost var mem0, lv0 := tables, level;
      var pd := MakePd(pml4, va);
      if pd.None? { return NoMemory; }
      ZerosAbsent(Index(va, 2));
      if Huge(tables[pd.value][Index(va, 2)]) { return HugePage; }
      ghost var mem1, lv1 := tables, level;
      var pt := Follow(pd.value, 2, va);
      MeaningTrans(mem0, lv0, mem1, lv1, tables, level, pml4);
      AllowedTrans(mem0, lv0, mem1, lv1, tables);
      if pt.None? { return NoMemory; }
      Kept(mem1, lv1, tables, 2, pml4, va);
      ReachDown(tables, level, pml4, va, pd.value, 2);
      x := At(pt.value);
    }

    /** Gives the page at `va` a fresh frame unless it is mapped. No other page changes its
        translation; a failed call changes none; after a successful one the page is mapped,
        except under a directory entry that has its size bit set but is not present. */
    method MapUser4K(pml4: nat, va: nat) returns (r: int)
      requires Valid() && Root(pml4) && Tree(tables, pml4) && va < VA_LIMIT
      modifies Repr()
      ensures Valid() && Root(pml4) && Tree(tables, pml4) && (r == 0 || r == -1)
      ensures forall a: nat :: a < VA_LIMIT && a / 0x1000 != va / 0x1000 ==>
                Walk(tables, pml4, 4, a) == old(Walk(tables, pml4, 4, a))
      ensures r == -1 ==> NoFrame()
      ensures r == -1 || old(Walk(tables, pml4, 4, va)).Mapped? ==>
                SameMeaning(old(tables), old(level), tables, level)
      ensures r == 0 ==> (Walk(tables, pml4, 4, va).Mapped? <==> !StaleHuge(old(tables), pml4, va))
      ensures r == 0 && old(Walk(tables, pml4, 4, va)).Unmapped? && !StaleHuge(old(tables), pml4, va) ==>
                FreshPage(old(buddy.Live()), Walk(tables, pml4, 4, va), va) && Opened(tables, pml4, va)
      ensures AllowedKept(old(tables), tables, pml4)
    {
      hide BuddyState.Inv, NoHand, Leveled, RunAvailable, Reach, Walk, SameMeaning, TreesKept, ReachKept, Tree,
           StaleHuge, Granted, Allowed, AllowedSame;
      ghost var mem0, lv0 := tables, level;
      var x := MakePt(pml4, va);
      Meaning(mem0, lv0, tables, level, pml4);
      AllowedRoot(mem0, lv0, tables, pml4);
      if x.NoMemory? { return -1; }
      if x.HugePage? {
        HugeWalk(tables, level, pml4, va);
        return 0;
      }
      var i := Index(va, 1);
      PageWalk(tables, level, pml4, va, x.pt);
      if Present(tables[x.pt][i]) { return 0; }
      var frame := NewPage();
      if frame == 0 { return -1; }
      FrameAll(tables, level, pml4, x.pt, va, frame);
      StoreWord(x.pt, i, TableWord(frame));
      assert HeapPage(frame) && FrameOf(frame) !in old(buddy.Live());
      r := 0;
    }

    /** Points the 2 MB region of `virt` at the 2 MB page of `phys`, readable, writable and
        open to user mode as far as the upper levels allow; other regions are untouched. */
    method Map2M(pml4: nat, virt: nat, phys: nat) returns (r: int)
      requires Valid() && Root(pml4) && Tree(tables, pml4) && virt < VA_LIMIT && phys < 0x10_0000_0000_0000
      modifies this`tables
      ensures Valid() && Root(pml4) && Tree(tables, pml4) && LocalTo(old(tables), tables, pml4, virt)
      ensures r == -1 <==> old(Reach(tables, pml4, 4, virt, 2)).None?
      ensures (r == -1 || r == 0) && (r == -1 ==> tables == old(tables))
      ensures forall a: nat :: a < VA_LIMIT && (r == -1 || a / 0x20_0000 != virt / 0x20_0000) ==>
                Walk(tables, pml4, 4, a) == old(Walk(tables, pml4, 4, a))
      ensures r == 0 ==> HugeMapped(old(tables), tables, pml4, virt, phys)
    {
      hide BuddyState.Inv, NoHand, Leveled, Reach, Walk, Tree, LocalTo, Tame;
      var pd := FindPd(pml4, virt);
      if pd.None? {
        LocalRefl(tables, level, pml4, virt);
        return -1;
      }
      PdeAll(tables, level, pml4, pd.value, virt, HugeWord(phys));
      Map2MAll(tables, level, pml4, pd.value, virt, phys);
      StoreWord(pd.value, Index(virt, 2), HugeWord(phys));
      return 0;
    }

    /** Opens the 2 MB region of `va` to user mode; an absent directory entry becomes an
        identity mapping. Other regions are untouched. */
    method AddUser(pml4: nat, va: nat) returns (r: int)
      requires Valid() && Root(pml4) && Tree(tables, pml4) && va < VA_LIMIT
      modifies this`tables
      ensures Valid() && Root(pml4) && Tree(tables, pml4) && LocalTo(old(tables), tables, pml4, va)
      ensures r == -1 <==> old(Reach(tables, pml4, 4, va, 2)).None?
      ensures r == -1 || r == 0
      ensures forall a: nat :: a < VA_LIMIT && (r == -1 || a / 0x20_0000 != va / 0x20_0000) ==>
                Walk(tables, pml4, 4, a) == old(Walk(tables, pml4, 4, a))
      ensures r == 0 ==> forall a: nat :: a < VA_LIMIT && a / 0x20_0000 == va / 0x20_0000 ==>
                UserGained(old(tables), pml4, old(Walk(tables, pml4, 4, a)), Walk(tables, pml4, 4, a), a)
    {
      hide BuddyState.Inv, NoHand, Leveled, Reach, Walk, Tree, LocalTo, Tame, UserGained;
      var pd := FindPd(pml4, va);
      if pd.None? {
        LocalRefl(tables, level, pml4, va);
        return -1;
      }
      var i := Index(va, 2);
      var w := tables[pd.value][i];
      var w' := if !Present(w) then HugeWord(va) else SetUser(w);
      SetUserFacts(w);
      HugeWordFacts(va);
      UserTame(tables, level, pd.value, i, va);
      PdeAll(tables, level, pml4, pd.value, va, w');
      GainAll(tables, level, pml4, pd.value, va);
      StoreWord(pd.value, i, w');
      return 0;
    }
  }

  /** The 512 entries that replace a 2 MB entry. */
  method FillSplit(pde: nat) returns (words: seq<nat>)
    ensures words == SplitWords(pde)
  {
    var pt := new nat[512];
    var physBase := pde / 0x20_0000 * 0x20_0000;
    var flags := WithoutSize(pde % 0x200);
    for i := 0 to 512
      invariant forall j :: 0 <= j < i ==> pt[j] == SplitWord(pde, j)
    {
      pt[i] := physBase + i * 0x1000 + flags;
    }
    words := pt[..];
  }

  /** An absent directory entry becomes the identity. A present one keeps address, R/W and NX, and U/S becomes
      what the levels above the directory and, for 4 KB pages, the page-table entry allow. */
  ghost predicate UserGained(mem: Mem, root: nat, m: Mapping, m': Mapping, va: nat) {
    match Reach(mem, root, 4, va, 2)
    case None => m' == m
    case Some(x) =>
      if IsTable(mem, x.0) && !Present(Entry(mem, x.0, 2, va)) then m' == Through(x.1, Mapped(va, true, true, false))
      else OnlyUser(m, m', UserBelow(mem, x.0, va) && x.1.us)
  }

  /** U/S below the directory entry: given for a 2 MB page, the page-table entry's own for a 4 KB one. */
  ghost predicate UserBelow(mem: Mem, pd: nat, va: nat) {
    IsTable(mem, pd) && Descends(Entry(mem, pd, 2, va), 2) && IsTable(mem, FrameBits(Entry(mem, pd, 2, va))) ==>
      User(Entry(mem, FrameBits(Entry(mem, pd, 2, va)), 1, va))
  }

  lemma UserTame(mem: Mem, lv: map<nat, nat>, pd: nat, i: nat, va: nat)
    requires Leveled(mem, lv) && pd in mem && lv[pd] == 2 && i < 512
    ensures Present(mem[pd][i]) ==> Tame(mem, lv, pd, i, SetUser(mem[pd][i]))
    ensures Tame(mem, lv, pd, i, HugeWord(va))
  {
    SetUserFacts(mem[pd][i]);
    HugeWordFacts(va);
    assert EntryOk(lv, 2, mem[pd][i]);
  }

  /** Overwriting a directory entry: what stays. */
  lemma {:induction false} PdeAll(mem: Mem, lv: map<nat, nat>, root: nat, pd: nat, va: nat, w: nat)
    requires Leveled(mem, lv) && root in mem && lv[root] == 4 && Tree(mem, root) && va < VA_LIMIT
    requires Reach(mem, root, 4, va, 2).Some? && Reach(mem, root, 4, va, 2).value.0 == pd && pd in mem && lv[pd] == 2
    requires Tame(mem, lv, pd, Index(va, 2), w) || (Present(w) && Huge(w))
    ensures var mem' := Put(mem, pd, Index(va, 2), w);
            && Tame(mem, lv, pd, Index(va, 2), w) && Tree(mem', root) && LocalTo(mem, mem', root, va)
            && forall a: nat :: a < VA_LIMIT && a / 0x20_0000 != va / 0x20_0000 ==>
                 Walk(mem', root, 4, a) == Walk(mem, root, 4, a)
  {
    var i := Index(va, 2);
    PutTree(mem, lv, pd, i, w, root);
    var mem' := Put(mem, pd, i, w);
    forall a: nat | a < VA_LIMIT && a / 0x20_0000 != va / 0x20_0000
      ensures Walk(mem', root, 4, a) == Walk(mem, root, 4, a)
    {
      PutPde(mem, lv, pd, w, root, va, a);
    }
  }

  lemma {:induction false} Map2MAll(mem: Mem, lv: map<nat, nat>, root: nat, pd: nat, va: nat, phys: nat)
    requires Leveled(mem, lv) && root in mem && lv[root] == 4 && Tree(mem, root) && va < VA_LIMIT
    requires phys < 0x10_0000_0000_0000
    requires Reach(mem, root, 4, va, 2).Some? && Reach(mem, root, 4, va, 2).value.0 == pd && pd in mem && lv[pd] == 2
    ensures HugeMapped(mem, Put(mem, pd, Index(va, 2), HugeWord(phys)), root, va, phys)
  {
    var i := Index(va, 2);
    var mem' := Put(mem, pd, i, HugeWord(phys));
    HugeWordFacts(phys);
    hide HugeWord, HugeBits, NoExec, Writable, User;
    forall a: nat | a < VA_LIMIT && a / 0x20_0000 == va / 0x20_0000
      ensures Walk(mem', root, 4, a) ==
              Through(Reach(mem, root, 4, va, 2).value.1,
                      Mapped(phys - phys % 0x20_0000 + a % 0x20_0000, true, true, false))
    {
      SamePd(mem, root, 4, a, va);
      IndexPrefix(a, va, 2);
      PutPde(mem, lv, pd, HugeWord(phys), root, va, a);
    }
  }

  lemma GainAll(mem: Mem, lv: map<nat, nat>, root: nat, pd: nat, va: nat)
    requires Leveled(mem, lv) && root in mem && lv[root] == 4 && Tree(mem, root) && va < VA_LIMIT
    requires Reach(mem, root, 4, va, 2).Some? && Reach(mem, root, 4, va, 2).value.0 == pd && pd in mem && lv[pd] == 2
    ensures var w := mem[pd][Index(va, 2)];
            var mem' := Put(mem, pd, Index(va, 2), if !Present(w) then HugeWord(va) else SetUser(w));
            forall a: nat :: a < VA_LIMIT && a / 0x20_0000 == va / 0x20_0000 ==>
              UserGained(mem, root, Walk(mem, root, 4, a), Walk(mem', root, 4, a), a)
  {
    var w := mem[pd][Index(va, 2)];
    var w' := if !Present(w) then HugeWord(va) else SetUser(w);
    var mem' := Put(mem, pd, Index(va, 2), w');
    UserTame(mem, lv, pd, Index(va, 2), va);
    forall a: nat | a < VA_LIMIT && a / 0x20_0000 == va / 0x20_0000
      ensures UserGained(mem, root, Walk(mem, root, 4, a), Walk(mem', root, 4, a), a)
    {
      SamePd(mem, root, 4, a, va);
      IndexPrefix(a, va, 2);
      PutPde(mem, lv, pd, w', root, va, a);
      PdeGain(mem, lv, pd, va, a);
    }
  }

  /** What the walk from the directory says before and after. */
  lemma PdeGain(mem: Mem, lv: map<nat, nat>, pd: nat, va: nat, a: nat)
    requires Leveled(mem, lv) && pd in mem && lv[pd] == 2 && a / 0x20_0000 == va / 0x20_0000 && va < VA_LIMIT
    ensures var w := mem[pd][Index(va, 2)];
            var mem' := Put(mem, pd, Index(va, 2), if !Present(w) then HugeWord(va) else SetUser(w));
            var m, m' := Walk(mem, pd, 2, a), Walk(mem', pd, 2, a);
            if !Present(w) then m' == Mapped(a, true, true, false) else OnlyUser(m, m', UserBelow(mem, pd, a))
  {
    var i := Index(va, 2);
    var w := mem[pd][i];
    IndexPrefix(a, va, 2);
    if !Present(w) {
      AbsentGain(mem, pd, va, a);
    } else {
      PresentGain(mem, lv, pd, i, a);
    }
  }

  lemma AbsentGain(mem: Mem, pd: nat, va: nat, a: nat)
    requires IsTable(mem, pd) && Index(a, 2) == Index(va, 2) && a / 0x20_0000 == va / 0x20_0000 && va < VA_LIMIT
    ensures Walk(Put(mem, pd, Index(va, 2), HugeWord(va)), pd, 2, a) == Mapped(a, true, true, false)
  {
    HugeWordFacts(va);
    var mem' := Put(mem, pd, Index(va, 2), HugeWord(va));
    assert Entry(mem', pd, 2, a) == HugeWord(va);
    assert va - va % 0x20_0000 + a % 0x20_0000 == a;
    hide HugeWord, HugeBits, NoExec, Writable, User, Huge, Present, Index;
  }

  lemma {:induction false} PresentGain(mem: Mem, lv: map<nat, nat>, pd: nat, i: nat, a: nat)
    requires Leveled(mem, lv) && pd in mem && lv[pd] == 2 && Index(a, 2) == i && Present(mem[pd][i])
    ensures OnlyUser(Walk(mem, pd, 2, a), Walk(Put(mem, pd, i, SetUser(mem[pd][i])), pd, 2, a), UserBelow(mem, pd, a))
  {
    var w := mem[pd][i];
    SetUserFacts(w);
    var mem' := Put(mem, pd, i, SetUser(w));
    assert Entry(mem', pd, 2, a) == SetUser(w) && Entry(mem, pd, 2, a) == w;
    assert EntryOk(lv, 2, w);
    hide SetUser, HugeBits, FrameBits, NoExec, Writable, User, Huge, Present, Index;
    if Descends(w, 2) {
      assert lv[FrameBits(w)] == 1 && mem'[FrameBits(w)] == mem[FrameBits(w)];
      assert Walk(mem', FrameBits(w), 1, a) == Walk(mem, FrameBits(w), 1, a);
    }
  }

  lemma LevelKeys(mem: Mem, lv: map<nat, nat>)
    requires Leveled(mem, lv)
    ensures forall t :: t in mem <==> t in lv
  {
  }

  lemma MeaningLevels(mem: Mem, lv: map<nat, nat>, mem': Mem, lv': map<nat, nat>)
    requires SameMeaning(mem, lv, mem', lv')
    ensures forall t :: t in mem && t in lv ==> t in mem' && t in lv' && lv'[t] == lv[t]
  {
  }

  lemma LocalRefl(mem: Mem, lv: map<nat, nat>, root: nat, va: nat)
    requires Leveled(mem, lv) && root in mem && lv[root] == 4
    ensures LocalTo(mem, mem, root, va)
  {
    if Reach(mem, root, 4, va, 2).Some? { WalkVia(mem, lv, root, 4, va, 2); }
  }

  lemma Unchanged(mem: Mem, lv: map<nat, nat>)
    ensures SameMeaning(mem, lv, mem, lv) && TreesKept(mem, lv, mem)
    ensures (forall k :: ReachKept(mem, lv, mem, k)) && SmallSame(mem, lv, mem) && AllowedSame(mem, lv, mem)
  {
  }

  lemma NoPd(mem: Mem, lv: map<nat, nat>, root: nat, va: nat)
    requires Leveled(mem, lv) && root in mem && lv[root] == 4 && Reach(mem, root, 4, va, 2).None?
    ensures Reach(mem, root, 4, va, 1).None?
  {
    var w := Entry(mem, root, 4, va);
    assert EntryOk(lv, 4, w);
  }

  /** The entry leads to a table without entries. */
  ghost predicate NewlyEmpty(mem: Mem, w: nat) {
    !Huge(w) && FrameBits(w) in mem && mem[FrameBits(w)] == Zeros()
  }

  lemma TableSize(mem: Mem, lv: map<nat, nat>, p: nat)
    requires Leveled(mem, lv) && p in mem
    ensures IsTable(mem, p) && p in lv
  {
  }

  lemma EntryLeads(mem: Mem, lv: map<nat, nat>, p: nat, i: nat)
    requires Leveled(mem, lv) && p in mem && i < 512
    ensures IsTable(mem, p) && p in lv
    ensures Descends(mem[p][i], lv[p]) ==>
              var q := Ptr(mem[p][i]); q == FrameBits(mem[p][i]) && IsTable(mem, q) && q in lv && lv[q] == lv[p] - 1
  {
    assert EntryOk(lv, lv[p], mem[p][i]);
    if Descends(mem[p][i], lv[p]) { PtrIsFrame(mem[p][i]); }
  }

  /** Walks reach the same tables at level `k` and above. */
  ghost predicate ReachKept(mem: Mem, lv: map<nat, nat>, mem': Mem, k: nat) {
    forall t, va: nat, j: nat :: t in mem && t in lv && j >= k ==>
      Reach(mem', t, lv[t], va, j) == Reach(mem, t, lv[t], va, j)
  }

  lemma {:induction false} EmptyAll(mem: Mem, lv: map<nat, nat>, p: nat, i: nat, t: nat)
    requires Leveled(mem, lv) && p in mem && lv[p] >= 2 && i < 512
    requires !Present(mem[p][i]) && t !in mem && PageAligned(t)
    ensures var mem' := Install(mem, p, i, t, Zeros());
            && Installable(mem, lv, p, i, t, Zeros())
            && SameMeaning(mem, lv, mem', lv[t := lv[p] - 1]) && TreesKept(mem, lv, mem')
            && ReachKept(mem, lv, mem', lv[p])
  {
    var mem' := Install(mem, p, i, t, Zeros());
    InstallLeveled(mem, lv, p, i, t, Zeros());
    forall t0, va: nat | t0 in mem ensures Walk(mem', t0, lv[t0], va) == Walk(mem, t0, lv[t0], va) {
      EmptyPreserves(mem, lv, p, i, t, t0, va);
    }
    forall t0 | t0 in mem && lv[t0] == 4 && Tree(mem, t0) ensures Tree(mem', t0) {
      InstallTree(mem, lv, p, i, t, Zeros(), t0);
    }
    forall t0, va: nat, j: nat | t0 in mem && j >= lv[p]
      ensures Reach(mem', t0, lv[t0], va, j) == Reach(mem, t0, lv[t0], va, j)
    {
      EditReach(mem, mem', lv, t0, lv[t0], va, p, i, j);
    }
  }

  /** An empty table in place of an absent entry neither maps nor unmaps a page. */
  lemma {:induction false} EmptySmall(mem: Mem, lv: map<nat, nat>, p: nat, i: nat, t: nat)
    requires Installable(mem, lv, p, i, t, Zeros()) && !Present(mem[p][i])
    ensures SmallSame(mem, lv, Install(mem, p, i, t, Zeros()))
  {
    forall root, a: nat | root in mem && lv[root] == 4
      ensures Small(Install(mem, p, i, t, Zeros()), root, a) == Small(mem, root, a)
    {
      EmptySmallAt(mem, lv, p, i, t, root, a);
    }
  }

  lemma {:induction false} EmptySmallAt(mem: Mem, lv: map<nat, nat>, p: nat, i: nat, t: nat, root: nat, a: nat)
    requires Installable(mem, lv, p, i, t, Zeros()) && !Present(mem[p][i]) && root in mem && lv[root] == 4
    ensures Small(Install(mem, p, i, t, Zeros()), root, a) == Small(mem, root, a)
  {
    var mem' := Install(mem, p, i, t, Zeros());
    EmptyPreserves(mem, lv, p, i, t, root, a);
    if Hits(mem, root, 4, a, p, lv[p], i) {
      WalkVia(mem, lv, root, 4, a, lv[p]);
    } else {
      InstallLeveled(mem, lv, p, i, t, Zeros());
      MissesSame(mem, mem', lv, root, a, p, i);
    }
  }

  lemma {:induction false} EmptyAllowed(mem: Mem, lv: map<nat, nat>, p: nat, i: nat, t: nat, words: seq<nat>)
    requires Installable(mem, lv, p, i, t, words)
    ensures AllowedSame(mem, lv, Install(mem, p, i, t, words))
  {
    hide Allowed, Install;
    forall root, va: nat | root in mem && root in lv
      ensures Allowed(Install(mem, p, i, t, words), root, lv[root], va) == Allowed(mem, root, lv[root], va)
    {
      InstallAllowed(mem, lv, p, i, t, words, root, va);
    }
  }

  /** A walk that does not read the edited word is as before. */
  lemma {:induction false} MissesSame(mem: Mem, mem': Mem, lv: map<nat, nat>, root: nat, a: nat, p: nat, i: nat)
    requires Leveled(mem, lv) && root in mem && lv[root] == 4 && p in mem && Edit(mem, mem', p, i)
    requires !Hits(mem, root, 4, a, p, lv[p], i)
    ensures Walk(mem', root, 4, a) == Walk(mem, root, 4, a) && Reach(mem', root, 4, a, 1) == Reach(mem, root, 4, a, 1)
  {
    forall x | x in Reads(mem, root, 4, a) ensures Agree(mem, mem', x) {
      ReadsHits(mem, lv, root, 4, a, x.0, x.1);
    }
    WalkFrame(mem, mem', lv, root, 4, a);
  }

  lemma SmallTrans(mem: Mem, lv: map<nat, nat>, mem1: Mem, lv1: map<nat, nat>, mem2: Mem)
    requires SmallSame(mem, lv, mem1) && SmallSame(mem1, lv1, mem2)
    requires SameMeaning(mem, lv, mem1, lv1)
    ensures SmallSame(mem, lv, mem2)
  {
    hide Walk, Small;
  }

  lemma ReachSelf(mem: Mem, lv: map<nat, nat>, root: nat, va: nat)
    requires Leveled(mem, lv) && root in mem && lv[root] == 4
    ensures Reach(mem, root, 4, va, 4).Some? && Reach(mem, root, 4, va, 4).value.0 == root
  {
  }

  lemma ZerosAbsent(i: nat)
    requires i < 512
    ensures !Present(Zeros()[i]) && !Huge(Zeros()[i])
  {
  }

  lemma Kept(mem: Mem, lv: map<nat, nat>, mem': Mem, k: nat, root: nat, va: nat)
    requires ReachKept(mem, lv, mem', k) && root in mem && root in lv && lv[root] == 4
    ensures Reach(mem', root, 4, va, k) == Reach(mem, root, 4, va, k)
  {
  }

  /** One more level: from table `p` of level `k` along its entry for `va`. */
  lemma ReachDown(mem: Mem, lv: map<nat, nat>, root: nat, va: nat, p: nat, k: nat)
    requires Leveled(mem, lv) && root in mem && lv[root] == 4 && k >= 2
    requires Reach(mem, root, 4, va, k).Some? && Reach(mem, root, 4, va, k).value.0 == p
    requires IsTable(mem, p) && Descends(Entry(mem, p, k, va), k)
    ensures Reach(mem, root, 4, va, k - 1).Some?
    ensures Reach(mem, root, 4, va, k - 1).value.0 == FrameBits(Entry(mem, p, k, va))
  {
    WalkVia(mem, lv, root, 4, va, k);
    ReachVia(mem, root, 4, va, k, k - 1);
    assert EntryOk(lv, k, Entry(mem, p, k, va));
  }

  lemma MeaningTrans(mem: Mem, lv: map<nat, nat>, mem1: Mem, lv1: map<nat, nat>, mem2: Mem, lv2: map<nat, nat>,
                     root: nat)
    requires SameMeaning(mem, lv, mem1, lv1) && SameMeaning(mem1, lv1, mem2, lv2)
    requires TreesKept(mem, lv, mem1) && TreesKept(mem1, lv1, mem2)
    ensures SameMeaning(mem, lv, mem2, lv2) && TreesKept(mem, lv, mem2)
    ensures root in mem && root in lv && lv[root] == 4 ==> root in mem2 && root in lv2 && lv2[root] == 4
  {
  }

  lemma HugeWalk(mem: Mem, lv: map<nat, nat>, root: nat, va: nat)
    requires Leveled(mem, lv) && root in mem && lv[root] == 4 && HugeEntry(mem, root, va)
    ensures Walk(mem, root, 4, va).Mapped? <==> !StaleHuge(mem, root, va)
  {
    WalkVia(mem, lv, root, 4, va, 2);
  }

  lemma UpperPresent(mem: Mem, lv: map<nat, nat>, root: nat, va: nat)
    requires Leveled(mem, lv) && root in mem && lv[root] == 4
    ensures Reach(mem, root, 4, va, 2).Some? ==>
              var w := Entry(mem, root, 4, va);
              Present(w) && IsTable(mem, FrameBits(w)) && Present(Entry(mem, FrameBits(w), 3, va))
  {
    assert EntryOk(lv, 4, Entry(mem, root, 4, va));
  }

  lemma PageWalk(mem: Mem, lv: map<nat, nat>, root: nat, va: nat, pt: nat)
    requires Leveled(mem, lv) && root in mem && lv[root] == 4
    requires Reach(mem, root, 4, va, 1).Some? && Reach(mem, root, 4, va, 1).value.0 == pt
    ensures IsTable(mem, pt)
    ensures Walk(mem, root, 4, va).Mapped? <==> Present(mem[pt][Index(va, 1)])
  {
    WalkVia(mem, lv, root, 4, va, 1);
  }

  lemma {:induction false} FrameAll(mem: Mem, lv: map<nat, nat>, root: nat, pt: nat, va: nat, frame: nat)
    requires Leveled(mem, lv) && root in mem && lv[root] == 4 && Tree(mem, root) && va < VA_LIMIT && PageAligned(frame)
    requires Reach(mem, root, 4, va, 1).Some? && Reach(mem, root, 4, va, 1).value.0 == pt
    ensures pt in mem && lv[pt] == 1 && |mem[pt]| == 512
    ensures var i := Index(va, 1);
            var mem' := Put(mem, pt, i, TableWord(frame));
            && Tame(mem, lv, pt, i, TableWord(frame)) && Tree(mem', root) && root in mem'
            && (forall a: nat :: a < VA_LIMIT && a / 0x1000 != va / 0x1000 ==>
                 Walk(mem', root, 4, a) == Walk(mem, root, 4, a))
            && Walk(mem', root, 4, va).Mapped? && Walk(mem', root, 4, va).pa == frame + va % 0x1000
            && Opened(mem', root, va) && AllowedKept(mem, mem', root)
  {
    WalkVia(mem, lv, root, 4, va, 1);
    var i, w := Index(va, 1), TableWord(frame);
    TableWordFacts(frame);
    PutTree(mem, lv, pt, i, w, root);
    PutLeveled(mem, lv, pt, i, w);
    var mem' := Put(mem, pt, i, w);
    forall a: nat | a < VA_LIMIT && a / 0x1000 != va / 0x1000 ensures Walk(mem', root, 4, a) == Walk(mem, root, 4, a) {
      PutElsewhere(mem, lv, pt, i, w, root, va, a);
    }
    EditWalk(mem, mem', lv, lv, root, 4, va, pt, i);
    EditReach(mem, mem', lv, root, 4, va, pt, i, 1);
    AllowedReach(mem', root, 4, va);
    forall a: nat ensures Allowed(mem', root, 4, a) == Allowed(mem, root, 4, a) {
      PutAllowed(mem, lv, pt, i, w, root, a);
    }
  }

  lemma Meaning(mem: Mem, lv: map<nat, nat>, mem': Mem, lv': map<nat, nat>, root: nat)
    requires SameMeaning(mem, lv, mem', lv') && TreesKept(mem, lv, mem') && root in mem && root in lv && lv[root] == 4
    ensures root in mem' && root in lv' && lv'[root] == 4 && (Tree(mem, root) ==> Tree(mem', root))
    ensures forall va: nat :: Walk(mem', root, 4, va) == Walk(mem, root, 4, va)
  {
  }

  /** Addresses in one 2 MB region reach the same page table. */
  lemma {:induction false} SamePrefix(mem: Mem, t: nat, l: nat, a: nat, b: nat)
    requires a / 0x20_0000 == b / 0x20_0000
    ensures Reach(mem, t, l, a, 1) == Reach(mem, t, l, b, 1)
    decreases l
  {
    if l > 1 && IsTable(mem, t) {
      IndexPrefix(a, b, l);
      SamePrefix(mem, FrameBits(Entry(mem, t, l, a)), l - 1, a, b);
    }
  }

  lemma {:induction false} SamePd(mem: Mem, t: nat, l: nat, a: nat, b: nat)
    requires a / 0x20_0000 == b / 0x20_0000
    ensures Reach(mem, t, l, a, 2) == Reach(mem, t, l, b, 2)
    decreases l
  {
    if l >= 2 && IsTable(mem, t) {
      IndexPrefix(a, b, l);
      SamePd(mem, FrameBits(Entry(mem, t, l, a)), l - 1, a, b);
    }
  }

  lemma {:induction false} SameLeads(mem: Mem, root: nat, a: nat, b: nat)
    requires a / 0x20_0000 == b / 0x20_0000
    ensures Leads(mem, root, a) == Leads(mem, root, b)
  {
    SamePd(mem, root, 4, a, b);
    IndexPrefix(a, b, 2);
  }

  lemma IndexPrefix(a: nat, b: nat, l: nat)
    requires a / 0x20_0000 == b / 0x20_0000 && l >= 2
    ensures Index(a, l) == Index(b, l)
  {
    if l == 3 {
      DivDiv(a, 0x20_0000, 512);
      DivDiv(b, 0x20_0000, 512);
    } else if l == 4 {
      DivDiv(a, 0x20_0000, 0x4_0000);
      DivDiv(b, 0x20_0000, 0x4_0000);
    } else if l > 4 {
      DivDiv(a, 0x20_0000, 0x800_0000);
      DivDiv(b, 0x20_0000, 0x800_0000);
    }
  }

  /** The mapping is as before except that its U/S right is `us`. */
  ghost predicate OnlyUser(m: Mapping, m': Mapping, us: bool) {
    if m.Unmapped? then m'.Unmapped? else m' == m.(us := us)
  }

  lemma UserAll(mem: Mem, lv: map<nat, nat>, root: nat, pt: nat, va: nat)
    requires Leveled(mem, lv) && root in mem && lv[root] == 4 && Tree(mem, root) && va < VA_LIMIT
    requires Reach(mem, root, 4, va, 1).Some? && Reach(mem, root, 4, va, 1).value.0 == pt
    ensures pt in mem && lv[pt] == 1 && |mem[pt]| == 512
    ensures var i := Index(va, 1);
            var w := SetUser(mem[pt][i]);
            var mem' := Put(mem, pt, i, w);
            && Tame(mem, lv, pt, i, w) && Tree(mem', root) && root in mem'
            && (forall a: nat :: a < VA_LIMIT && a / 0x1000 != va / 0x1000 ==>
                 Walk(mem', root, 4, a) == Walk(mem, root, 4, a))
            && (forall a: nat :: a < VA_LIMIT && a / 0x1000 == va / 0x1000 ==>
                  OnlyUser(Walk(mem, root, 4, a), Walk(mem', root, 4, a), Allowed(mem, root, 4, va).us))
  {
    WalkVia(mem, lv, root, 4, va, 1);
    var i := Index(va, 1);
    var w := SetUser(mem[pt][i]);
    PutTree(mem, lv, pt, i, w, root);
    var mem' := Put(mem, pt, i, w);
    forall a: nat | a < VA_LIMIT && a / 0x1000 != va / 0x1000 ensures Walk(mem', root, 4, a) == Walk(mem, root, 4, a) {
      PutElsewhere(mem, lv, pt, i, w, root, va, a);
    }
    forall a: nat | a < VA_LIMIT && a / 0x1000 == va / 0x1000
      ensures OnlyUser(Walk(mem, root, 4, a), Walk(mem', root, 4, a), Allowed(mem, root, 4, va).us)
    {
      UserPage(mem, lv, root, pt, va, a);
    }
  }

  /** Writing into the page table below the entry stays local. */
  lemma {:induction false} LocalThenPt(mem: Mem, lv: map<nat, nat>, mem1: Mem, lv1: map<nat, nat>, root: nat, base: nat,
                                       va: nat, pt: nat, w: nat)
    requires Leveled(mem, lv) && root in mem && lv[root] == 4 && base / 0x20_0000 == va / 0x20_0000
    requires LocalTo(mem, mem1, root, base) && Leveled(mem1, lv1) && root in mem1 && lv1[root] == 4
    requires Reach(mem1, root, 4, va, 1).Some? && Reach(mem1, root, 4, va, 1).value.0 == pt && IsTable(mem1, pt)
    requires ReachKept(mem, lv, mem1, 2)
    ensures LocalTo(mem, Put(mem1, pt, Index(va, 1), w), root, va)
  {
    SamePd(mem, root, 4, base, va);
    IndexPrefix(base, va, 2);
    assert Reach(mem1, root, 4, va, 2) == Reach(mem, root, 4, va, 2);
    if Reach(mem, root, 4, va, 2).None? {
      NoPd(mem1, lv1, root, va);
    } else {
      var pd := Reach(mem, root, 4, va, 2).value.0;
      WalkVia(mem, lv, root, 4, va, 2);
      WalkVia(mem1, lv1, root, 4, va, 1);
      ReachPt(mem1, lv1, root, va, pd);
      assert NoNewLink(mem, mem[pd][Index(va, 2)], mem1[pd][Index(va, 2)]);
    }
  }

  lemma {:induction false} UserPage(mem: Mem, lv: map<nat, nat>, root: nat, pt: nat, va: nat, a: nat)
    requires Leveled(mem, lv) && root in mem && lv[root] == 4 && pt in mem && lv[pt] == 1 && a / 0x1000 == va / 0x1000
    requires Reach(mem, root, 4, va, 1).Some? && Reach(mem, root, 4, va, 1).value.0 == pt
    ensures var mem' := Put(mem, pt, Index(va, 1), SetUser(mem[pt][Index(va, 1)]));
            OnlyUser(Walk(mem, root, 4, a), Walk(mem', root, 4, a), Allowed(mem, root, 4, va).us)
  {
    var i := Index(va, 1);
    var mem' := Put(mem, pt, i, SetUser(mem[pt][i]));
    DivDiv(a, 0x1000, 512);
    DivDiv(va, 0x1000, 512);
    SamePrefix(mem, root, 4, a, va);
    PutLeveled(mem, lv, pt, i, SetUser(mem[pt][i]));
    EditWalk(mem, mem', lv, lv, root, 4, a, pt, i);
    AllowedReach(mem, root, 4, va);
    SetUserFacts(mem[pt][i]);
    hide SetUser, User, Writable, NoExec, FrameBits, Present;
  }

  /** Whether the walk gets to a page table is up to the directory entry. */
  lemma ReachPt(mem: Mem, lv: map<nat, nat>, root: nat, va: nat, pd: nat)
    requires Leveled(mem, lv) && root in mem && lv[root] == 4
    requires Reach(mem, root, 4, va, 2).Some? && Reach(mem, root, 4, va, 2).value.0 == pd
    ensures pd in mem && lv[pd] == 2
    ensures Reach(mem, root, 4, va, 1).Some? <==> Descends(mem[pd][Index(va, 2)], 2)
    ensures Reach(mem, root, 4, va, 1).Some? ==>
              Reach(mem, root, 4, va, 1).value.0 == FrameBits(mem[pd][Index(va, 2)])
  {
    WalkVia(mem, lv, root, 4, va, 2);
    ReachVia(mem, root, 4, va, 2, 1);
    assert EntryOk(lv, 2, mem[pd][Index(va, 2)]);
  }

  lemma {:induction false} SplitAll(mem: Mem, lv: map<nat, nat>, pd: nat, i: nat, pt: nat, pml4: nat, va: nat)
    requires Leveled(mem, lv) && pd in mem && lv[pd] == 2 && i < 512
    requires Present(mem[pd][i]) && Huge(mem[pd][i]) && pt !in mem && PageAligned(pt)
    requires pml4 in mem && lv[pml4] == 4 && Hits(mem, pml4, 4, va, pd, 2, i)
    ensures var mem' := Install(mem, pd, i, pt, SplitWords(mem[pd][i]));
            && Installable(mem, lv, pd, i, pt, SplitWords(mem[pd][i]))
            && SameMeaning(mem, lv, mem', lv[pt := 1]) && TreesKept(mem, lv, mem')
            && Reach(mem', pml4, 4, va, 1).Some? && LocalTo(mem, mem', pml4, va)
            && ReachKept(mem, lv, mem', 2)
  {
    var words := SplitWords(mem[pd][i]);
    var mem' := Install(mem, pd, i, pt, words);
    forall t, va: nat | t in mem ensures Walk(mem', t, lv[t], va) == Walk(mem, t, lv[t], va) {
      SplitPreserves(mem, lv, pd, i, pt, t, va);
    }
    forall t | t in mem && lv[t] == 4 && Tree(mem, t) ensures Tree(mem', t) {
      InstallTree(mem, lv, pd, i, pt, words, t);
    }
    InstallLeveled(mem, lv, pd, i, pt, words);
    forall t0, va: nat, j: nat | t0 in mem && j >= 2
      ensures Reach(mem', t0, lv[t0], va, j) == Reach(mem, t0, lv[t0], va, j)
    {
      EditReach(mem, mem', lv, t0, lv[t0], va, pd, i, j);
    }
    assert Reach(mem', pml4, 4, va, 2) == Reach(mem, pml4, 4, va, 2);
    ReachPt(mem', lv[pt := 1], pml4, va, pd);
    TableWordFacts(pt);
  }

  function Stored(s: seq<nat>, i: nat, w: nat): seq<nat>
    requires i < |s|
  {
    s[i := w]
  }
}
