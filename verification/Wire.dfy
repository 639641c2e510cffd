/** vm_map_wire: giving every page of a range that lies in an object-backed region the frame
    of its object page, breaking up 2 MB pages on the way. The region list is the sequence
    the linked list stands for. */
module Wire {
  import opened Arithmetic
  import opened Tiling
  import opened Buddy
  import BuddyState
  import opened Paging
  import opened PagingEdits
  import opened PageTables
  import opened Regions
  import opened WireSteps
  import opened WireFrames

  lemma StoredGrown(objs: seq<seq<nat>>, o: nat, idx: nat, p: nat)
    requires o < |objs| && idx < |objs[o]| && objs[o][idx] == 0 && GoodPages(objs) && PageAligned(p)
    ensures var objs' := objs[o := Stored(objs[o], idx, p)]; Grown(objs, objs') && GoodPages(objs')
  {
    var pages := Stored(objs[o], idx, p);
    assert PagesGrown(objs[o], pages);
    assert forall i :: 0 <= i < |pages| ==> pages[i] == 0 || PageAligned(pages[i]);
  }

  lemma AlignedPage(objs: seq<seq<nat>>, o: nat, idx: nat)
    requires GoodPages(objs) && o < |objs| && idx < |objs[o]| && objs[o][idx] != 0
    ensures PageAligned(objs[o][idx])
  {
  }

  lemma GrownRefl(objs: seq<seq<nat>>)
    ensures Grown(objs, objs)
  {
  }

  class VmSpace {
    const mem: PageMemory
    var regions: seq<Region>
    var objects: seq<seq<nat>>

    ghost function Repr(): set<object> { {this} + mem.Repr() }

    ghost predicate Valid()
      reads Repr()
    {
      mem.Valid() && GoodPages(objects) && forall i :: 0 <= i < |regions| ==> regions[i].obj <= |objects|
    }

    /** No frame backs two pages of objects, or a page and a table. */
    ghost predicate Separate()
      reads Repr()
    {
      Apart(objects, mem.tables.Keys, mem.buddy.Live().Keys)
    }

    constructor (m: PageMemory, rs: seq<Region>, objs: seq<seq<nat>>)
      requires m.Valid() && GoodPages(objs) && forall i :: 0 <= i < |rs| ==> rs[i].obj <= |objs|
      ensures Valid() && mem == m && regions == rs && objects == objs
    {
      mem, regions, objects := m, rs, objs;
    }

    /** The frame of an object's page: the one it has, or a fresh one that the object then
        keeps; 0 past the end or without memory. */
    method GetPage(o: nat, idx: nat, ghost held: set<nat>) returns (pa: nat)
      requires Valid() && o < |objects| && HeldInUse(held, mem.tables.Keys, mem.buddy.Live().Keys)
      modifies this`objects, mem.buddy.Repr()
      ensures Valid() && Grown(old(objects), objects) && |objects| == |old(objects)|
      ensures pa != 0 ==> idx < |objects[o]| && objects[o][idx] == pa && PageAligned(pa)
      ensures pa != 0 ==> objects == old(objects)[o := Stored(old(objects[o]), idx, pa)]
      ensures pa == 0 ==> objects == old(objects) && (idx >= |objects[o]| || (objects[o][idx] == 0 && mem.NoFrame()))
      ensures pa != 0 && old(objects[o][idx]) == 0 ==>
                HeapPage(pa) && FrameOf(pa) !in old(mem.buddy.Live()) && FrameOf(pa) in mem.buddy.Live()
      ensures old(mem.buddy.Live()).Keys <= mem.buddy.Live().Keys
      ensures old(Apart(objects, held, mem.buddy.Live().Keys)) ==> Apart(objects, held, mem.buddy.Live().Keys)
    {
      hide BuddyState.Inv, NoHand, Leveled, RunAvailable, Grown, GoodPages, Apart;
      ghost var used := mem.buddy.Live().Keys;
      GrownRefl(objects);
      if idx >= |objects[o]| { return 0; }
      if objects[o][idx] == 0 {
        var p := mem.NewPage();
        if p == 0 { return 0; }
        StoredGrown(objects, o, idx, p);
        if Apart(objects, held, used) { ApartStored(objects, held, used, mem.buddy.Live().Keys, o, idx, p); }
        objects := objects[o := Stored(objects[o], idx, p)];
      }
      pa := objects[o][idx];
      AlignedPage(objects, o, idx);
      assert Stored(old(objects[o]), idx, pa) == objects[o];
    }

    /** Builds the table that replaces a 2 MB page. */
    method FillReplacement(pde: nat, chunk: nat, w: Window, ghost held: set<nat>) returns (ok: bool, words: seq<nat>)
      requires Valid() && w.o < |objects| && w.start <= w.lo
      requires HeldInUse(held, mem.tables.Keys, mem.buddy.Live().Keys)
      modifies this`objects, mem.buddy.Repr()
      ensures Valid() && Grown(old(objects), objects)
      ensures ok ==> ReplacementWords(words, pde, chunk, objects, w)
      ensures !ok ==> Short(objects, w) || mem.NoFrame()
      ensures old(mem.buddy.Live()).Keys <= mem.buddy.Live().Keys
      ensures old(Apart(objects, held, mem.buddy.Live().Keys)) ==> Apart(objects, held, mem.buddy.Live().Keys)
    {
      hide BuddyState.Inv, NoHand, RunAvailable, Leveled, Grown, GoodPages, Replacement, Apart;
      GrownRefl(objects);
      words := [];
      for j := 0 to 512
        invariant Valid() && Grown(old(objects), objects) && w.o < |objects| && |words| == j
        invariant old(mem.buddy.Live()).Keys <= mem.buddy.Live().Keys
        invariant old(Apart(objects, held, mem.buddy.Live().Keys)) ==> Apart(objects, held, mem.buddy.Live().Keys)
        invariant forall i: nat :: i < j ==> Replacement(words[i], pde, chunk, objects, w, i)
      {
        ghost var objs1 := objects;
        var va := chunk + j * 0x1000;
        if va >= w.lo && va < w.hi {
          var pa := GetPage(w.o, (va - w.start + w.offset) / 0x1000, held);
          GrownTrans(old(objects), objs1, objects);
          if pa == 0 {
            assert mem.NoFrame() || PastEnd(objects[w.o], w, va);
            return false, words;
          }
          ObjectWord(pa, pde, chunk, objects, w, j);
          WordsKept(words, pde, chunk, objs1, objects, w);
          words := words + [TableWord(pa)];
        } else {
          OldWord(pde, chunk, objects, w, j);
          words := words + [SplitWord(pde, j)];
        }
      }
      ok := true;
    }

    /** The 2 MB case of one chunk: pages of the window get the object's frames, the old page
        survives outside it. */
    method WireHuge(pml4: nat, pd: nat, chunk: nat, w: Window) returns (ok: bool)
      requires Valid() && w.o < |objects| && w.start <= w.lo && mem.Root(pml4)
      requires HugeChunk(mem.tables, mem.level, pml4, pd, chunk)
      modifies this`objects, mem.Repr()
      ensures Valid() && mem.Root(pml4) && Tree(mem.tables, pml4)
      ensures WireStep(old(mem.tables), old(objects), mem.tables, objects, pml4, w)
      ensures ok ==> DealtWith(old(mem.tables), old(objects), mem.tables, objects, pml4, w, chunk, chunk + MB2)
      ensures !ok ==> Short(objects, w) || mem.NoFrame()
      ensures old(Separate()) ==> Separate()
    {
      hide BuddyState.Inv, NoHand, RunAvailable, Short, Leveled, Tree, Walk, Reach, ReplacementWords, WireStep,
           NewSmall, RangeWired, Grown, GoodPages, Apart, Hosted;
      ghost var tables0, used0 := mem.tables.Keys, mem.buddy.Live().Keys;
      StepRefl(mem.tables, objects, pml4, w);
      TableSize(mem.tables, mem.level, pd);
      var pde := mem.tables[pd][Index(chunk, 2)];
      var pt := mem.NewPage();
      if pt == 0 { return false; }
      ghost var held := tables0 + {pt};
      if Apart(objects, tables0, used0) { ApartTables(objects, tables0, used0, held, mem.buddy.Live().Keys); }
      var filled, words := FillReplacement(pde, chunk, w, held);
      StepObjects(mem.tables, old(objects), objects, pml4, w);
      ghost var used := mem.buddy.Live().Keys;
      if Apart(objects, held, used) { ApartTables(objects, held, used, tables0, used); }
      if !filled { return false; }
      ReplaceAll(mem.tables, mem.level, pml4, pd, pt, words, chunk, old(objects), objects, w);
      mem.InstallTable(pd, Index(chunk, 2), pt, words);
      assert mem.tables.Keys == held;
      ok := true;
    }

    /** One page of a chunk that has a page table: an absent entry in the window gets a frame. */
    method WirePage(pml4: nat, pt: nat, va: nat, w: Window) returns (ok: bool)
      requires Valid() && w.o < |objects| && w.start <= w.lo && mem.Root(pml4) && Tree(mem.tables, pml4)
      requires va % 0x1000 == 0 && va < VA_LIMIT && IsTable(mem.tables, pt)
      requires Reach(mem.tables, pml4, 4, va, 1).Some? && Reach(mem.tables, pml4, 4, va, 1).value.0 == pt
      modifies this`objects, mem.Repr()
      ensures Valid() && mem.Root(pml4) && Tree(mem.tables, pml4) && IsTable(mem.tables, pt)
      ensures WireStep(old(mem.tables), old(objects), mem.tables, objects, pml4, w)
      ensures ok ==> DealtWith(old(mem.tables), old(objects), mem.tables, objects, pml4, w, va, va + 0x1000)
      ensures !ok ==> Short(objects, w) || mem.NoFrame()
      ensures old(Separate()) ==> Separate()
      ensures Reach(mem.tables, pml4, 4, va, 1) == old(Reach(mem.tables, pml4, 4, va, 1))
    {
      hide BuddyState.Inv, NoHand, RunAvailable, Leveled, Tree, Walk, Reach, WireStep, NewSmall, RangeWired, Grown,
           GoodPages, Tame, Apart;
      var i := Index(va, 1);
      if va >= w.lo && va < w.hi && !Present(mem.tables[pt][i]) {
        var pa := GetPage(w.o, (va - w.start + w.offset) / 0x1000, mem.tables.Keys);
        StepObjects(mem.tables, old(objects), objects, pml4, w);
        if pa == 0 {
          assert mem.NoFrame() || PastEnd(objects[w.o], w, va);
          return false;
        }
        FillAll(mem.tables, mem.level, pml4, pt, va, pa, old(objects), objects, w);
        ghost var tables0 := mem.tables;
        mem.StoreWord(pt, i, TableWord(pa));
        assert mem.tables.Keys == tables0.Keys;
      } else {
        PageDone(mem.tables, mem.level, objects, pml4, w, pt, va);
      }
      ok := true;
    }

    /** All 512 entries of a page table. */
    method WireTable(pml4: nat, pt: nat, chunk: nat, w: Window) returns (ok: bool)
      requires Valid() && w.o < |objects| && w.start <= w.lo && mem.Root(pml4) && Tree(mem.tables, pml4)
      requires chunk % MB2 == 0 && chunk < VA_LIMIT && IsTable(mem.tables, pt)
      requires Reach(mem.tables, pml4, 4, chunk, 1).Some? && Reach(mem.tables, pml4, 4, chunk, 1).value.0 == pt
      modifies this`objects, mem.Repr()
      ensures Valid() && mem.Root(pml4) && Tree(mem.tables, pml4)
      ensures WireStep(old(mem.tables), old(objects), mem.tables, objects, pml4, w)
      ensures ok ==> DealtWith(old(mem.tables), old(objects), mem.tables, objects, pml4, w, chunk, chunk + MB2)
      ensures !ok ==> Short(objects, w) || mem.NoFrame()
      ensures old(Separate()) ==> Separate()
    {
      hide BuddyState.Inv, NoHand, RunAvailable, Short, Leveled, Tree, Walk, Reach, WireStep, NewSmall, RangeWired,
           Grown, GoodPages, Apart;
      ghost var mem0, objs0 := mem.tables, objects;
      NothingYet(mem0, objs0, pml4, w, chunk);
      var i := 0;
      while i < 512
        invariant 0 <= i <= 512
        invariant Valid() && mem.Root(pml4) && Tree(mem.tables, pml4) && IsTable(mem.tables, pt) && w.o < |objects|
        invariant DealtWith(mem0, objs0, mem.tables, objects, pml4, w, chunk, chunk + i * 0x1000)
        invariant old(Separate()) ==> Separate()
        invariant Reach(mem.tables, pml4, 4, chunk, 1).Some? && Reach(mem.tables, pml4, 4, chunk, 1).value.0 == pt
      {
        ghost var mem1, objs1 := mem.tables, objects;
        var va := chunk + i * 0x1000;
        ChunkOffset(mem1, pml4, chunk, i);
        ok := WirePage(pml4, pt, va, w);
        StepTrans(mem0, objs0, mem1, objs1, mem.tables, objects, pml4, w);
        if !ok { return; }
        ChunkOffset(mem.tables, pml4, chunk, i);
        DealtMore(mem0, objs0, mem1, objs1, mem.tables, objects, pml4, w, chunk, va, va + 0x1000);
        StepGrown(mem1, objs1, mem.tables, objects, pml4, w);
        i := i + 1;
      }
      ok := true;
    }

    /** One 2 MB chunk of the range. */
    method WireChunk(pml4: nat, chunk: nat, w: Window) returns (ok: bool)
      requires Valid() && w.o < |objects| && w.start <= w.lo && mem.Root(pml4) && Tree(mem.tables, pml4)
      requires chunk % MB2 == 0 && chunk < VA_LIMIT
      modifies this`objects, mem.Repr()
      ensures Valid() && mem.Root(pml4) && Tree(mem.tables, pml4)
      ensures WireStep(old(mem.tables), old(objects), mem.tables, objects, pml4, w)
      ensures ok ==> DealtWith(old(mem.tables), old(objects), mem.tables, objects, pml4, w, chunk, chunk + MB2)
      ensures !ok ==> Short(objects, w) || mem.NoFrame()
      ensures old(Separate()) ==> Separate()
    {
      hide BuddyState.Inv, NoHand, RunAvailable, Short, Leveled, Tree, Walk, Reach, SameMeaning, SmallSame, TreesKept,
           ReachKept, WireStep, AllowedSame, NewSmall, RangeWired, Grown, GoodPages, Apart, NewHeld, Hosted;
      ghost var mem0, lv0, objs0, used0 := mem.tables, mem.level, objects, mem.buddy.Live().Keys;
      var pd := mem.MakePd(pml4, chunk);
      ghost var mem1, lv1, used1 := mem.tables, mem.level, mem.buddy.Live().Keys;
      if Apart(objs0, mem0.Keys, used0) { ApartTables(objs0, mem0.Keys, used0, mem1.Keys, used1); }
      Meaning(mem0, lv0, mem1, lv1, pml4);
      EmptyStep(mem0, lv0, mem1, lv1, objs0, pml4, w, chunk);
      if pd.None? { return false; }
      var e := mem.tables[pd.value][Index(chunk, 2)];
      if Present(e) && Huge(e) {
        ok := WireHuge(pml4, pd.value, chunk, w);
        StepTrans(mem0, objs0, mem1, objs0, mem.tables, objects, pml4, w);
        if ok { DealtMore(mem0, objs0, mem1, objs0, mem.tables, objects, pml4, w, chunk, chunk, chunk + MB2); }
        return;
      }
      var pt := mem.Follow(pd.value, 2, chunk);
      ghost var mem2, lv2 := mem.tables, mem.level;
      if Apart(objs0, mem1.Keys, used1) { ApartTables(objs0, mem1.Keys, used1, mem2.Keys, mem.buddy.Live().Keys); }
      Meaning(mem1, lv1, mem2, lv2, pml4);
      EmptyStep(mem1, lv1, mem2, lv2, objs0, pml4, w, chunk);
      DealtMore(mem0, objs0, mem1, objs0, mem2, objs0, pml4, w, chunk, chunk, chunk);
      if pt.None? { return false; }
      PageTables.Kept(mem1, lv1, mem2, 2, pml4, chunk);
      ReachDown(mem2, lv2, pml4, chunk, pd.value, 2);
      ok := WireTable(pml4, pt.value, chunk, w);
      StepTrans(mem0, objs0, mem2, objs0, mem.tables, objects, pml4, w);
      if ok { DealtMore(mem0, objs0, mem2, objs0, mem.tables, objects, pml4, w, chunk, chunk, chunk + MB2); }
    }

    /** All chunks of one region's share of the range: on success each page of the window
        keeps the 4 KB entry it had or leads to its object page. */
    method WireWindow(pml4: nat, w: Window) returns (ok: bool)
      requires Valid() && w.o < |objects| && w.start <= w.lo && w.hi <= VA_LIMIT && mem.Root(pml4)
      requires Tree(mem.tables, pml4)
      modifies this`objects, mem.Repr()
      ensures Valid() && mem.Root(pml4) && Tree(mem.tables, pml4)
      ensures WireStep(old(mem.tables), old(objects), mem.tables, objects, pml4, w)
      ensures ok ==> RangeWired(old(mem.tables), mem.tables, pml4, objects, w, 0, VA_LIMIT)
      ensures !ok ==> Short(objects, w) || mem.NoFrame()
      ensures old(Separate()) ==> Separate()
    {
      hide BuddyState.Inv, NoHand, RunAvailable, Short, Leveled, Tree, Walk, Reach, WireStep, NewSmall, RangeWired,
           Grown, GoodPages, Apart;
      ghost var mem0, objs0 := mem.tables, objects;
      var chunk := w.lo - w.lo % MB2;
      var end := (w.hi + MB2 - 1) / MB2 * MB2;
      ghost var first := chunk;
      NothingYet(mem0, objs0, pml4, w, first);
      while chunk < end
        invariant chunk % MB2 == 0 && first <= chunk
        invariant Valid() && mem.Root(pml4) && Tree(mem.tables, pml4) && w.o < |objects|
        invariant DealtWith(mem0, objs0, mem.tables, objects, pml4, w, first, chunk)
        invariant old(Separate()) ==> Separate()
      {
        ghost var mem1, objs1 := mem.tables, objects;
        ok := WireChunk(pml4, chunk, w);
        StepTrans(mem0, objs0, mem1, objs1, mem.tables, objects, pml4, w);
        if !ok { return; }
        DealtMore(mem0, objs0, mem1, objs1, mem.tables, objects, pml4, w, first, chunk, chunk + MB2);
        StepGrown(mem1, objs1, mem.tables, objects, pml4, w);
        chunk := chunk + MB2;
      }
      WholeWindow(mem0, mem.tables, pml4, objects, w, first, chunk);
      ok := true;
    }

    /** Gives an anonymous region without an object an empty one. */
    method EnsureObject(i: nat, memory: bool) returns (ok: bool)
      requires Valid() && i < |regions|
      modifies this`regions, this`objects
      ensures Valid() && Grown(old(objects), objects) && RegionsGrown(old(regions), regions)
      ensures OwnObjects(old(objects), old(regions), objects, regions) && (old(Separate()) ==> Separate())
      ensures forall j :: 0 <= j < |regions| && j != i ==> regions[j] == old(regions[j])
      ensures ok && Backed(old(regions[i])) ==> regions[i].obj != 0
      ensures ok <==> memory || old(regions[i].obj) != 0 || !IsAnon(old(regions[i].flags))
    {
      hide BuddyState.Inv, NoHand, Leveled, Apart;
      if regions[i].obj == 0 && IsAnon(regions[i].flags) {
        if !memory { return false; }
        var size := if regions[i].end > regions[i].start then regions[i].end - regions[i].start else 0;
        var npages := (size + 0xFFF) / 0x1000;
        if npages == 0 { npages := 1; }
        if Separate() { ApartEmpty(objects, mem.tables.Keys, mem.buddy.Live().Keys, npages); }
        objects := objects + [seq(npages, _ => 0)];
        regions := regions[i := regions[i].(obj := |objects|)];
      }
      ok := true;
    }

    /** One region's share of the range: on success each page of it keeps the 4 KB entry it
        had or leads to its object page. */
    method WireRegion(i: nat, pml4: nat, start: nat, end: nat, memory: bool) returns (ok: bool)
      requires Valid() && i < |regions| && mem.Root(pml4) && Tree(mem.tables, pml4) && end <= VA_LIMIT
      modifies Repr()
      ensures Valid() && mem.Root(pml4) && Tree(mem.tables, pml4)
      ensures RangeStep(old(mem.tables), old(objects), old(regions), mem.tables, objects, regions, pml4, start, end)
      ensures forall j :: 0 <= j < |regions| && j != i ==> regions[j] == old(regions[j])
      ensures ok && Backed(old(regions[i])) && old(regions[i].start < end && regions[i].end > start) ==>
                regions[i].obj != 0
      ensures ok && regions[i].obj != 0 ==>
                ShareWired(old(mem.tables), mem.tables, pml4, objects, regions[i], start, end)
      ensures ok && Backed(old(regions[i])) ==> ShareMapped(mem.tables, pml4, old(regions[i]), start, end)
      ensures !ok ==> Starved(objects, old(regions[i]), regions[i], memory, start, end) || mem.NoFrame()
      ensures old(Separate()) ==> Separate()
    {
      hide BuddyState.Inv, NoHand, RunAvailable, Short, Leveled, Tree, Walk, Reach, WireStep, RangeStep, RangeWired,
           Grown, GoodPages, ShareWired, ShareMapped, OwnObjects, Covers, Apart, Hosted;
      ghost var mem0, objs0, rs0 := mem.tables, objects, regions;
      if !(regions[i].start < end && regions[i].end > start) {
        RangeRefl(mem0, objs0, rs0, pml4, start, end);
        NoShare(mem0, mem0, pml4, objs0, regions[i], start, end);
        return true;
      }
      var ws := if regions[i].start > start then regions[i].start else start;
      var we := if regions[i].end < end then regions[i].end else end;
      ok := EnsureObject(i, memory);
      ghost var objs1 := objects;
      ObjectsStep(mem0, objs0, rs0, objs1, regions, pml4, start, end);
      if !ok { return; }
      if regions[i].obj != 0 {
        ok := WireWindow(pml4, Window(regions[i].obj - 1, regions[i].start, regions[i].offset, ws, we));
        WindowStep(mem0, objs1, mem.tables, objects, regions, i, pml4, ws, we, start, end);
        RangeTrans(mem0, objs0, rs0, mem0, objs1, regions, mem.tables, objects, regions, pml4, start, end);
        if ok {
          Share(mem0, mem.tables, pml4, objects, regions[i], start, end, ws, we);
          WiredMapped(mem0, mem.tables, pml4, objects, regions[i], start, end);
          SameShare(mem.tables, pml4, rs0[i], regions[i], start, end);
        } else if rs0[i].obj == 0 && rs0[i].offset == 0 {
          NewCovers(mem0, objs0, rs0, mem.tables, objects, regions, pml4, start, end, i);
        }
      }
    }

    /** Wires `[start, start + size)`. On success every page of it in a region with an object,
        or an anonymous one, is mapped. Whatever happens, pages outside and pages with a 4 KB
        entry keep their translation, and a page whose translation changed leads to the page
        of the object behind its region. */
    method WireRange(start: nat, size: nat, pml4: nat, memory: seq<bool>) returns (r: int)
      requires Valid() && mem.Root(pml4) && Tree(mem.tables, pml4) && start + size <= VA_LIMIT && |memory| == |regions|
      modifies Repr()
      ensures Valid() && mem.Root(pml4) && Tree(mem.tables, pml4) && (r == 0 || r == -1)
      ensures RangeStep(old(mem.tables), old(objects), old(regions), mem.tables, objects, regions, pml4, start,
                        start + size)
      ensures r == 0 ==> forall i :: 0 <= i < |old(regions)| && Backed(old(regions)[i]) ==>
                ShareMapped(mem.tables, pml4, old(regions)[i], start, start + size)
      ensures r == -1 ==> mem.NoFrame() || Unsupplied(objects, old(regions), regions, memory, start, start + size)
      ensures old(Separate()) ==> Separate()
    {
      hide BuddyState.Inv, NoHand, RunAvailable, RegionShort, Leveled, Tree, Walk, Reach, RangeStep, ShareWired,
           ShareMapped, Grown, GoodPages, Starved, Apart;
      var end := start + size;
      ghost var mem0, objs0, rs0 := mem.tables, objects, regions;
      RangeRefl(mem0, objs0, rs0, pml4, start, end);
      var i := 0;
      while i < |regions|
        invariant 0 <= i <= |regions| == |rs0|
        invariant Valid() && mem.Root(pml4) && Tree(mem.tables, pml4)
        invariant RangeStep(mem0, objs0, rs0, mem.tables, objects, regions, pml4, start, end)
        invariant old(Separate()) ==> Separate()
        invariant forall j :: i <= j < |regions| ==> regions[j] == rs0[j]
        invariant forall j :: 0 <= j < i && Backed(rs0[j]) ==> ShareMapped(mem.tables, pml4, rs0[j], start, end)
      {
        ghost var mem1, objs1, rs1 := mem.tables, objects, regions;
        var ok := WireRegion(i, pml4, start, end, memory[i]);
        RangeTrans(mem0, objs0, rs0, mem1, objs1, rs1, mem.tables, objects, regions, pml4, start, end);
        StepLength(mem1, objs1, rs1, mem.tables, objects, regions, pml4, start, end);
        if !ok { return -1; }
        forall j | 0 <= j < i && Backed(rs0[j]) ensures ShareMapped(mem.tables, pml4, rs0[j], start, end) {
          ShareKept(mem1, objs1, rs1, mem.tables, objects, regions, pml4, rs0[j], start, end);
        }
        i := i + 1;
      }
      r := 0;
    }
  }
}
