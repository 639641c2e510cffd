/** What a new folder holds. `fat32_mkdir` clears the first sector of its cluster only, so what the later sectors
    held before lies behind the end mark. */
module FatNewFolder {
  import opened FatDisk
  import opened FatChains
  import opened FatSectors
  import opened FatVolume
  import opened FatDir
  import opened FatScan
  import opened FatFiles
  import opened FatFolders
  import opened FatMkdir
  import opened FatRmdir

  /** The sectors of one cluster. */
  lemma {:induction false} OneList(g: Geo, c: nat, p: nat)
    requires 2 <= c < g.Limit()
    ensures Clusters(g, [c]) && |SectorList(g, [c])| == g.spc
    ensures p < g.spc ==> var n := g.ClusterSector(c) + p; SectorList(g, [c])[p] == n && n in SectorList(g, [c])
  {
    hide SectorList, Times;
    SectorListAt(g, [c], 0, p);
    TimesStep(0, g.spc);
  }

  lemma {:induction false} OneCluster(g: Geo, d: Disk, c: nat, i: nat)
    requires DiskOk(g, d) && 2 <= c < g.Limit()
    ensures Clusters(g, [c]) && |DirSlots(g, d, [c])| == 16 * g.spc >= 16
    ensures i < 16 * g.spc ==> var n := g.ClusterSector(c) + i / 16;
              && n < |d| && |d[n]| == 512 && n in SectorList(g, [c]) && DirSlots(g, d, [c])[i] == SlotIn(d[n], i % 16)
  {
    assert g.spc >= 1;
    hide DiskOk, SlotIn, DirSlots, SectorList, Page;
    var p, j := i / 16, i % 16;
    OneList(g, c, p);
    DirPage(g, d, [c], p);
    if i < 16 * g.spc {
      var n := SectorList(g, [c])[p];
      PageBytes(DirSlots(g, d, [c]), p, d[n]);
      PageAt(DirSlots(g, d, [c]), p, d[n], j);
    }
  }

  lemma {:induction false} PageBytes(slots: seq<Slot>, p: nat, buf: Sector)
    requires Page(slots, p, buf)
    ensures |buf| == 512
  {
  }

  /** Slots `b` of a new folder whose cluster held slots `a`: its own two, end marks up to slot 15, and then what
      was there. */
  ghost predicate NewSlots(a: seq<Slot>, b: seq<Slot>, self: nat, parent: nat) {
    && |b| == |a| >= 16 && (forall i :: 0 <= i < 16 ==> b[i] == SlotIn(FolderSector(self, parent), i))
    && forall i :: 16 <= i < |a| ==> b[i] == a[i]
  }

  lemma {:induction false} NewFolderSlots(g: Geo, d: Disk, d': Disk, dir: seq<nat>, name83: seq<nat>, k: nat, c: nat)
    requires Made(g, d, d', dir, name83, k, c) && IsChain(Fat(g, d), dir)
    ensures Clusters(g, [c]) && NewSlots(DirSlots(g, d, [c]), DirSlots(g, d', [c]), c, dir[0])
  {
    hide DirSlots, Fat, IsChain, SlotIn, FolderSector, WordsSet, First, NewSlot, WithCluster, SectorList, DiskOk;
    FreeApart(Fat(g, d), dir, c);
    OneCluster(g, d, c, 0);
    OneCluster(g, d', c, 0);
    ListsApart(g, [c], dir);
    var a, b := DirSlots(g, d, [c]), DirSlots(g, d', [c]);
    forall i | 0 <= i < |a| ensures b[i] == if i < 16 then SlotIn(FolderSector(c, dir[0]), i) else a[i] {
      OneCluster(g, d, c, i);
      OneCluster(g, d', c, i);
      SectorListRange(g, [c], g.ClusterSector(c) + i / 16);
    }
  }

  /** What is left behind the end mark names only chains of the volume. */
  ghost predicate StaleRooted(slots: seq<Slot>, chains: set<seq<nat>>)
    requires IsDir(slots)
  {
    forall i :: 16 <= i < |slots| && Live(slots[i]) ==>
      FirstCluster(slots[i]) == 0 || Owned(chains, FirstCluster(slots[i]))
  }

  /** The new folder can be the working directory of a mounted volume if and only if what its later sectors held
      before names only chains of the volume. */
  lemma {:induction false} NewFolderMountedIff(g: Geo, d: Disk, d': Disk, chains: set<seq<nat>>, dir: seq<nat>,
                                               name83: seq<nat>, k: nat, c: nat)
    requires Mounted(g, d, chains, dir) && Made(g, d, d', dir, name83, k, c) && Bytes(name83) && Clusters(g, [c])
    ensures Mounted(g, d', chains + {[c]}, [c]) <==> StaleRooted(DirSlots(g, d, [c]), chains + {[c]})
  {
    hide DirSlots, DiskOk, Fat, IsChain, FolderSector, Made, Family, NewSlots, StaleRooted, Rooted;
    MadeMounted(g, d, d', chains, dir, name83, k, c);
    DirIsChain(g, d, chains, dir);
    MadeBounds(g, d, d', dir, name83, k, c);
    NewFolderSlots(g, d, d', dir, name83, k, c);
    NewRootedIff(DirSlots(g, d, [c]), DirSlots(g, d', [c]), chains, dir, c);
  }

  lemma {:induction false} DirIsChain(g: Geo, d: Disk, chains: set<seq<nat>>, dir: seq<nat>)
    requires Mounted(g, d, chains, dir)
    ensures IsChain(Fat(g, d), dir)
  {
    hide IsChain, Fat, DiskOk;
  }

  lemma {:induction false} MadeBounds(g: Geo, d: Disk, d': Disk, dir: seq<nat>, name83: seq<nat>, k: nat, c: nat)
    requires Made(g, d, d', dir, name83, k, c) && IsChain(Fat(g, d), dir)
    ensures DiskOk(g, d) && DiskOk(g, d') && |dir| > 0 && dir[0] < 0x1_0000_0000 && c < 0x1_0000_0000
  {
    hide IsChain, Fat, DiskOk, FolderSector, NewSlot, WithCluster, DirSlots, WordsSet, First;
    HeadLimits(g, d, dir, c);
  }

  lemma {:induction false} NewRootedIff(a: seq<Slot>, b: seq<Slot>, chains: set<seq<nat>>, dir: seq<nat>, c: nat)
    requires IsDir(a) && IsDir(b) && dir in chains && |dir| > 0 && NewSlots(a, b, c, dir[0])
    requires dir[0] < 0x1_0000_0000 && c < 0x1_0000_0000
    ensures Rooted(b, chains + {[c]}) <==> StaleRooted(a, chains + {[c]})
  {
    hide FolderSector, SlotIn, FirstCluster, Owned;
    var all := chains + {[c]};
    FolderSectorFacts(c, dir[0]);
    OwnedHeads(chains, dir, c);
    if StaleRooted(a, all) {
      forall i | 0 <= i < |b| && Live(b[i]) ensures FirstCluster(b[i]) == 0 || Owned(all, FirstCluster(b[i])) {
        if i >= 16 { assert b[i] == a[i]; }
      }
    }
    if Rooted(b, all) {
      forall i | 16 <= i < |a| && Live(a[i]) ensures FirstCluster(a[i]) == 0 || Owned(all, FirstCluster(a[i])) {
        assert b[i] == a[i];
      }
    }
  }

  lemma {:induction false} OwnedHeads(chains: set<seq<nat>>, dir: seq<nat>, c: nat)
    requires dir in chains && |dir| > 0
    ensures Owned(chains + {[c]}, c) && Owned(chains + {[c]}, dir[0])
  {
    assert [c] in chains + {[c]} && dir in chains + {[c]};
  }

  /** A slot behind the end mark has that name. */
  ghost predicate StaleName(slots: seq<Slot>, name83: seq<nat>)
    requires IsDir(slots)
  {
    exists i :: 16 <= i < |slots| && Passes(Used(name83), slots[i])
  }

  /** The new folder holds nothing. A scan of `fat32_rmdir` in it goes past the lookup, to a slot behind the end
      mark, if and only if such a slot has the name and the name is not one of the folder's own two. */
  lemma {:induction false} NewFolderScan(g: Geo, d: Disk, d': Disk, dir: seq<nat>, name83: seq<nat>, k: nat, c: nat,
                                         junk: seq<nat>, name: seq<nat>, m: int)
    requires Made(g, d, d', dir, name83, k, c) && IsChain(Fat(g, d), dir) && Clusters(g, [c])
    requires |junk| == LFN_BUFFER && First(DirSlots(g, d', [c]), Used(Name83(name)), m)
    ensures !HoldsEntry(DirSlots(g, d', [c])) && Lookup(DirSlots(g, d', [c]), junk, name) < 2
    ensures m >= 2 <==> Name83(name) != Field([DOT], 11) && Name83(name) != Field([DOT, DOT], 11)
                        && StaleName(DirSlots(g, d, [c]), Name83(name))
    ensures m >= 2 ==> m >= 16 && Lookup(DirSlots(g, d', [c]), junk, name) == -1
  {
    hide DirSlots, DiskOk, Fat, IsChain, FolderSector, Made, SlotIn, FirstCluster, Name83, Field, Live, Lookup, First;
    MadeBounds(g, d, d', dir, name83, k, c);
    NewFolderSlots(g, d, d', dir, name83, k, c);
    var a, b := DirSlots(g, d, [c]), DirSlots(g, d', [c]);
    FolderSectorFacts(c, dir[0]);
    DotSlots(c, dir[0]);
    ScanPast(a, b, Name83(name), m);
    SeesTwo(b, junk, name);
  }

  lemma {:induction false} ScanPast(a: seq<Slot>, b: seq<Slot>, n: seq<nat>, m: int)
    requires IsDir(a) && IsDir(b) && |b| == |a| >= 16 && First(b, Used(n), m)
    requires Live(b[0]) && Live(b[1])
    requires forall i :: 2 <= i < 16 ==> b[i][0] == 0
    requires forall i :: 16 <= i < |b| ==> b[i] == a[i]
    ensures m >= 2 <==> n != b[0][..11] && n != b[1][..11] && StaleName(a, n)
    ensures m >= 2 ==> m >= 16
    ensures m >= 2 ==> !Passes(Named(n), b[0]) && !Passes(Named(n), b[1])
  {
    if StaleName(a, n) {
      var i :| 16 <= i < |a| && Passes(Used(n), a[i]);
      assert Passes(Used(n), b[i]);
    }
    assert n == b[0][..11] ==> Passes(Used(n), b[0]);
    assert n == b[1][..11] ==> Passes(Used(n), b[1]);
  }

  /** The lookup sees the first two slots only. */
  lemma {:induction false} SeesTwo(slots: seq<Slot>, junk: seq<nat>, name: seq<nat>)
    requires IsDir(slots) && |slots| >= 16 && Live(slots[0]) && Live(slots[1]) && |junk| == LFN_BUFFER
    requires slots[2][0] == 0
    ensures !HoldsEntry(slots) && Lookup(slots, junk, name) < 2
    ensures Lookup(slots, junk, name) >= 0 ==>
              Passes(Named(Name83(name)), slots[0]) || Passes(Named(Name83(name)), slots[1])
  {
    hide Search, Name83, SameName;
    EntryMeansFound(slots, junk, name, 0);
    var a := Acc(junk, 0, 0);
    SearchStep(slots, 0, a, name);
    SearchStep(slots, 1, Passed(a, slots[0]), name);
    EndsAt(slots, 2, Passed(Passed(a, slots[0]), slots[1]), name);
  }

  lemma {:induction false} EndsAt(slots: seq<Slot>, k: nat, a: Acc, name: seq<nat>)
    requires IsDir(slots) && k < |slots| && |a.text| == LFN_BUFFER && slots[k][0] == 0
    ensures Search(slots, k, a, name) == -1
  {
  }
}
