/** Making and removing directories. */
module FatMkdir {
  import opened Sequences
  import opened FatDisk
  import opened FatChains
  import opened FatSectors
  import opened FatVolume
  import opened FatDir
  import opened FatScan
  import opened FatFiles
  import opened FatReadWrite
  import opened FatFolders

  ghost predicate Unnamed(slots: seq<Slot>, name83: seq<nat>, k: nat)
    requires IsDir(slots)
  {
    forall i :: 0 <= i < k && i < |slots| ==> !Passes(Named(name83), slots[i])
  }

  /** After the slot is created, the scan for a folder of that name stops exactly there. */
  lemma FolderFound(slots: seq<Slot>, name83: seq<nat>, k: nat, e: Slot, m: int)
    requires IsDir(slots) && k < |slots| && Unnamed(slots, name83, k) && |e| == 32 && |name83| == 11
    requires e[..11] == name83 && e[11] == FOLDER && e[0] == name83[0]
    requires First(slots[k := e], Folder(name83), m)
    ensures m == if name83[0] == DELETED then -1 else k
  {
    var t := slots[k := e];
    assert t[k] == e;
    if m >= 0 { assert t[m][0] == t[m][..11][0]; }
  }

  method Mkdir(v: Volume, name: seq<nat>, junk: seq<nat>, ghost dir: seq<nat>, ghost chains: set<seq<nat>>)
    returns (r: int, ghost k: int, ghost c: nat)
    requires Mounted(v.g, v.disk, chains, dir) && dir[0] == v.cwd && IsName(name) && |junk| == LFN_BUFFER
    modifies v`disk
    ensures v.Valid()
    ensures r == 0 ==> k >= 0 && Made(v.g, old(v.disk), v.disk, dir, Name83(name), k, c)
    ensures r == 0 ==> Unnamed(old(DirSlots(v.g, v.disk, dir)), Name83(name), k) && Name83(name)[0] != DELETED
    ensures c == 0 ==> r == NOSPACE && Full(old(v.Table()))
    ensures c != 0 ==> 2 <= c < v.g.Limit() && old(v.Table())[c] == 0
    ensures c != 0 ==> forall e :: 2 <= e < c ==> old(v.Table())[e] != 0
    ensures c != 0 ==> var slots := old(DirSlots(v.g, v.disk, dir));
              if Lookup(slots, junk, name) >= 0 then r == EXISTS && k == -1
              else First(slots, Vacant, k) &&
                   r == if k == -1 then NOSPACE else if Name83(name)[0] == DELETED then NOTFOUND else 0
    ensures r == NOSPACE || r == EXISTS ==> v.disk == old(v.disk)
  {
    assert IsChain(v.Table(), dir);
    ghost var slots := DirSlots(v.g, v.disk, dir);
    hide Mounted, IsChain, Fat, DiskOk, DirSlots, First, Made, Search, Family, Name83, Full, NewSlot;
    k := -1;
    var cluster := v.FatFindFree();
    c := cluster;
    if cluster == 0 { return NOSPACE, k, c; }
    var sector, entry;
    ghost var found;
    sector, entry, found := FindEntry(v, v.cwd, name, junk, dir);
    if sector >= 0 { return EXISTS, k, c; }
    r, k := CreateEntry(v, name, FOLDER, dir);
    if r != 0 { return r, k, c; }
    SearchMiss(slots, Acc(junk, 0, 0), name, k);
    r := NameFolder(v, name, cluster, dir, old(v.disk), k);
  }

  lemma {:induction false} ReadyToName(g: Geo, d: Disk, dir: seq<nat>, name: seq<nat>, c: nat, k: nat)
    requires DiskOk(g, d) && Clusters(g, dir) && IsChain(Fat(g, d), dir) && IsName(name)
    requires c < g.Limit() && k < |DirSlots(g, d, dir)|
    ensures Distinct(dir) && IsDir(DirSlots(g, d, dir)) && |DirSlots(g, d, dir)[k]| == 32 && c < 0x1_0000_0000
    ensures |Name83(name)| == 11 && Bytes(Name83(name))
    ensures var r := NewSlot(DirSlots(g, d, dir)[k], Name83(name), FOLDER);
            && |r| == 32 && r[..11] == Name83(name) && r[11] == FOLDER && r[0] == Name83(name)[0]
            && SlotOk(WithCluster(r, c))
  {
    HeadLimits(g, d, dir, c);
    Name83Bytes(name);
    SlotBytes(g, d, dir, k);
    NewSlotFacts(DirSlots(g, d, dir)[k], Name83(name), FOLDER, c);
    hide Fat, DiskOk, Name83, NewSlot, WithCluster, FirstCluster, FileSize;
  }

  /** Points the folder's slot at its cluster, takes the cluster and writes its first sector. */
  method NameFolder(v: Volume, name: seq<nat>, cluster: nat, ghost dir: seq<nat>, ghost d: Disk, ghost k: nat)
    returns (r: int)
    requires v.Valid() && DiskOk(v.g, d) && Clusters(v.g, dir) && IsChain(Fat(v.g, d), dir) && dir[0] == v.cwd
    requires IsName(name)
    requires 2 <= cluster < v.g.Limit() && v.Table() == Fat(v.g, d) && Fat(v.g, d)[cluster] == 0
    requires k < |DirSlots(v.g, d, dir)| && First(DirSlots(v.g, d, dir), Vacant, k)
    requires Unnamed(DirSlots(v.g, d, dir), Name83(name), k) && DataKept(v.g, d, v.disk, dir)
    requires DirSlots(v.g, v.disk, dir) ==
             DirSlots(v.g, d, dir)[k := NewSlot(DirSlots(v.g, d, dir)[k], Name83(name), FOLDER)]
    requires forall m :: 0 <= m < v.g.firstData && m < |d| && m < |v.disk| ==> v.disk[m] == d[m]
    modifies v`disk
    ensures v.Valid() && r == if Name83(name)[0] == DELETED then NOTFOUND else 0
    ensures r == 0 ==> Made(v.g, d, v.disk, dir, Name83(name), k, cluster)
  {
    hide IsChain, Fat, DiskOk, DirSlots, First, Made, Name83, NewSlot, Unnamed, WithCluster, FolderSector, FirstCluster,
         FileSize, Distinct, SlotOk, Bytes;
    var name83 := NameTo83(name);
    ghost var slots := DirSlots(v.g, d, dir);
    ReadyToName(v.g, d, dir, name, cluster, k);
    var sector, j;
    ghost var m;
    sector, j, m := ScanDir(v, v.cwd, Folder(name83), dir);
    FolderFound(slots, name83, k, DirSlots(v.g, v.disk, dir)[k], m);
    if sector == -1 { return NOTFOUND; }
    var e := LoadSlot(v, sector, j, dir, m);
    PutSlot(v, sector, j, WithCluster(e, cluster), dir, m);
    KeptTwice(v.g, d, old(v.disk), v.disk, dir);
    TakeFolder(v, cluster, dir, name83, d, k);
    r := 0;
  }

  method TakeFolder(v: Volume, cluster: nat, ghost dir: seq<nat>, ghost name83: seq<nat>, ghost d: Disk, ghost k: nat)
    requires v.Valid() && DiskOk(v.g, d) && Clusters(v.g, dir) && IsChain(Fat(v.g, d), dir) && dir[0] == v.cwd
    requires 2 <= cluster < v.g.Limit() && v.Table() == Fat(v.g, d) && Fat(v.g, d)[cluster] == 0 && |name83| == 11
    requires k < |DirSlots(v.g, d, dir)| && First(DirSlots(v.g, d, dir), Vacant, k) && DataKept(v.g, d, v.disk, dir)
    requires DirSlots(v.g, v.disk, dir) ==
             DirSlots(v.g, d, dir)[k := WithCluster(NewSlot(DirSlots(v.g, d, dir)[k], name83, FOLDER), cluster)]
    requires forall m :: 0 <= m < v.g.firstData && m < |d| && m < |v.disk| ==> v.disk[m] == d[m]
    modifies v`disk
    ensures v.Valid() && Made(v.g, d, v.disk, dir, name83, k, cluster)
  {
    HeadLimits(v.g, d, dir, cluster);
    hide IsChain, Fat, DiskOk, DirSlots, First, Made, NewSlot, WithCluster, FolderSector, FirstCluster, WithEntry;
    v.FatWriteEntry(cluster, LAST);
    ghost var d2 := v.disk;
    ClusterPlace(v.g, d2, cluster);
    FolderSectorFacts(cluster, v.cwd);
    v.WriteSector(v.g.ClusterSector(cluster), FolderSector(cluster, v.cwd));
    MadeSteps(v.g, d, old(v.disk), d2, v.disk, dir, name83, k, cluster);
  }

  lemma HeadLimits(g: Geo, d: Disk, dir: seq<nat>, c: nat)
    requires DiskOk(g, d) && IsChain(Fat(g, d), dir) && c < g.Limit()
    ensures 2 <= dir[0] < 0x1_0000_0000 && c < 0x1_0000_0000
  {
    assert Link(Fat(g, d), dir, 0);
  }

  lemma ClusterPlace(g: Geo, d: Disk, c: nat)
    requires DiskOk(g, d) && 2 <= c < g.Limit()
    ensures g.firstData <= g.ClusterSector(c) < |d|
  {
    SingleList(g, d, c);
    assert ClusterSectors(g, c)[0] in ClusterSectors(g, c);
  }

  lemma KeptTwice(g: Geo, d: Disk, d1: Disk, d2: Disk, dir: seq<nat>)
    requires Clusters(g, dir) && DataKept(g, d, d1, dir) && DataKept(g, d1, d2, dir)
    ensures DataKept(g, d, d2, dir)
  {
  }

  /** The new volume has the new directory among its chains. */
  lemma {:induction false} MadeMounted(g: Geo, d: Disk, d': Disk, chains: set<seq<nat>>, dir: seq<nat>,
                                       name83: seq<nat>, k: nat, c: nat)
    requires Mounted(g, d, chains, dir) && Made(g, d, d', dir, name83, k, c) && Bytes(name83)
    ensures Mounted(g, d', chains + {[c]}, dir)
  {
    var a, b, all := DirSlots(g, d, dir), DirSlots(g, d', dir), chains + {[c]};
    FamilyNew(Fat(g, d), chains, c);
    assert IsChain(Fat(g, d), dir);
    MadeSlot(g, d, d', dir, name83, k, c);
    hide IsChain, Fat, DiskOk, DirSlots, NewSlot, WithCluster, FirstCluster, First, FolderSector, WordsSet, Family;
    forall m | 0 <= m < |b| && b[m][0] != 0 && b[m][0] != DELETED && b[m][11] != LONG
      ensures FirstCluster(b[m]) == 0 || Owned(all, FirstCluster(b[m]))
    {
      if m == k {
        assert [c] in all && [c][0] == c;
      } else if FirstCluster(a[m]) != 0 {
        var u :| u in chains && |u| > 0 && u[0] == FirstCluster(a[m]);
        assert u in all;
      }
    }
  }

  // ---- rmdir ---------------------------------------------------------------------------------------------------

  /** All slots after the first two of a folder's first sector are vacant. */
  ghost predicate Empty(sec: Sector) {
    |sec| == 512 && forall i: nat :: 2 <= i < 16 ==> SlotIn(sec, i)[0] == 0 || SlotIn(sec, i)[0] == DELETED
  }

  method CheckEmpty(sec: Sector) returns (empty: bool)
    requires |sec| == 512
    ensures empty <==> Empty(sec)
  {
    var i := 2;
    while i < 16
      invariant 2 <= i <= 16
      invariant forall j: nat :: 2 <= j < i ==> SlotIn(sec, j)[0] == 0 || SlotIn(sec, j)[0] == DELETED
    {
      if SlotIn(sec, i)[0] != 0 && SlotIn(sec, i)[0] != DELETED { return false; }
      i := i + 1;
    }
    empty := true;
  }

  predicate IsFolder(e: Slot)
    requires |e| == 32
  {
    e[11] / 0x10 % 2 == 1
  }

  function Erased(e: Slot): (r: Slot)
    requires |e| == 32
    ensures |r| == 32 && r[0] == DELETED && r[1..] == e[1..]
  {
    Patch(e, 0, [DELETED])
  }

  /** From `d` to `d'`, slot `k` was marked deleted and the chain `s` freed; nothing else changed. */
  ghost predicate Removed(g: Geo, d: Disk, d': Disk, dir: seq<nat>, k: nat, s: seq<nat>) {
    && DiskOk(g, d) && DiskOk(g, d') && |d'| == |d| && Clusters(g, dir)
    && Fat(g, d') == Zeroed(Fat(g, d), s) && WordsSet(g, d, d', s, 0)
    && k < |DirSlots(g, d, dir)| && DirSlots(g, d', dir) == DirSlots(g, d, dir)[k := Erased(DirSlots(g, d, dir)[k])]
    && DataKept(g, d, d', dir)
  }

  /** What `fat32_rmdir` answers for slot `k`. */
  ghost function RmdirAnswer(g: Geo, d: Disk, dir: seq<nat>, k: int): int
    requires DiskOk(g, d) && Clusters(g, dir) && -1 <= k < |DirSlots(g, d, dir)|
    requires k >= 0 ==> var c := FirstCluster(DirSlots(g, d, dir)[k]); c != 0 ==> 2 <= c < g.Limit()
  {
    if k == -1 then NOTFOUND
    else
      var e := DirSlots(g, d, dir)[k];
      if !IsFolder(e) then NOTDIR
      else if FirstCluster(e) == 0 then 0
      else
        ClusterPlace(g, d, FirstCluster(e));
        if Empty(d[g.ClusterSector(FirstCluster(e))]) then 0 else NOTEMPTY
  }

  lemma OwnerFits(g: Geo, d: Disk, chains: set<seq<nat>>, dir: seq<nat>, k: int, name83: seq<nat>)
    requires Mounted(g, d, chains, dir) && First(DirSlots(g, d, dir), Used(name83), k)
    ensures k >= 0 ==> var c := FirstCluster(DirSlots(g, d, dir)[k]); c != 0 ==> 2 <= c < g.Limit()
  {
    if k >= 0 && FirstCluster(DirSlots(g, d, dir)[k]) != 0 {
      var s := OwnerOf(g, d, chains, dir, k);
      assert Link(Fat(g, d), s, 0);
    }
  }

  method Rmdir(v: Volume, name: seq<nat>, ghost dir: seq<nat>, ghost chains: set<seq<nat>>)
    returns (r: int, ghost k: int, ghost s: seq<nat>)
    requires Mounted(v.g, v.disk, chains, dir) && dir[0] == v.cwd && IsName(name)
    modifies v`disk
    ensures v.Valid() && First(old(DirSlots(v.g, v.disk, dir)), Used(Name83(name)), k)
    ensures k >= 0 ==> var c := FirstCluster(old(DirSlots(v.g, v.disk, dir))[k]); c != 0 ==> 2 <= c < v.g.Limit()
    ensures r == RmdirAnswer(v.g, old(v.disk), dir, k)
    ensures (k == -1 ==> r == NOTFOUND) && (k >= 0 && !IsFolder(old(DirSlots(v.g, v.disk, dir))[k]) ==> r == NOTDIR)
    ensures r != 0 ==> v.disk == old(v.disk)
    ensures r == 0 ==> Removed(v.g, old(v.disk), v.disk, dir, k, s)
    ensures r == 0 ==> var c := FirstCluster(old(DirSlots(v.g, v.disk, dir))[k]);
                       if c == 0 then s == [] else s in chains && s[0] == c
  {
    assert IsChain(v.Table(), dir);
    s := [];
    var name83 := NameTo83(name);
    hide IsChain, Fat, DiskOk, DirSlots, Removed, Name83, FirstCluster, Family, Empty, NewSlot;
    var sector, j;
    sector, j, k := ScanDir(v, v.cwd, Used(name83), dir);
    OwnerFits(v.g, v.disk, chains, dir, k, name83);
    if sector == -1 { return NOTFOUND, k, s; }
    var e := LoadSlot(v, sector, j, dir, k);
    if !IsFolder(e) { return NOTDIR, k, s; }
    var cl := FirstCluster(e);
    if cl != 0 {
      ClusterPlace(v.g, v.disk, cl);
      var empty := CheckEmpty(v.disk[v.g.ClusterSector(cl)]);
      if !empty { return NOTEMPTY, k, s; }
      s := OwnerOf(v.g, v.disk, chains, dir, k);
    }
    RemoveSlot(v, sector, j, e, cl, dir, k, s);
    r := 0;
  }

  method RemoveSlot(v: Volume, n: nat, j: nat, e: Slot, cl: nat, ghost dir: seq<nat>, ghost k: nat, ghost s: seq<nat>)
    requires v.Valid() && Clusters(v.g, dir) && Distinct(dir) && Located(v.g, dir, k, n, j)
    requires k < |DirSlots(v.g, v.disk, dir)| && e == DirSlots(v.g, v.disk, dir)[k] && SlotOk(e)
    requires if cl == 0 then s == [] else IsChain(v.Table(), s) && s[0] == cl
    modifies v`disk
    ensures v.Valid() && Removed(v.g, old(v.disk), v.disk, dir, k, s)
  {
    FreedNone(v.g, v.disk, s);
    PatchOk(e, 0, [DELETED]);
    assert s[..|s|] == s;
    hide IsChain, Fat, DiskOk, DirSlots, Removed, Freed, Erased;
    if cl != 0 { FreeChain(v, cl, s); }
    ghost var d1 := v.disk;
    PutSlot(v, n, j, Erased(e), dir, k);
    RemovedSteps(v.g, old(v.disk), d1, v.disk, dir, k, s);
  }

  lemma {:induction false} RemovedSteps(g: Geo, d: Disk, d1: Disk, d2: Disk, dir: seq<nat>, k: nat, s: seq<nat>)
    requires Freed(g, d, d1, s, |s|) && DiskOk(g, d2) && Clusters(g, dir) && Fat(g, d2) == Fat(g, d1)
    requires DataKept(g, d1, d2, dir)
    requires forall m :: 0 <= m < g.firstData && m < |d2| ==> m < |d1| && d2[m] == d1[m]
    requires k < |DirSlots(g, d, dir)| && |DirSlots(g, d1, dir)| == |DirSlots(g, d, dir)|
    requires DirSlots(g, d2, dir) == DirSlots(g, d1, dir)[k := Erased(DirSlots(g, d, dir)[k])]
    ensures Removed(g, d, d2, dir, k, s)
  {
    assert s[..|s|] == s;
    WordFrame(g, d1, d2);
    SameFromData(g, d, d1, dir);
    SlotsFrame(g, d, d1, dir);
    hide Fat, DiskOk, DirSlots, Word, Merge28, SectorList, Times, Erased, Zeroed;
  }

  // ---- mkdir, then rmdir -----------------------------------------------------------------------------------------

  lemma MergeBack(w: nat)
    requires w % 0x1000_0000 == 0
    ensures Merge28(Merge28(w, LAST), 0) == w
  {
  }

  lemma WordsRestored(g: Geo, d: Disk, d1: Disk, d2: Disk, c: nat)
    requires DiskOk(g, d) && DiskOk(g, d1) && DiskOk(g, d2) && c < g.Limit() && Fat(g, d)[c] == 0
    requires WordsSet(g, d, d1, [c], LAST) && WordsSet(g, d1, d2, [c], 0)
    ensures forall e: nat :: e < g.Limit() ==> Word(g, d2, e) == Word(g, d, e)
  {
    hide Word, Merge28, DiskOk;
    MergeBack(Word(g, d, c));
  }

  lemma UsedFound(slots: seq<Slot>, name83: seq<nat>, k: nat, e: Slot, m: int)
    requires IsDir(slots) && k < |slots| && Unnamed(slots, name83, k) && |e| == 32 && |name83| == 11
    requires e[..11] == name83 && e[11] == FOLDER && e[0] == name83[0] && name83[0] != 0 && name83[0] != DELETED
    requires First(slots[k := e], Used(name83), m)
    ensures m == k
  {
    var t := slots[k := e];
    assert t[k] == e && Passes(Used(name83), t[k]);
  }

  /** The new folder is found where it was made, and is empty. */
  lemma {:induction false} MadeRemovable(g: Geo, d: Disk, d': Disk, chains: set<seq<nat>>, dir: seq<nat>,
                                         name: seq<nat>, k: nat, c: nat, m: int)
    requires Mounted(g, d, chains, dir) && Made(g, d, d', dir, Name83(name), k, c) && IsName(name)
    requires Unnamed(DirSlots(g, d, dir), Name83(name), k) && Name83(name)[0] != DELETED
    requires First(DirSlots(g, d', dir), Used(Name83(name)), m)
    ensures m == k && FirstCluster(DirSlots(g, d', dir)[k]) == c && RmdirAnswer(g, d', dir, k) == 0
  {
    Name83Bytes(name);
    MadeSlot(g, d, d', dir, Name83(name), k, c);
    EmptyFolder(c, dir[0]);
    hide IsChain, Fat, DiskOk, DirSlots, Name83, NewSlot, WithCluster, FirstCluster, First, FolderSector, WordsSet,
         Empty, SectorList, Family, Rooted, Bytes;
    UsedFound(DirSlots(g, d, dir), Name83(name), k, DirSlots(g, d', dir)[k], m);
  }

  lemma EmptyFolder(self: nat, parent: nat)
    ensures self < 0x1_0000_0000 && parent < 0x1_0000_0000 ==> Empty(FolderSector(self, parent))
  {
    if self < 0x1_0000_0000 && parent < 0x1_0000_0000 {
      FolderSectorFacts(self, parent);
      hide FolderSector, SlotIn;
    }
  }

  lemma {:induction false} MadeSlot(g: Geo, d: Disk, d': Disk, dir: seq<nat>, name83: seq<nat>, k: nat, c: nat)
    requires Made(g, d, d', dir, name83, k, c) && IsChain(Fat(g, d), dir) && Bytes(name83)
    ensures dir[0] < 0x1_0000_0000 && c < 0x1_0000_0000
    ensures var e := DirSlots(g, d', dir)[k];
            && e[..11] == name83 && e[11] == FOLDER && e[0] == name83[0] && FirstCluster(e) == c && IsFolder(e)
            && FileSize(e) == 0
  {
    HeadLimits(g, d, dir, c);
    SlotBytes(g, d, dir, k);
    hide IsChain, Fat, DiskOk, DirSlots, NewSlot, WithCluster, FirstCluster, First, FolderSector, WordsSet, SectorList,
         IsFolder, SlotOk, Bytes, FileSize;
    NewSlotFacts(DirSlots(g, d, dir)[k], name83, FOLDER, c);
    FolderBit(DirSlots(g, d', dir)[k]);
  }

  lemma FolderBit(e: Slot)
    requires |e| == 32 && e[11] == FOLDER
    ensures IsFolder(e)
  {
  }

  /** Making a directory and removing it again gives back every word of the table, all 32 bits, and
      changes no directory slot but the first vacant one, which is vacant again. */
  method MkdirThenRmdir(v: Volume, name: seq<nat>, junk: seq<nat>, ghost dir: seq<nat>, ghost chains: set<seq<nat>>)
    returns (r: int, r2: int, ghost k: int)
    requires Mounted(v.g, v.disk, chains, dir) && dir[0] == v.cwd && IsName(name) && |junk| == LFN_BUFFER
    modifies v`disk
    ensures v.Valid() && (r == 0 ==> r2 == 0)
    ensures r == 0 ==> forall e: nat :: e < v.g.Limit() ==> Word(v.g, v.disk, e) == Word(v.g, old(v.disk), e)
    ensures r == 0 ==> var slots, slots' := old(DirSlots(v.g, v.disk, dir)), DirSlots(v.g, v.disk, dir);
              && 0 <= k < |slots| == |slots'| && slots' == slots[k := slots'[k]]
              && Passes(Vacant, slots[k]) && Passes(Vacant, slots'[k])
  {
    ghost var c: nat;
    ghost var d := v.disk;
    ghost var s;
    ghost var m;
    r, k, c := Mkdir(v, name, junk, dir, chains);
    r2 := 0;
    if r == 0 {
      ghost var d1 := v.disk;
      Name83Bytes(name);
      hide Mounted, IsChain, Fat, DiskOk, DirSlots, Made, Removed, Name83, FirstCluster, Family, RmdirAnswer, First;
      MadeMounted(v.g, d, d1, chains, dir, Name83(name), k, c);
      r2, m, s := Rmdir(v, name, dir, chains + {[c]});
      MadeRemovable(v.g, d, d1, chains, dir, name, k, c, m);
      Restored(v.g, d, d1, v.disk, chains, dir, Name83(name), k, c, s);
    }
  }

  lemma {:induction false} Restored(g: Geo, d: Disk, d1: Disk, d2: Disk, chains: set<seq<nat>>, dir: seq<nat>,
                                    name83: seq<nat>, k: nat, c: nat, s: seq<nat>)
    requires Made(g, d, d1, dir, name83, k, c) && Removed(g, d1, d2, dir, k, s)
    requires Mounted(g, d1, chains + {[c]}, dir) && s in chains + {[c]} && s[0] == c
    ensures forall e: nat :: e < g.Limit() ==> Word(g, d2, e) == Word(g, d, e)
    ensures var slots, slots' := DirSlots(g, d, dir), DirSlots(g, d2, dir);
            && k < |slots| == |slots'| && slots' == slots[k := slots'[k]]
            && Passes(Vacant, slots[k]) && Passes(Vacant, slots'[k])
  {
    hide IsChain, Fat, DiskOk, DirSlots, NewSlot, WithCluster, FolderSector, Zeroed, WordsSet, SectorList, Word;
    assert [c] in chains + {[c]};
    FamilyMember(Fat(g, d1), chains + {[c]}, s, [c]);
    WordsRestored(g, d, d1, d2, c);
  }
}
