/** `fat32_mkdir` and `fat32_rmdir`, and what one undoes of the other. */
module FatFolders {
  import opened Sequences
  import opened FatDisk
  import opened FatChains
  import opened FatSectors
  import opened FatVolume
  import opened FatDir
  import opened FatScan
  import opened FatFiles
  import opened FatReadWrite

  const NOTFOUND: int := -1
  const EXISTS: int := -2
  const NOSPACE: int := -4
  const NOTDIR: int := -5
  const NOTEMPTY: int := -6
  const FOLDER: nat := 0x10

  /** The 32-bit words of the clusters in `s` had their low 28 bits set to `value`; the others are as before. */
  ghost predicate WordsSet(g: Geo, d: Disk, d': Disk, s: seq<nat>, value: nat)
    requires DiskOk(g, d) && DiskOk(g, d')
  {
    forall e: nat :: e < g.Limit() ==> Word(g, d', e) == if e in s then Merge28(Word(g, d, e), value) else Word(g, d, e)
  }

  lemma WordFrame(g: Geo, d: Disk, d': Disk)
    requires DiskOk(g, d) && DiskOk(g, d')
    requires forall n :: 0 <= n < g.firstData && n < |d| && n < |d'| ==> d'[n] == d[n]
    ensures WordsSet(g, d, d', [], 0)
  {
    forall c: nat | c < g.Limit() ensures Word(g, d', c) == Word(g, d, c) { FatPlace(g, c); }
  }

  lemma {:induction false} WordsTrans(g: Geo, d: Disk, d1: Disk, d2: Disk, s: seq<nat>, c: nat, value: nat)
    requires DiskOk(g, d) && DiskOk(g, d1) && DiskOk(g, d2) && c !in s
    requires WordsSet(g, d, d1, s, value) && WordsSet(g, d1, d2, [c], value)
    ensures WordsSet(g, d, d2, s + [c], value)
  {
    hide Word, Merge28, DiskOk;
  }

  // ---- freeing a chain ---------------------------------------------------------------------------------------

  /** From `d` to `d'` the first `i` clusters of the chain were freed and nothing else changed. */
  ghost predicate Freed(g: Geo, d: Disk, d': Disk, s: seq<nat>, i: nat) {
    && DiskOk(g, d) && DiskOk(g, d') && |d'| == |d| && i <= |s|
    && Fat(g, d') == Zeroed(Fat(g, d), s[..i]) && WordsSet(g, d, d', s[..i], 0)
    && forall n :: g.firstData <= n < |d| ==> d'[n] == d[n]
  }

  lemma FreedNone(g: Geo, d: Disk, s: seq<nat>)
    requires DiskOk(g, d)
    ensures Freed(g, d, d, s, 0)
  {
    assert s[..0] == [];
    WordFrame(g, d, d);
    hide Word;
  }

  /** Zeroes every cluster of the chain and no other. */
  method FreeChain(v: Volume, start: nat, ghost s: seq<nat>)
    requires v.Valid() && IsChain(v.Table(), s) && s[0] == start
    modifies v`disk
    ensures v.Valid() && Freed(v.g, old(v.disk), v.disk, s, |s|)
  {
    var cl := start;
    ghost var i, d := 0, v.disk;
    FreedNone(v.g, d, s);
    ghost var f := Fat(v.g, d);
    ChainNext(f, s, 0);
    ChainClusters(f, s);
    assert |f| < EOC;
    hide IsChain, Fat, DiskOk, Freed;
    while cl >= 2 && cl < EOC
      invariant v.Valid() && i <= |s| && Freed(v.g, d, v.disk, s, i)
      invariant if i < |s| then cl == s[i] else cl >= EOC
      decreases |s| - i
    {
      cl := FreeOne(v, cl, s, i, d);
      ChainNext(f, s, i);
      i := i + 1;
    }
  }

  lemma ChainClusters(f: seq<nat>, s: seq<nat>)
    requires IsChain(f, s) && |f| < EOC
    ensures forall i :: 0 <= i < |s| ==> 2 <= s[i] < EOC
  {
    forall i: nat | i < |s| ensures 2 <= s[i] < EOC { assert Link(f, s, i); }
  }

  method FreeOne(v: Volume, cl: nat, ghost s: seq<nat>, ghost i: nat, ghost d: Disk) returns (next: nat)
    requires v.Valid() && Freed(v.g, d, v.disk, s, i) && IsChain(Fat(v.g, d), s) && i < |s| && cl == s[i]
    modifies v`disk
    ensures v.Valid() && Freed(v.g, d, v.disk, s, i + 1) && cl < |Fat(v.g, d)| && next == Fat(v.g, d)[cl]
  {
    assert Link(Fat(v.g, d), s, i) && s[i] !in s[..i];
    assert s[..i + 1] == s[..i] + [cl];
    EntryWritten(v.g, v.disk, cl, 0);
    hide IsChain, Fat, DiskOk, Times, Word, Merge28;
    next := v.FatReadEntry(cl);
    v.FatWriteEntry(cl, 0);
    assert WordsSet(v.g, old(v.disk), v.disk, [cl], 0);
    WordsTrans(v.g, d, old(v.disk), v.disk, s[..i], cl, 0);
  }

  // ---- slots ---------------------------------------------------------------------------------------------------

  /** A fresh slot of that name, with no cluster and no bytes. */
  function NewSlot(e: Slot, name83: seq<nat>, attr: nat): (r: Slot)
    requires |e| == 32 && |name83| == 11
    ensures |r| == 32
  {
    WithCluster(WithSize(Patch(e, 0, name83 + [attr]), 0), 0)
  }

  lemma PatchOk(e: Slot, o: nat, b: seq<nat>)
    requires SlotOk(e) && o + |b| <= 32 && Bytes(b)
    ensures SlotOk(Patch(e, o, b))
  {
  }

  lemma ClusterOk(e: Slot, c: nat)
    requires SlotOk(e) && c < 0x1_0000_0000
    ensures SlotOk(WithCluster(e, c))
  {
    PatchOk(e, 26, Le16(c % 0x1_0000));
    PatchOk(Patch(e, 26, Le16(c % 0x1_0000)), 20, Le16(c / 0x1_0000));
  }

  lemma NewSlotFacts(e: Slot, name83: seq<nat>, attr: nat, c: nat)
    requires SlotOk(e) && |name83| == 11 && Bytes(name83) && attr < 0x100 && c < 0x1_0000_0000
    ensures var r := NewSlot(e, name83, attr);
            SlotOk(r) && r[..11] == name83 && r[11] == attr && r[0] == name83[0] && FirstCluster(r) == 0 == FileSize(r)
    ensures var r := WithCluster(NewSlot(e, name83, attr), c);
            && SlotOk(r) && r[..11] == name83 && r[11] == attr && r[0] == name83[0]
            && FirstCluster(r) == c && FileSize(r) == 0
  {
    var p := Patch(e, 0, name83 + [attr]);
    PatchOk(e, 0, name83 + [attr]);
    PatchOk(p, 28, Bytes32(0));
    assert p[..12] == name83 + [attr];
    var q := WithSize(p, 0);
    assert SlotOk(q);
    hide SlotOk, WithSize, WithCluster, Patch, FirstCluster, FileSize, Bytes;
    SizeRoundTrip(p, 0);
    ClusterOk(q, 0);
    ClusterRoundTrip(q, 0);
    var r := NewSlot(e, name83, attr);
    ClusterOk(r, c);
    ClusterRoundTrip(r, c);
    TwelveBytes(r, name83, attr);
    TwelveBytes(WithCluster(r, c), name83, attr);
  }

  lemma TwelveBytes(r: Slot, name83: seq<nat>, attr: nat)
    requires |r| == 32 && |name83| == 11 && r[..12] == name83 + [attr]
    ensures r[..11] == name83 && r[11] == attr && r[0] == name83[0]
  {
    assert r[..11] == r[..12][..11];
    assert r[11] == r[..12][11] && r[0] == r[..12][0];
  }

  lemma Name83Bytes(s: seq<nat>)
    requires IsName(s)
    ensures Bytes(Name83(s)) && Name83(s)[0] != 0
  {
    Name83Start(s);
  }

  /** `create_entry_at`: takes the first vacant slot. */
  method CreateEntry(v: Volume, name: seq<nat>, attr: nat, ghost dir: seq<nat>) returns (r: int, ghost k: int)
    requires v.Valid() && IsChain(v.Table(), dir) && Clusters(v.g, dir) && dir[0] == v.cwd && IsName(name)
    requires attr < 0x100
    modifies v`disk
    ensures v.Valid() && First(old(DirSlots(v.g, v.disk, dir)), Vacant, k) && v.Table() == old(v.Table())
    ensures r == if k >= 0 then 0 else NOSPACE
    ensures k == -1 ==> v.disk == old(v.disk)
    ensures k >= 0 ==> var slots := old(DirSlots(v.g, v.disk, dir));
                       DirSlots(v.g, v.disk, dir) == slots[k := NewSlot(slots[k], Name83(name), attr)]
    ensures DataKept(v.g, old(v.disk), v.disk, dir)
    ensures forall m :: 0 <= m < v.g.firstData && m < |v.disk| ==> v.disk[m] == old(v.disk)[m]
  {
    var name83 := NameTo83(name);
    Name83Bytes(name);
    assert Distinct(dir);
    hide Fat, DiskOk, DirSlots, NewSlot, Name83, IsChain, First;
    var sector, j;
    sector, j, k := ScanDir(v, v.cwd, Vacant, dir);
    if sector == -1 { return NOSPACE, k; }
    var e := LoadSlot(v, sector, j, dir, k);
    NewSlotFacts(e, name83, attr, 0);
    PutSlot(v, sector, j, NewSlot(e, name83, attr), dir, k);
    r := 0;
  }

  // ---- mkdir ---------------------------------------------------------------------------------------------------

  /** The first sector of a new directory: itself, its parent, and unused slots. */
  function FolderSector(self: nat, parent: nat): (r: Sector)
    ensures |r| == 512
  {
    var blank: seq<nat> := seq(32, _ => 0);
    WithCluster(NewSlot(blank, Field([DOT], 11), FOLDER), self)
    + WithCluster(NewSlot(blank, Field([DOT, DOT], 11), FOLDER), parent)
    + seq(448, _ => 0)
  }

  lemma {:induction false} FolderSectorFacts(self: nat, parent: nat)
    requires self < 0x1_0000_0000 && parent < 0x1_0000_0000
    ensures SectorOk(FolderSector(self, parent))
    ensures forall i: nat :: 2 <= i < 16 ==> SlotIn(FolderSector(self, parent), i)[0] == 0
    ensures FirstCluster(SlotIn(FolderSector(self, parent), 0)) == self
    ensures FirstCluster(SlotIn(FolderSector(self, parent), 1)) == parent
  {
    var blank: seq<nat> := seq(32, _ => 0);
    var a := WithCluster(NewSlot(blank, Field([DOT], 11), FOLDER), self);
    var b := WithCluster(NewSlot(blank, Field([DOT, DOT], 11), FOLDER), parent);
    NewSlotFacts(blank, Field([DOT], 11), FOLDER, self);
    NewSlotFacts(blank, Field([DOT, DOT], 11), FOLDER, parent);
    hide NewSlot, WithCluster, Field, FirstCluster;
    var r := FolderSector(self, parent);
    assert SlotIn(r, 0) == a && SlotIn(r, 1) == b;
  }

  /** The folder's own two slots. */
  lemma {:induction false} DotSlots(self: nat, parent: nat)
    requires self < 0x1_0000_0000 && parent < 0x1_0000_0000
    ensures forall i :: 0 <= i < 2 ==>
              Live(SlotIn(FolderSector(self, parent), i)) && SlotIn(FolderSector(self, parent), i)[11] == FOLDER
    ensures SlotIn(FolderSector(self, parent), 0)[..11] == Field([DOT], 11)
    ensures SlotIn(FolderSector(self, parent), 1)[..11] == Field([DOT, DOT], 11)
  {
    var blank: seq<nat> := seq(32, _ => 0);
    hide NewSlot, WithCluster, Field, SlotIn, Live;
    DotSlot([DOT], self);
    DotSlot([DOT, DOT], parent);
    FirstTwo(WithCluster(NewSlot(blank, Field([DOT], 11), FOLDER), self),
             WithCluster(NewSlot(blank, Field([DOT, DOT], 11), FOLDER), parent), seq(448, _ => 0));
  }

  lemma {:induction false} DotSlot(name: seq<nat>, c: nat)
    requires IsName(name) && |name| > 0 && name[0] == DOT && c < 0x1_0000_0000
    ensures var a := WithCluster(NewSlot(seq(32, _ => 0), Field(name, 11), FOLDER), c);
            Live(a) && a[11] == FOLDER && a[..11] == Field(name, 11)
  {
    var n := Field(name, 11);
    assert Bytes(n) && n[0] == DOT;
    hide NewSlot, WithCluster, Field, FirstCluster;
    NewSlotFacts(seq(32, _ => 0), n, FOLDER, c);
  }

  lemma {:induction false} FirstTwo(a: Slot, b: Slot, rest: seq<nat>)
    requires |a| == |b| == 32 && |rest| == 448
    ensures SlotIn(a + b + rest, 0) == a && SlotIn(a + b + rest, 1) == b
  {
  }

  /** From `d` to `d'` an empty directory was made: slot `k`, the first vacant one, names it, and the free
      cluster `c` is its chain. Nothing else changed. */
  ghost predicate Made(g: Geo, d: Disk, d': Disk, dir: seq<nat>, name83: seq<nat>, k: nat, c: nat) {
    && DiskOk(g, d) && DiskOk(g, d') && |d'| == |d| && Clusters(g, dir) && 2 <= c < g.Limit() && |name83| == 11
    && Fat(g, d)[c] == 0 && Fat(g, d') == Fat(g, d)[c := LAST] && WordsSet(g, d, d', [c], LAST)
    && k < |DirSlots(g, d, dir)| && First(DirSlots(g, d, dir), Vacant, k)
    && DirSlots(g, d', dir) == DirSlots(g, d, dir)[k := WithCluster(NewSlot(DirSlots(g, d, dir)[k], name83, FOLDER), c)]
    && g.ClusterSector(c) < |d| && |dir| > 0 && d'[g.ClusterSector(c)] == FolderSector(c, dir[0])
    && forall n :: g.firstData <= n < |d| && n !in SectorList(g, dir) && n != g.ClusterSector(c) ==> d'[n] == d[n]
  }

  /** The slot of the new directory written, its cluster taken, its first sector filled. */
  lemma {:induction false} MadeSteps(g: Geo, d: Disk, d1: Disk, d2: Disk, d3: Disk, dir: seq<nat>, name83: seq<nat>,
                                     k: nat, c: nat)
    requires DiskOk(g, d) && DiskOk(g, d1) && DiskOk(g, d2) && DiskOk(g, d3) && |name83| == 11
    requires IsChain(Fat(g, d), dir) && Clusters(g, dir) && 2 <= c < g.Limit() && Fat(g, d)[c] == 0
    requires k < |DirSlots(g, d, dir)| && First(DirSlots(g, d, dir), Vacant, k)
    requires Fat(g, d1) == Fat(g, d) && DataKept(g, d, d1, dir)
    requires forall m :: 0 <= m < g.firstData && m < |d| && m < |d1| ==> d1[m] == d[m]
    requires DirSlots(g, d1, dir) ==
             DirSlots(g, d, dir)[k := WithCluster(NewSlot(DirSlots(g, d, dir)[k], name83, FOLDER), c)]
    requires d2 == WithEntry(g, d1, c, LAST)
    requires g.ClusterSector(c) < |d2| && d3 == d2[g.ClusterSector(c) := FolderSector(c, dir[0])]
    ensures Made(g, d, d3, dir, name83, k, c)
  {
    TableSteps(g, d, d1, d2, d3, c);
    SectorSteps(g, d, d1, d2, d3, dir, c);
    hide IsChain, Fat, DiskOk, WithEntry, WordsSet, FolderSector, NewSlot, WithCluster, DirSlots, First, SectorList;
  }

  lemma {:induction false} TableSteps(g: Geo, d: Disk, d1: Disk, d2: Disk, d3: Disk, c: nat)
    requires DiskOk(g, d) && DiskOk(g, d1) && DiskOk(g, d2) && DiskOk(g, d3) && 2 <= c < g.Limit()
    requires Fat(g, d1) == Fat(g, d)
    requires forall m :: 0 <= m < g.firstData && m < |d| && m < |d1| ==> d1[m] == d[m]
    requires d2 == WithEntry(g, d1, c, LAST) && |d3| == |d2|
    requires forall m :: 0 <= m < g.firstData && m < |d2| ==> d3[m] == d2[m]
    ensures Fat(g, d3) == Fat(g, d)[c := LAST] && WordsSet(g, d, d3, [c], LAST)
  {
    EntryWritten(g, d1, c, LAST);
    WordFrame(g, d, d1);
    FatFrame(g, d2, d3);
    WordFrame(g, d2, d3);
    hide Fat, DiskOk, WithEntry, Word, Merge28;
  }

  lemma {:induction false} SectorSteps(g: Geo, d: Disk, d1: Disk, d2: Disk, d3: Disk, dir: seq<nat>, c: nat)
    requires DiskOk(g, d) && DiskOk(g, d1) && DiskOk(g, d2) && DiskOk(g, d3)
    requires IsChain(Fat(g, d), dir) && Clusters(g, dir) && 2 <= c < g.Limit() && Fat(g, d)[c] == 0
    requires DataKept(g, d, d1, dir) && d2 == WithEntry(g, d1, c, LAST)
    requires g.ClusterSector(c) < |d2| && d3 == d2[g.ClusterSector(c) := FolderSector(c, dir[0])]
    ensures |d3| == |d| && DirSlots(g, d3, dir) == DirSlots(g, d1, dir)
    ensures forall m :: 0 <= m < g.firstData && m < |d2| ==> d3[m] == d2[m]
    ensures forall n :: g.firstData <= n < |d| && n !in SectorList(g, dir) && n != g.ClusterSector(c) ==> d3[n] == d[n]
  {
    EntryWritten(g, d1, c, LAST);
    FreeApart(Fat(g, d), dir, c);
    hide IsChain, Fat, DiskOk, WithEntry, Word, Merge28, FolderSector, DirSlots;
    FirstSector(g, d2, dir, c);
    SameFromData(g, d1, d2, dir);
    SlotsFrame(g, d1, d2, dir);
    assert SameData(g, d2, d3, dir);
    SlotsFrame(g, d2, d3, dir);
  }

  /** The first sector of a cluster outside the directory is none of the directory's. */
  lemma {:induction false} FirstSector(g: Geo, d: Disk, dir: seq<nat>, c: nat)
    requires DiskOk(g, d) && Clusters(g, dir) && 2 <= c < g.Limit() && c !in dir
    ensures g.firstData <= g.ClusterSector(c) < |d| && g.ClusterSector(c) !in SectorList(g, dir)
  {
    assert g.spc >= 1;
    hide DiskOk;
    var n := g.ClusterSector(c);
    SingleList(g, d, c);
    assert ClusterSectors(g, c)[0] == n && n in ClusterSectors(g, c);
    SectorListAppend(g, [], c);
    assert [] + [c] == [c];
    ListsApart(g, [c], dir);
  }
}
