/** What `fat32_rmdir` leaves behind: when the volume is still well formed, and when what it removed was an
    empty directory. */
module FatRmdir {
  import opened FatDisk
  import opened FatChains
  import opened FatSectors
  import opened FatVolume
  import opened FatDir
  import opened FatScan
  import opened FatFiles
  import opened FatReadWrite
  import opened FatFolders
  import opened FatMkdir

  // ---- the volume afterwards -------------------------------------------------------------------------------

  /** No live slot but `k` starts the chain `s`. */
  ghost predicate Sole(slots: seq<Slot>, k: nat, s: seq<nat>)
    requires IsDir(slots)
  {
    s != [] ==> forall j :: 0 <= j < |slots| && j != k && Live(slots[j]) ==> FirstCluster(slots[j]) != s[0]
  }

  lemma {:induction false} FamilyFreed(f: seq<nat>, chains: set<seq<nat>>, s: seq<nat>)
    requires Family(f, chains) && (s == [] || s in chains)
    ensures Family(Zeroed(f, s), chains - {s})
  {
    forall u | u in chains - {s} ensures IsChain(Zeroed(f, s), u) {
      if s != [] { FamilyMember(f, chains, s, u); }
      ChainFrame(f, Zeroed(f, s), u);
    }
  }

  /** After a removal the volume is mounted without the freed chain if and only if that was not the directory
      itself and no other slot of the directory starts it. */
  lemma {:induction false} RemovedMounted(g: Geo, d: Disk, d': Disk, chains: set<seq<nat>>, dir: seq<nat>, k: nat,
                                          s: seq<nat>)
    requires Mounted(g, d, chains, dir) && Removed(g, d, d', dir, k, s) && Live(DirSlots(g, d, dir)[k])
    requires if FirstCluster(DirSlots(g, d, dir)[k]) == 0 then s == []
             else s in chains && |s| > 0 && s[0] == FirstCluster(DirSlots(g, d, dir)[k])
    ensures Mounted(g, d', chains - {s}, dir) <==> s != dir && Sole(DirSlots(g, d, dir), k, s)
  {
    var a, b, f := DirSlots(g, d, dir), DirSlots(g, d', dir), Fat(g, d);
    FamilyFreed(f, chains, s);
    NoEmptyChain(f, chains);
    SlotMarked(a[k]);
    hide DirSlots, DiskOk, Fat, IsChain, FirstCluster, WordsSet, DataKept, Erased, Zeroed;
    if s != dir && Sole(a, k, s) {
      forall j | 0 <= j < |b| && b[j][0] != 0 && b[j][0] != DELETED && b[j][11] != LONG
        ensures FirstCluster(b[j]) == 0 || Owned(chains - {s}, FirstCluster(b[j]))
      {
        if FirstCluster(a[j]) != 0 {
          var u :| u in chains && |u| > 0 && u[0] == FirstCluster(a[j]);
          assert u in chains - {s};
        }
      }
    }
    if Mounted(g, d', chains - {s}, dir) && s != [] {
      forall j | 0 <= j < |a| && j != k && Live(a[j]) ensures FirstCluster(a[j]) != s[0] {
        if FirstCluster(a[j]) == s[0] { OwnedOnce(f, chains, s, b, j); }
      }
    }
  }

  lemma {:induction false} OwnedOnce(f: seq<nat>, chains: set<seq<nat>>, s: seq<nat>, slots: seq<Slot>, j: nat)
    requires Family(f, chains) && s in chains && |s| > 0 && IsDir(slots) && j < |slots| && Live(slots[j])
    requires Rooted(slots, chains - {s}) && FirstCluster(slots[j]) == s[0]
    ensures s[0] == 0
  {
    if s[0] != 0 {
      var u :| u in chains - {s} && |u| > 0 && u[0] == FirstCluster(slots[j]);
      FamilyMember(f, chains, s, u);
    }
  }

  lemma {:induction false} SlotMarked(e: Slot)
    requires |e| == 32
    ensures Erased(e)[0] == DELETED
  {
  }

  // ---- was it empty? -----------------------------------------------------------------------------------------

  /** Slot `i` is in use and no end mark hides it from the lookup. */
  ghost predicate Entry(slots: seq<Slot>, i: int)
    requires IsDir(slots)
  {
    0 <= i < |slots| && !Passes(Vacant, slots[i]) && forall j :: 0 <= j < i ==> slots[j][0] != 0
  }

  /** The folder holds something besides its own two slots. */
  ghost predicate HoldsEntry(slots: seq<Slot>)
    requires IsDir(slots)
  {
    exists i :: 2 <= i && Entry(slots, i)
  }

  /** A lookup that gets past the first two slots needs an entry there; an entry's short name is found, at its
      slot or before. */
  lemma {:induction false} EntryMeansFound(slots: seq<Slot>, junk: seq<nat>, name: seq<nat>, i: int)
    requires IsDir(slots) && |junk| == LFN_BUFFER
    ensures Lookup(slots, junk, name) >= 2 ==> HoldsEntry(slots)
    ensures Entry(slots, i) && Live(slots[i]) && slots[i][..11] == Name83(name) ==> 0 <= Lookup(slots, junk, name) <= i
  {
    hide Search, Name83;
    var a := Acc(junk, 0, 0);
    if Search(slots, 0, a, name) >= 2 {
      SearchEntry(slots, 0, a, name);
      assert Entry(slots, Search(slots, 0, a, name));
    }
    if Entry(slots, i) && Live(slots[i]) && slots[i][..11] == Name83(name) { EntryFound(slots, 0, a, name, i); }
  }

  lemma {:induction false} SearchEntry(slots: seq<Slot>, k: nat, a: Acc, name: seq<nat>)
    requires IsDir(slots) && k <= |slots| && |a.text| == LFN_BUFFER && Search(slots, k, a, name) >= 0
    requires forall j :: 0 <= j < k ==> slots[j][0] != 0
    ensures Entry(slots, Search(slots, k, a, name))
    decreases |slots| - k
  {
    hide Search, Hit, Passed, Name83, LongStep;
    SearchBegins(slots, k, a, name);
    SearchStep(slots, k, a, name);
    if !(Live(slots[k]) && Hit(a, slots[k], name)) { SearchEntry(slots, k + 1, Passed(a, slots[k]), name); }
  }

  lemma {:induction false} EntryFound(slots: seq<Slot>, k: nat, a: Acc, name: seq<nat>, i: nat)
    requires IsDir(slots) && k <= i && |a.text| == LFN_BUFFER
    requires Entry(slots, i) && Live(slots[i]) && slots[i][..11] == Name83(name)
    ensures k <= Search(slots, k, a, name) <= i
    decreases i - k
  {
    SearchStep(slots, k, a, name);
    hide Search, SameName, Name83, Passed;
    if k < i && !(Live(slots[k]) && Hit(a, slots[k], name)) {
      EntryFound(slots, k + 1, Passed(a, slots[k]), name, i);
    }
  }

  /** What the test looks at: slots 2 to 15. */
  ghost predicate Clear(slots: seq<Slot>)
    requires IsDir(slots)
  {
    |slots| >= 16 && forall i :: 2 <= i < 16 ==> Passes(Vacant, slots[i])
  }

  lemma {:induction false} FirstSectorSlots(g: Geo, d: Disk, s: seq<nat>)
    requires DiskOk(g, d) && Clusters(g, s) && |s| > 0
    ensures g.ClusterSector(s[0]) < |d| && |DirSlots(g, d, s)| >= 16
    ensures Empty(d[g.ClusterSector(s[0])]) <==> Clear(DirSlots(g, d, s))
  {
    var n, slots := g.ClusterSector(s[0]), DirSlots(g, d, s);
    SectorListAt(g, s, 0, 0);
    TimesStep(0, g.spc);
    DirPage(g, d, s, 0);
    hide DirSlots, SectorList, Times, SlotIn;
    forall i | 0 <= i < 16 ensures slots[i] == SlotIn(d[n], i) { PageAt(slots, 0, d[n], i); }
  }

  /** The first sector holds the folder's own two slots and fourteen deleted ones; an entry follows. */
  ghost predicate LateEntry(slots: seq<Slot>)
    requires IsDir(slots)
  {
    && |slots| >= 16 && slots[0][0] != 0 && slots[1][0] != 0
    && (forall j :: 2 <= j < 16 ==> slots[j][0] == DELETED)
    && exists i :: 16 <= i && Entry(slots, i)
  }

  lemma {:induction false} LateIff(slots: seq<Slot>)
    requires IsDir(slots) && |slots| >= 16
    ensures Clear(slots) && HoldsEntry(slots) <==> LateEntry(slots)
  {
    if Clear(slots) && HoldsEntry(slots) {
      var i :| 2 <= i && Entry(slots, i);
      assert 16 <= i;
      forall j | 2 <= j < 16 ensures slots[j][0] == DELETED { assert Passes(Vacant, slots[j]); }
    }
  }

  /** In the first sector an end mark at `z`, nothing in use before it and a slot in use behind it. */
  ghost predicate StaleSlot(slots: seq<Slot>, z: nat, i: nat)
    requires IsDir(slots)
  {
    && z < i < 16 <= |slots| && 2 <= i && slots[z][0] == 0 && !Passes(Vacant, slots[i])
    && forall j :: 2 <= j < z ==> Passes(Vacant, slots[j])
  }

  lemma {:induction false} StaleIff(slots: seq<Slot>)
    requires IsDir(slots) && |slots| >= 16
    ensures !Clear(slots) && !HoldsEntry(slots) <==> exists z, i :: StaleSlot(slots, z, i)
  {
    if !Clear(slots) && !HoldsEntry(slots) {
      var i := FirstUsed(slots, 2);
      assert !Entry(slots, i);
      var z: nat :| z < i && slots[z][0] == 0;
      assert StaleSlot(slots, z, i);
    }
    if z, i :| StaleSlot(slots, z, i) {
      forall n | 2 <= n ensures !Entry(slots, n) { }
    }
  }

  /** The first slot in use from `k` on. */
  lemma {:induction false} FirstUsed(slots: seq<Slot>, k: nat) returns (i: nat)
    requires IsDir(slots) && |slots| >= 16 && 2 <= k <= 16
    requires !Clear(slots) && forall j :: 2 <= j < k ==> Passes(Vacant, slots[j])
    ensures 2 <= i < 16 && !Passes(Vacant, slots[i]) && forall j :: 2 <= j < i ==> Passes(Vacant, slots[j])
    decreases 16 - k
  {
    if Passes(Vacant, slots[k]) { i := FirstUsed(slots, k + 1); } else { i := k; }
  }

  /** Slot `k` of the directory names a folder whose chain is `s`. */
  ghost predicate NamesFolder(g: Geo, d: Disk, chains: set<seq<nat>>, dir: seq<nat>, k: nat, s: seq<nat>)
  {
    && Mounted(g, d, chains, dir) && k < |DirSlots(g, d, dir)| && Clusters(g, s) && s in chains && |s| > 0
    && var e := DirSlots(g, d, dir)[k];
    Live(e) && IsFolder(e) && 2 <= FirstCluster(e) < g.Limit() && s[0] == FirstCluster(e)
  }

  /** `fat32_rmdir` removes a folder that holds something if and only if fourteen deleted slots fill up its first
      sector and an entry comes later. */
  lemma {:induction false} RemovesHoldingIff(g: Geo, d: Disk, chains: set<seq<nat>>, dir: seq<nat>, k: nat,
                                             s: seq<nat>)
    requires NamesFolder(g, d, chains, dir, k, s)
    ensures RmdirAnswer(g, d, dir, k) == 0 && HoldsEntry(DirSlots(g, d, s)) <==> LateEntry(DirSlots(g, d, s))
  {
    FirstSectorSlots(g, d, s);
    LateIff(DirSlots(g, d, s));
    hide DirSlots, Family, Rooted, FirstCluster, IsFolder, Empty, HoldsEntry, LateEntry, Clear;
  }

  /** It refuses a folder that holds nothing if and only if a slot in use lies behind the end mark in its first
      sector. */
  lemma {:induction false} RefusesEmptyIff(g: Geo, d: Disk, chains: set<seq<nat>>, dir: seq<nat>, k: nat, s: seq<nat>)
    requires NamesFolder(g, d, chains, dir, k, s)
    ensures RmdirAnswer(g, d, dir, k) == NOTEMPTY && !HoldsEntry(DirSlots(g, d, s))
            <==> exists z, i :: StaleSlot(DirSlots(g, d, s), z, i)
  {
    FirstSectorSlots(g, d, s);
    StaleIff(DirSlots(g, d, s));
    hide DirSlots, Family, Rooted, FirstCluster, IsFolder, Empty, HoldsEntry, StaleSlot, Clear;
  }
}
