/** Making a directory and going there: the new folder is entered by its name, `..` leads back and `.` stays. */
module FatMkdirWalk {
  import opened Options
  import opened FatDisk
  import opened FatChains
  import opened FatSectors
  import opened FatVolume
  import opened FatDir
  import opened FatScan
  import opened FatFiles
  import opened FatReadWrite
  import opened FatFolders
  import opened FatMkdir
  import opened FatNewFolder
  import opened FatWalk

  /** The tree with the new directory `c`. */
  ghost function Extended(t: Tree, d': Disk, c: nat): Tree {
    t.(d := d', chains := t.chains + {[c]}, dirs := t.dirs[c := [c]])
  }

  /** What the later sectors of cluster `c` held names only chains of the volume and folders of the tree. */
  ghost predicate StaleOk(t: Tree, c: nat)
    requires DiskOk(t.g, t.d) && Clusters(t.g, [c])
  {
    var slots := DirSlots(t.g, t.d, [c]);
    && StaleRooted(slots, t.chains + {[c]})
    && forall i :: 16 <= i < |slots| ==> FolderIn(Extended(t, t.d, c), slots[i])
  }

  /** A directory was made in directory `at` of the tree. */
  ghost predicate MadeIn(t: Tree, d': Disk, at: nat, name: seq<nat>, k: nat, c: nat) {
    && TreeOk(t) && at in t.dirs && IsName(name) && Name83(name)[0] != DELETED
    && Made(t.g, t.d, d', t.dirs[at], Name83(name), k, c) && Clusters(t.g, [c])
  }

  // ---- the tree afterwards -----------------------------------------------------------------------------------

  /** The new cluster belonged to no chain. */
  lemma {:induction false} NewIsNew(t: Tree, d': Disk, at: nat, name: seq<nat>, k: nat, c: nat, c2: nat)
    requires MadeIn(t, d', at, name, k, c) && c2 in t.dirs
    ensures c !in t.dirs[c2] && c2 != c && IsChain(Fat(t.g, t.d), t.dirs[c2])
  {
    DirFacts(t, c2);
    hide TreeOk, DirSlots, Fat, IsChain, Mounted, DiskOk, First, WordsSet, NewSlot, WithCluster, FolderSector, Name83;
    FreeApart(Fat(t.g, t.d), t.dirs[c2], c);
  }

  /** Another directory's sectors are as before. */
  lemma {:induction false} OtherKept(t: Tree, d': Disk, at: nat, name: seq<nat>, k: nat, c: nat, c2: nat)
    requires MadeIn(t, d', at, name, k, c) && c2 in t.dirs && c2 != at
    ensures DiskOk(t.g, d') && Clusters(t.g, t.dirs[c2])
    ensures DirSlots(t.g, d', t.dirs[c2]) == SlotsAt(t, c2)
  {
    NewIsNew(t, d', at, name, k, c, c2);
    DirFacts(t, c2);
    DirFacts(t, at);
    var u, dir := t.dirs[c2], t.dirs[at];
    hide TreeOk, DirSlots, Fat, IsChain, DiskOk, First, WordsSet, NewSlot, WithCluster, FolderSector, Name83, Rooted,
         SectorList, Family;
    FamilyMember(Fat(t.g, t.d), t.chains, u, dir);
    ListsApart(t.g, u, dir);
    FirstSector(t.g, t.d, u, c);
    forall n | n in SectorList(t.g, u) && n < |t.d| ensures d'[n] == t.d[n] { SectorListRange(t.g, u, n); }
    SlotsFrame(t.g, t.d, d', u);
  }

  lemma {:induction false} RootedMore(slots: seq<Slot>, chains: set<seq<nat>>, more: set<seq<nat>>)
    requires IsDir(slots) && Rooted(slots, chains)
    ensures Rooted(slots, chains + more)
  {
    forall k | 0 <= k < |slots| && Live(slots[k]) && FirstCluster(slots[k]) != 0
      ensures Owned(chains + more, FirstCluster(slots[k]))
    {
      var u :| u in chains && |u| > 0 && u[0] == FirstCluster(slots[k]);
      assert u in chains + more;
    }
  }

  lemma {:induction false} OldDir(t: Tree, d': Disk, at: nat, name: seq<nat>, k: nat, c: nat, c2: nat)
    requires MadeIn(t, d', at, name, k, c) && c2 in t.dirs && c2 != at
    ensures DirOk(Extended(t, d', c), c2)
  {
    OtherKept(t, d', at, name, k, c, c2);
    DirFacts(t, at);
    DirFacts(t, c2);
    assert DirOk(t, c2);
    Name83Bytes(name);
    NewIsNew(t, d', at, name, k, c, c2);
    hide TreeOk, DirSlots, Fat, IsChain, DiskOk, Made, Name83, Rooted, Family, FirstCluster, IsFolder, Live;
    MadeMounted(t.g, t.d, d', t.chains, t.dirs[at], Name83(name), k, c);
    RootedMore(SlotsAt(t, c2), t.chains, {[c]});
  }

  lemma {:induction false} ThisDir(t: Tree, d': Disk, at: nat, name: seq<nat>, k: nat, c: nat)
    requires MadeIn(t, d', at, name, k, c)
    ensures DirOk(Extended(t, d', c), at)
  {
    DirFacts(t, at);
    assert DirOk(t, at);
    Name83Bytes(name);
    NewIsNew(t, d', at, name, k, c, at);
    MadeMounted(t.g, t.d, d', t.chains, t.dirs[at], Name83(name), k, c);
    MadeSlot(t.g, t.d, d', t.dirs[at], Name83(name), k, c);
    hide TreeOk, DirSlots, Fat, IsChain, DiskOk, Name83, Rooted, Family, FirstCluster, IsFolder, Live, First, WordsSet,
         NewSlot, WithCluster, FolderSector;
  }

  lemma {:induction false} NewDir(t: Tree, d': Disk, at: nat, name: seq<nat>, k: nat, c: nat)
    requires MadeIn(t, d', at, name, k, c) && StaleOk(t, c)
    ensures DirOk(Extended(t, d', c), c)
  {
    hide TreeOk, DirSlots, Fat, IsChain, DiskOk, Name83, Rooted, Family, FirstCluster, IsFolder, Made, StaleRooted,
         NewSlots, FolderIn, Live, Bytes;
    DirFacts(t, at);
    Name83Bytes(name);
    var dir := t.dirs[at];
    NewFolderMountedIff(t.g, t.d, d', t.chains, dir, Name83(name), k, c);
    NewFolderSlots(t.g, t.d, d', dir, Name83(name), k, c);
    MadeBounds(t.g, t.d, d', dir, Name83(name), k, c);
    NewFoldersIn(t, d', DirSlots(t.g, t.d, [c]), DirSlots(t.g, d', [c]), at, c);
  }

  lemma {:induction false} NewFoldersIn(t: Tree, d': Disk, a: seq<Slot>, b: seq<Slot>, at: nat, c: nat)
    requires IsDir(a) && IsDir(b) && NewSlots(a, b, c, at) && at in t.dirs && at < 0x1_0000_0000 && c < 0x1_0000_0000
    requires forall i :: 16 <= i < |a| ==> FolderIn(Extended(t, t.d, c), a[i])
    ensures forall i :: 0 <= i < |b| ==> FolderIn(Extended(t, d', c), b[i])
  {
    hide FirstCluster, IsFolder, FolderSector, SlotIn;
    FolderSectorFacts(c, at);
    forall i | 0 <= i < |b| ensures FolderIn(Extended(t, d', c), b[i]) {
      if i >= 16 { assert FolderIn(Extended(t, t.d, c), a[i]) && b[i] == a[i]; }
    }
  }

  lemma {:induction false} MadeTree(t: Tree, d': Disk, at: nat, name: seq<nat>, k: nat, c: nat)
    requires MadeIn(t, d', at, name, k, c) && DiskOk(t.g, t.d) && StaleOk(t, c)
    ensures TreeOk(Extended(t, d', c))
  {
    DirRoot(t);
    hide TreeOk, Made, StaleOk, DiskOk;
    var t' := Extended(t, d', c);
    forall c2 | c2 in t'.dirs ensures DirOk(t', c2) {
      if c2 == c {
        NewDir(t, d', at, name, k, c);
      } else if c2 == at {
        ThisDir(t, d', at, name, k, c);
      } else {
        OldDir(t, d', at, name, k, c, c2);
      }
    }
    TreeFrom(t');
  }

  // ---- lookups in it -----------------------------------------------------------------------------------------

  /** A live slot of that short name in the first vacant place is found there by a name that was not found. */
  lemma {:induction false} FoundWhereMade(slots: seq<Slot>, k: nat, e: Slot, j: nat, a: Acc, name: seq<nat>)
    requires IsDir(slots) && j <= k < |slots| && |e| == 32 && |a.text| == LFN_BUFFER
    requires forall i :: 0 <= i < k ==> Taken(slots[i])
    requires Live(e) && e[..11] == Name83(name) && Search(slots, j, a, name) == -1
    ensures Search(slots[k := e], j, a, name) == k
    decreases k - j
  {
    var t := slots[k := e];
    SearchStep(t, j, a, name);
    if j < k {
      SearchStep(slots, j, a, name);
      hide Search, Hit, Name83, LongStep, Live, Passed;
      FoundWhereMade(slots, k, e, j + 1, Passed(a, slots[j]), name);
    }
  }

  lemma {:induction false} DotNames()
    ensures Name83([DOT]) == Field([DOT], 11) && Name83([DOT, DOT]) == Field([DOT, DOT], 11)
    ensures Name83([DOT]) != Name83([DOT, DOT])
  {
    assert Field([DOT], 11)[1] == SPACE && Field([DOT, DOT], 11)[1] == DOT;
  }

  /** The folder's own two slots are found under their names. */
  lemma {:induction false} DotsFound(slots: seq<Slot>, junk: seq<nat>)
    requires IsDir(slots) && |slots| >= 2 && |junk| == LFN_BUFFER && Live(slots[0]) && Live(slots[1])
    requires slots[0][..11] == Name83([DOT]) && slots[1][..11] == Name83([DOT, DOT])
    ensures Lookup(slots, junk, [DOT]) == 0 && Lookup(slots, junk, [DOT, DOT]) == 1
  {
    DotNames();
    var a := Acc(junk, 0, 0);
    hide Search, Name83, SameName, Field;
    SearchStep(slots, 0, a, [DOT]);
    SearchStep(slots, 0, a, [DOT, DOT]);
    SearchStep(slots, 1, Passed(a, slots[0]), [DOT, DOT]);
  }

  /** After a directory was made, its name leads into it, `..` leads back from there and `.` stays. */
  lemma {:induction false} MadeEntered(t: Tree, d': Disk, at: nat, name: seq<nat>, k: nat, c: nat, junk: seq<nat>)
    requires MadeIn(t, d', at, name, k, c) && DiskOk(t.g, t.d) && StaleOk(t, c) && |junk| == LFN_BUFFER
    ensures var t' := Extended(t, d', c);
            && TreeOk(t')
            && (Lookup(SlotsAt(t, at), junk, name) == -1 ==> Enter(t', at, junk, name) == Some(c))
            && Enter(t', c, junk, [DOT, DOT]) == Some(at) && Enter(t', c, junk, [DOT]) == Some(c)
  {
    MadeTree(t, d', at, name, k, c);
    if Lookup(SlotsAt(t, at), junk, name) == -1 { EnterNew(t, d', at, name, k, c, junk); }
    hide TreeOk, MadeIn, StaleOk, Lookup, Enter;
    EnterDots(t, d', at, name, k, c, junk);
  }

  lemma {:induction false} EnterNew(t: Tree, d': Disk, at: nat, name: seq<nat>, k: nat, c: nat, junk: seq<nat>)
    requires MadeIn(t, d', at, name, k, c) && TreeOk(Extended(t, d', c)) && |junk| == LFN_BUFFER
    requires Lookup(SlotsAt(t, at), junk, name) == -1
    ensures Enter(Extended(t, d', c), at, junk, name) == Some(c)
  {
    hide TreeOk, MadeIn, Taken, Name83, FirstCluster, IsFolder, Search, Live;
    NewSlotAt(t, d', at, name, k, c);
    FoundWhereMade(SlotsAt(t, at), k, SlotsAt(Extended(t, d', c), at)[k], 0, Acc(junk, 0, 0), name);
  }

  /** The new folder's slot, in the first vacant place. */
  lemma {:induction false} NewSlotAt(t: Tree, d': Disk, at: nat, name: seq<nat>, k: nat, c: nat)
    requires MadeIn(t, d', at, name, k, c) && TreeOk(Extended(t, d', c))
    ensures TreeOk(t) && at in t.dirs && k < |SlotsAt(t, at)| && c != 0
    ensures var slots, slots' := SlotsAt(t, at), SlotsAt(Extended(t, d', c), at);
            && |slots'| == |slots| && slots' == slots[k := slots'[k]] && (forall i :: 0 <= i < k ==> Taken(slots[i]))
            && Live(slots'[k]) && slots'[k][..11] == Name83(name) && IsFolder(slots'[k]) && FirstCluster(slots'[k]) == c
  {
    hide TreeOk, DirSlots, Fat, IsChain, DiskOk, Name83, FirstCluster, IsFolder, WordsSet, NewSlot, WithCluster,
         FolderSector, Rooted, Family, SectorList, Mounted, Bytes;
    DirFacts(t, at);
    Name83Bytes(name);
    NewIsNew(t, d', at, name, k, c, at);
    SlotsThere(Extended(t, d', c), at);
    MadeSlot(t.g, t.d, d', t.dirs[at], Name83(name), k, c);
    var slots := SlotsAt(t, at);
    forall i | 0 <= i < k ensures Taken(slots[i]) { assert !Passes(Vacant, slots[i]); }
  }

  lemma {:induction false} EnterDots(t: Tree, d': Disk, at: nat, name: seq<nat>, k: nat, c: nat, junk: seq<nat>)
    requires MadeIn(t, d', at, name, k, c) && TreeOk(Extended(t, d', c)) && |junk| == LFN_BUFFER
    ensures Enter(Extended(t, d', c), c, junk, [DOT, DOT]) == Some(at)
    ensures Enter(Extended(t, d', c), c, junk, [DOT]) == Some(c)
  {
    var t' := Extended(t, d', c);
    DirFacts(t, at);
    SlotsThere(t', c);
    NewFolderSlots(t.g, t.d, d', t.dirs[at], Name83(name), k, c);
    MadeBounds(t.g, t.d, d', t.dirs[at], Name83(name), k, c);
    HeadLow(t, at);
    hide TreeOk, DirSlots, Fat, IsChain, DiskOk, Made, Name83, FirstCluster, Lookup, FolderSector, SlotIn, Field, Live,
         Mounted;
    DotNames();
    FolderSectorFacts(c, at);
    DotSlots(c, at);
    FolderBit(SlotsAt(t', c)[0]);
    FolderBit(SlotsAt(t', c)[1]);
    DotsFound(SlotsAt(t', c), junk);
  }

  lemma {:induction false} HeadLow(t: Tree, at: nat)
    requires TreeOk(t) && at in t.dirs
    ensures at >= 2
  {
    DirFacts(t, at);
    assert Link(Fat(t.g, t.d), t.dirs[at], 0);
  }

  /** `mkdir`, `cd` into it and `cd ..`: back where it started. With one sector a cluster nothing is asked of the
      free clusters. */
  method MkdirAndBack(v: Volume, name: seq<nat>, root: nat, junk: seq<nat>, junk2: seq<nat>, ghost t: Tree)
    returns (r: int, there: bool, back: bool, ghost c: nat)
    requires Holding(v, t) && root == t.root && IsName(name) && |junk| == |junk2| == LFN_BUFFER && DiskOk(t.g, t.d)
    requires forall c: nat :: 2 <= c < t.g.Limit() && Fat(t.g, t.d)[c] == 0 ==> StaleOk(t, c)
    modifies v`disk, v`cwd
    ensures r == 0 ==> there && back && v.cwd == old(v.cwd) && Holding(v, Extended(t, v.disk, c))
  {
    hide TreeOk, StaleOk, MadeIn, Fat, DiskOk, Lookup, IsName;
    there, back := false, false;
    ghost var at, k := v.cwd, 0;
    r, k, c := MkdirIn(v, name, junk, t);
    if r == 0 {
      there, back := GoAndReturn(v, name, root, junk, junk2, t, at, k, c);
    }
  }

  method MkdirIn(v: Volume, name: seq<nat>, junk: seq<nat>, ghost t: Tree) returns (r: int, ghost k: nat, ghost c: nat)
    requires Holding(v, t) && IsName(name) && |junk| == LFN_BUFFER && DiskOk(t.g, t.d)
    modifies v`disk
    ensures r == 0 ==> MadeIn(t, v.disk, v.cwd, name, k, c) && 2 <= c < t.g.Limit() && Fat(t.g, t.d)[c] == 0
    ensures r == 0 ==> Lookup(SlotsAt(t, v.cwd), junk, name) == -1
  {
    hide TreeOk, Mounted, IsChain, Fat, DirSlots, Made, Name83, First, Full, Lookup, DiskOk, MadeIn, Unnamed;
    DirFacts(t, v.cwd);
    ghost var m;
    r, m, c := Mkdir(v, name, junk, t.dirs[v.cwd], t.chains);
    k := 0;
    if r == 0 {
      k := m;
      MadeHere(t, v.disk, v.cwd, name, k, c);
    }
  }

  method GoAndReturn(v: Volume, name: seq<nat>, root: nat, junk: seq<nat>, junk2: seq<nat>, ghost t: Tree,
                     ghost at: nat, ghost k: nat, ghost c: nat)
    returns (there: bool, back: bool)
    requires MadeIn(t, v.disk, at, name, k, c) && v.g == t.g && v.cwd == at && root == t.root
    requires DiskOk(t.g, t.d) && StaleOk(t, c) && IsName(name) && |junk| == |junk2| == LFN_BUFFER
    requires Lookup(SlotsAt(t, at), junk, name) == -1
    modifies v`cwd
    ensures there && back && v.cwd == at && Holding(v, Extended(t, v.disk, c))
  {
    hide TreeOk, Made, Name83, StaleOk, Lookup, Enter, DiskOk;
    ghost var t' := Extended(t, v.disk, c);
    MadeEntered(t, v.disk, at, name, k, c, junk);
    MadeEntered(t, v.disk, at, name, k, c, junk2);
    there := ChangeDir(v, name, root, junk, t');
    back := ChangeDir(v, [DOT, DOT], root, junk2, t');
  }

  lemma {:induction false} MadeHere(t: Tree, d': Disk, at: nat, name: seq<nat>, k: nat, c: nat)
    requires TreeOk(t) && at in t.dirs && IsName(name) && Name83(name)[0] != DELETED
    requires Made(t.g, t.d, d', t.dirs[at], Name83(name), k, c)
    ensures MadeIn(t, d', at, name, k, c) && 2 <= c < t.g.Limit() && at in Extended(t, d', c).dirs
    ensures Extended(t, d', c).g == t.g && Extended(t, d', c).d == d' && Extended(t, d', c).root == t.root
    ensures c in Extended(t, d', c).dirs
  {
    hide TreeOk, Fat, DirSlots, DiskOk, First, NewSlot, WithCluster, FolderSector, WordsSet, Name83, SectorList;
  }

  /** With one sector a cluster there is nothing left over. */
  lemma {:induction false} NothingStale(t: Tree, c: nat)
    requires DiskOk(t.g, t.d) && 2 <= c < t.g.Limit() && t.g.spc == 1
    ensures Clusters(t.g, [c]) && StaleOk(t, c)
  {
    hide DirSlots, DiskOk;
    OneCluster(t.g, t.d, c, 0);
  }
}
