/** `fat32_write_file` and `fat32_read_file`, and the round trip between them. */
module FatReadWrite {
  import opened Sequences
  import opened FatDisk
  import opened FatChains
  import opened FatSectors
  import opened FatVolume
  import opened FatDir
  import opened FatScan
  import opened FatFiles

  function Least(a: nat, b: nat): nat { if a < b then a else b }

  /** A 32-bit count returned as an `int`: negative from 2 GB on. */
  function AsInt(n: nat): int { if n < 0x8000_0000 then n else n - 0x1_0000_0000 }

  /** Reading up to `size` bytes of the file that slot `e` describes gives result `r` and bytes `out`. */
  ghost predicate SlotReads(g: Geo, d: Disk, e: Slot, size: nat, r: int, out: seq<nat>)
    requires DiskOk(g, d) && |e| == 32
  {
    if FirstCluster(e) == 0 then r == 0 && out == []
    else r == AsInt(|out|) && exists s :: Content(g, d, s, FirstCluster(e), Least(size, FileSize(e)), out)
  }

  /** Reading up to `size` bytes of a name in the directory. */
  ghost predicate Reads(g: Geo, d: Disk, dir: seq<nat>, junk: seq<nat>, name: seq<nat>, size: nat, r: int,
                        out: seq<nat>)
    requires DiskOk(g, d) && Clusters(g, dir) && |junk| == LFN_BUFFER
  {
    var slots := DirSlots(g, d, dir);
    var k := Lookup(slots, junk, name);
    if k == -1 then r == -1 && out == [] else SlotReads(g, d, slots[k], size, r, out)
  }

  /** `out` is the first `n` bytes of the chain `s` from cluster `c`, or all of it when it is shorter. */
  ghost predicate Content(g: Geo, d: Disk, s: seq<nat>, c: nat, n: nat, out: seq<nat>)
    requires DiskOk(g, d)
  {
    && IsChain(Fat(g, d), s) && s[0] == c && Clusters(g, s) && OnDisk(d, SectorList(g, s))
    && out == Prefix(g, d, s, n)
  }

  method ReadFile(v: Volume, name: seq<nat>, size: nat, junk: seq<nat>, ghost dir: seq<nat>,
                  ghost chains: set<seq<nat>>)
    returns (r: int, out: seq<nat>)
    requires Mounted(v.g, v.disk, chains, dir) && dir[0] == v.cwd && IsName(name) && |junk| == LFN_BUFFER
    ensures Reads(v.g, v.disk, dir, junk, name, size, r, out)
  {
    assert IsChain(v.Table(), dir);
    var sector, entry;
    ghost var k;
    sector, entry, k := FindEntry(v, v.cwd, name, junk, dir);
    if sector == -1 { return -1, []; }
    SearchLive(DirSlots(v.g, v.disk, dir), 0, Acc(junk, 0, 0), name);
    var cluster := FirstCluster(entry);
    if cluster == 0 { return 0, []; }
    ghost var s := OwnerOf(v.g, v.disk, chains, dir, k);
    hide IsChain, Fat, DiskOk, DirSlots, Lookup, FirstCluster, FileSize, Mounted;
    out := v.ReadChain(cluster, Least(size, FileSize(entry)), s);
    r := AsInt(|out|);
    assert Content(v.g, v.disk, s, cluster, Least(size, FileSize(entry)), out);
  }

  /** The chain a live slot starts. */
  lemma OwnerOf(g: Geo, d: Disk, chains: set<seq<nat>>, dir: seq<nat>, k: nat) returns (s: seq<nat>)
    requires Mounted(g, d, chains, dir) && k < |DirSlots(g, d, dir)|
    requires var e := DirSlots(g, d, dir)[k]; e[0] != 0 && e[0] != DELETED && e[11] != LONG && FirstCluster(e) != 0
    ensures s in chains && IsChain(Fat(g, d), s) && s[0] == FirstCluster(DirSlots(g, d, dir)[k])
  {
    hide IsChain, Fat, DiskOk, DirSlots, FirstCluster;
    assert Owned(chains, FirstCluster(DirSlots(g, d, dir)[k]));
    s :| s in chains && |s| > 0 && s[0] == FirstCluster(DirSlots(g, d, dir)[k]);
  }

  // ---- write -----------------------------------------------------------------------------------------------

  /** `s` is the chain the slot starts, empty if it has none. */
  ghost predicate StartOf(e: Slot, s: seq<nat>)
    requires |e| == 32
  {
    if s == [] then FirstCluster(e) == 0 else s[0] == FirstCluster(e) != 0
  }

  /** The chain grew no further than the bytes need; a new one has at least one cluster. */
  ghost predicate Snug(g: Geo, s: seq<nat>, t: seq<nat>, n: nat) {
    Tight(g, if s == [] then t[..Least(|t|, 1)] else s, t, n)
  }

  /** The file's first cluster; a free one is taken when the file has none, 0 when there is none free. */
  method StartCluster(v: Volume, entry: Slot, ghost chains: set<seq<nat>>, ghost dir: seq<nat>, ghost k: nat)
    returns (cluster: nat, ghost s: seq<nat>, ghost s1: seq<nat>)
    requires Mounted(v.g, v.disk, chains, dir) && k < |DirSlots(v.g, v.disk, dir)|
    requires entry == DirSlots(v.g, v.disk, dir)[k] && entry[0] != 0 && entry[0] != DELETED && entry[11] != LONG
    modifies v`disk
    ensures v.Valid() && |v.disk| == |old(v.disk)|
    ensures cluster == 0 ==> v.disk == old(v.disk) && Full(v.Table()) && FirstCluster(entry) == 0
    ensures cluster != 0 ==> Started(v.g, old(v.disk), v.disk, chains, s, s1) && s1[0] == cluster
    ensures cluster != 0 ==> IsChain(v.Table(), s1) && StartOf(entry, s) && (s == [] ==> |s1| == 1)
  {
    cluster := FirstCluster(entry);
    s, s1 := [], [];
    hide IsChain, DiskOk, DirSlots, FirstCluster, WithEntry, Times, Fat;
    assert forall u :: u in chains ==> IsChain(v.Table(), u);
    NoEmptyChain(v.Table(), chains);
    if cluster != 0 {
      s := OwnerOf(v.g, v.disk, chains, dir, k);
      s1 := s;
      assert chains - {s} + {s} == chains;
    } else {
      cluster := v.FatFindFree();
      if cluster != 0 {
        FamilyNew(v.Table(), chains, cluster);
        v.FatWriteEntry(cluster, LAST);
        s1 := [cluster];
        assert chains - {[]} + {s1} == chains + {s1};
      }
    }
  }

  lemma NoEmptyChain(f: seq<nat>, chains: set<seq<nat>>)
    requires Family(f, chains)
    ensures [] !in chains
  {
    assert !IsChain(f, []);
  }

  /** The write did not finish: the file has no cluster and none is free, or its chain `s` became `t`, which is
      full of the first bytes. No other chain changed. */
  ghost predicate Unfinished(g: Geo, d: Disk, d': Disk, chains: set<seq<nat>>, e: Slot, s: seq<nat>, t: seq<nat>,
                             data: seq<nat>)
    requires |e| == 32
  {
    && DiskOk(g, d') && Full(Fat(g, d'))
    && if d' == d && FirstCluster(e) == 0 then true
       else StartOf(e, s) && Pending(g, d, d', chains, s, t) && FilledUp(g, d', t, data)
  }

  /** Writes `buffer` to the file the name resolves to, slot `k`: its chain `s` becomes `t`, which holds the
      bytes. The slot then pointed at `t` is the first one with the name's 8.3 form, `m`: the same slot unless
      the lookup matched a long name, no slot at all when `m` is -1. Nothing else changes. A name of the working
      directory itself overwrites it: the slot is then looked for in the bytes written, disk `d2`. */
  method WriteFile(v: Volume, name: seq<nat>, buffer: seq<nat>, junk: seq<nat>, ghost dir: seq<nat>,
                   ghost chains: set<seq<nat>>)
    returns (r: int, ghost k: int, ghost m: int, ghost s: seq<nat>, ghost t: seq<nat>, ghost d2: Disk)
    requires Mounted(v.g, v.disk, chains, dir) && dir[0] == v.cwd
    requires IsName(name) && |junk| == LFN_BUFFER && Bytes(buffer) && |buffer| < 0x8000_0000
    modifies v`disk
    ensures v.Valid() && k == Lookup(old(DirSlots(v.g, v.disk, dir)), junk, name)
    ensures r == |buffer| || r == -1
    ensures k == -1 ==> r == -1 && v.disk == old(v.disk)
    ensures k != -1 && r == -1 ==>
              Unfinished(v.g, old(v.disk), v.disk, chains, old(DirSlots(v.g, v.disk, dir))[k], s, t, buffer)
    ensures r == |buffer| ==>
              && k >= 0 && StartOf(old(DirSlots(v.g, v.disk, dir))[k], s) && Snug(v.g, s, t, |buffer|)
              && Updates(v.g, old(v.disk), d2, v.disk, chains, dir, Name83(name), m, s, t, buffer)
  {
    var sector, entry;
    m, s, t, d2 := -1, [], [], [];
    assert IsChain(v.Table(), dir);
    sector, entry, k := FindEntry(v, v.cwd, name, junk, dir);
    if sector == -1 { return -1, k, m, s, t, d2; }
    SearchLive(DirSlots(v.g, v.disk, dir), 0, Acc(junk, 0, 0), name);
    hide Mounted, IsChain, DiskOk, DirSlots, Lookup, Updates, Unfinished, StartOf, Snug;
    r, m, s, t, d2 := WriteEntry(v, name, buffer, entry, dir, chains, k);
  }

  /** The first slot of that 8.3 name was pointed at the chain written, in the directory or, when that is what
      was written, in the bytes it holds now. */
  ghost predicate Updates(g: Geo, d: Disk, d2: Disk, d': Disk, chains: set<seq<nat>>, dir: seq<nat>, name83: seq<nat>,
                          m: int, s: seq<nat>, t: seq<nat>, data: seq<nat>)
  {
    if s == dir then
      DirOverwritten(g, d, d2, d', chains, dir, m, t, data) && First(DirSlots(g, d2, t), Named(name83), m)
    else FileWritten(g, d, d', chains, dir, m, s, t, data) && First(DirSlots(g, d, dir), Named(name83), m)
  }

  method WriteEntry(v: Volume, name: seq<nat>, buffer: seq<nat>, entry: Slot, ghost dir: seq<nat>,
                    ghost chains: set<seq<nat>>, ghost k: nat)
    returns (r: int, ghost m: int, ghost s: seq<nat>, ghost t: seq<nat>, ghost d2: Disk)
    requires Mounted(v.g, v.disk, chains, dir) && |dir| > 0 && dir[0] == v.cwd && k < |DirSlots(v.g, v.disk, dir)|
    requires entry == DirSlots(v.g, v.disk, dir)[k] && entry[0] != 0 && entry[0] != DELETED && entry[11] != LONG
    requires Bytes(buffer) && |buffer| < 0x8000_0000
    modifies v`disk
    ensures v.Valid() && (r == |buffer| || r == -1)
    ensures r == -1 ==> Unfinished(v.g, old(v.disk), v.disk, chains, entry, s, t, buffer)
    ensures r == |buffer| ==> StartOf(entry, s) && Snug(v.g, s, t, |buffer|)
    ensures r == |buffer| ==> Updates(v.g, old(v.disk), d2, v.disk, chains, dir, Name83(name), m, s, t, buffer)
  {
    var cluster;
    ghost var s1;
    m, t, d2 := -1, [], [];
    hide Fat, DiskOk, IsChain, DirSlots, Carries, Grew, Family, First, Full, Updates, DataKept, Bytes, Tight, FilledUp,
         StartOf, FirstCluster;
    cluster, s, s1 := StartCluster(v, entry, chains, dir, k);
    if cluster == 0 { return -1, m, s, t, d2; }
    ghost var d1 := v.disk;
    r, t := v.WriteChain(cluster, buffer, s1);
    GrewStart(Fat(v.g, d1), v.Table(), s1, t);
    ChainWritten(v.g, old(v.disk), d1, v.disk, chains, dir, s, s1, t);
    SnugGrowth(v.g, s, s1, t, |buffer|);
    if r < 0 { return r, m, s, t, d2; }
    d2 := v.disk;
    hide Mounted, Started, Snug;
    WalkChain(v.g, old(v.disk), d2, chains, dir, s, t);
    HeadBound(v.g, d2, chains - {s} + {t}, t);
    m := UpdateSlot(v, name, cluster, r, if s == dir then t else dir);
    SlotPlaced(v.g, old(v.disk), d2, v.disk, chains, dir, Name83(name), m, s, t, buffer);
  }

  /** The directory that is scanned for the slot. */
  lemma {:induction false} WalkChain(g: Geo, d: Disk, d2: Disk, chains: set<seq<nat>>, dir: seq<nat>, s: seq<nat>,
                                     t: seq<nat>)
    requires Mounted(g, d, chains, dir) && |dir| > 0 && Pending(g, d, d2, chains, s, t)
    ensures var w := if s == dir then t else dir; IsChain(Fat(g, d2), w) && Clusters(g, w) && w[0] == dir[0]
    ensures t in chains - {s} + {t} && Family(Fat(g, d2), chains - {s} + {t})
  {
    hide Fat, IsChain, DirSlots, Rooted, DiskOk;
    if s == dir {
      assert t in chains - {s} + {t};
      GrewClusters(g, Fat(g, d2), t);
    } else {
      DirPending(g, d, d2, chains, dir, s, t);
    }
  }

  lemma {:induction false} SlotPlaced(g: Geo, d: Disk, d2: Disk, d3: Disk, chains: set<seq<nat>>, dir: seq<nat>,
                                      name83: seq<nat>, m: int, s: seq<nat>, t: seq<nat>, data: seq<nat>)
    requires Mounted(g, d, chains, dir) && Pending(g, d, d2, chains, s, t) && Carries(g, d2, t, data) && DiskOk(g, d3)
    requires var w := if s == dir then t else dir;
             && Clusters(g, w) && First(DirSlots(g, d2, w), Named(name83), m) && Fat(g, d3) == Fat(g, d2)
             && DataKept(g, d2, d3, w) && DirSlots(g, d3, w) == Repointed(DirSlots(g, d2, w), m, t[0], |data|)
    ensures Updates(g, d, d2, d3, chains, dir, name83, m, s, t, data)
  {
    hide Fat, IsChain, DirSlots, Carries, Family, FileWritten, DirOverwritten, DataKept, Mounted;
    if s == dir {
      DirUpdated(g, d, d2, d3, chains, dir, m, t, data);
    } else {
      DirPending(g, d, d2, chains, dir, s, t);
      SlotUpdated(g, d, d2, d3, chains, dir, m, s, t, data);
    }
  }

  lemma SnugGrowth(g: Geo, s: seq<nat>, s1: seq<nat>, t: seq<nat>, n: nat)
    requires Tight(g, s1, t, n) && |t| > 0 && if s == [] then |s1| == 1 else s1 == s
    ensures Snug(g, s, t, n)
  {
  }

  /** Points the first slot of that name at the cluster and sets its size. */
  method UpdateSlot(v: Volume, name: seq<nat>, cluster: nat, size: nat, ghost dir: seq<nat>) returns (ghost m: int)
    requires v.Valid() && IsChain(v.Table(), dir) && Clusters(v.g, dir) && dir[0] == v.cwd
    requires 2 <= cluster < 0x1_0000_0000 && size < 0x8000_0000
    modifies v`disk
    ensures v.Valid() && First(old(DirSlots(v.g, v.disk, dir)), Named(Name83(name)), m) && v.Table() == old(v.Table())
    ensures DataKept(v.g, old(v.disk), v.disk, dir)
    ensures DirSlots(v.g, v.disk, dir) == Repointed(old(DirSlots(v.g, v.disk, dir)), m, cluster, size)
  {
    assert Distinct(dir);
    var name83 := NameTo83(name);
    hide Fat, DiskOk, DirSlots, IsChain, Updated, Name83;
    var sector, j;
    sector, j, m := ScanDir(v, v.cwd, Named(name83), dir);
    if sector != -1 {
      var e := LoadSlot(v, sector, j, dir, m);
      UpdatedFacts(e, cluster, size);
      PutSlot(v, sector, j, Updated(e, cluster, size), dir, m);
    } else {
      NothingKept(v.g, v.disk, dir);
    }
  }

  lemma NothingKept(g: Geo, d: Disk, dir: seq<nat>)
    requires Clusters(g, dir)
    ensures DataKept(g, d, d, dir)
  {
  }

  lemma GrewStart(f: seq<nat>, f': seq<nat>, s: seq<nat>, t: seq<nat>)
    requires Grew(f, f', s, t) && |s| > 0
    ensures |t| > 0 && t[0] == s[0]
  {
  }

  lemma HeadBound(g: Geo, d: Disk, chains: set<seq<nat>>, t: seq<nat>)
    requires DiskOk(g, d) && Family(Fat(g, d), chains) && t in chains
    ensures |t| > 0 && 2 <= t[0] < 0x1_0000_0000
  {
    assert Link(Fat(g, d), t, 0);
  }

  method LoadSlot(v: Volume, n: nat, j: nat, ghost dir: seq<nat>, ghost k: nat) returns (e: Slot)
    requires v.Valid() && Clusters(v.g, dir) && Located(v.g, dir, k, n, j)
    ensures k < |DirSlots(v.g, v.disk, dir)| && e == DirSlots(v.g, v.disk, dir)[k] && SlotOk(e)
  {
    ListOnDisk(v.g, v.disk, dir);
    e := SlotIn(v.disk[n], j);
    SlotBytes(v.g, v.disk, dir, k);
  }

  // ---- the round trip --------------------------------------------------------------------------------------

  /** A write changes no name. */
  lemma {:induction false} WrittenSlots(g: Geo, d: Disk, d': Disk, chains: set<seq<nat>>, dir: seq<nat>, m: int,
                                        s: seq<nat>, t: seq<nat>, data: seq<nat>, junk: seq<nat>, name: seq<nat>)
    requires FileWritten(g, d, d', chains, dir, m, s, t, data) && |data| < 0x8000_0000 && |junk| == LFN_BUFFER
    ensures 2 <= t[0] && Lookup(DirSlots(g, d', dir), junk, name) == Lookup(DirSlots(g, d, dir), junk, name)
    ensures m >= 0 ==> var e := DirSlots(g, d', dir)[m]; FirstCluster(e) == t[0] && FileSize(e) == |data|
    ensures m >= 0 ==> forall i :: 0 <= i < 26 && i != 20 && i != 21 ==>
              DirSlots(g, d', dir)[m][i] == DirSlots(g, d, dir)[m][i]
  {
    hide IsChain, DirSlots, FirstCluster, FileSize, Updated, Search, Carries, Rooted, Alike, Family;
    HeadBound(g, d', chains - {s} + {t}, t);
    var a, b := DirSlots(g, d, dir), DirSlots(g, d', dir);
    if m >= 0 {
      SlotBytes(g, d, dir, m);
      UpdatedFacts(a[m], t[0], |data|);
    }
    forall i | 0 <= i < |a| ensures Alike(a[i], b[i]) { AlikeSelf(a[i]); }
    SearchFrame(a, b, 0, Acc(junk, 0, 0), name);
  }

  lemma AlikeSelf(e: Slot)
    requires |e| == 32
    ensures Alike(e, e)
  {
  }

  /** A slot that starts the written chain reads the chain's bytes, as many as the slot says. */
  lemma {:induction false} ChainReads(g: Geo, d: Disk, d': Disk, chains: set<seq<nat>>, dir: seq<nat>, m: int,
                                      s: seq<nat>, t: seq<nat>, data: seq<nat>, e: Slot, size: nat)
    requires FileWritten(g, d, d', chains, dir, m, s, t, data) && |e| == 32 && FirstCluster(e) == t[0] >= 2
    ensures Clusters(g, t) && OnDisk(d', SectorList(g, t))
    ensures var out := Prefix(g, d', t, Least(size, FileSize(e))); SlotReads(g, d', e, size, AsInt(|out|), out)
  {
    hide DirSlots, FirstCluster, FileSize, Updated, Rooted, Fat, DiskOk, Family;
    assert t in chains - {s} + {t};
    FamilyMember(Fat(g, d'), chains - {s} + {t}, t, t);
    var out := Prefix(g, d', t, Least(size, FileSize(e)));
    assert Content(g, d', t, t[0], Least(size, FileSize(e)), out);
  }

  /** The slot a write repointed reads the bytes written. */
  lemma {:induction false} RepointedReads(g: Geo, d: Disk, d': Disk, chains: set<seq<nat>>, dir: seq<nat>, m: nat,
                                          s: seq<nat>, t: seq<nat>, data: seq<nat>, size: nat)
    requires FileWritten(g, d, d', chains, dir, m, s, t, data) && |data| < 0x8000_0000
    ensures var n := Least(size, |data|); SlotReads(g, d', DirSlots(g, d', dir)[m], size, n, data[..n])
  {
    WrittenSlots(g, d, d', chains, dir, m, s, t, data, Junk(), []);
    ChainReads(g, d, d', chains, dir, m, s, t, data, DirSlots(g, d', dir)[m], size);
    hide DirSlots, FirstCluster, FileSize, Updated, Lookup, Rooted, Fat, Family, SlotReads;
    CarriesPart(g, d', t, data, Least(size, |data|));
  }

  /** Reading a name whose slot was repointed returns the bytes written. */
  lemma {:induction false} ReadBack(g: Geo, d: Disk, d': Disk, chains: set<seq<nat>>, dir: seq<nat>, k: nat,
                                    s: seq<nat>, t: seq<nat>, data: seq<nat>, junk: seq<nat>, name: seq<nat>, size: nat)
    requires FileWritten(g, d, d', chains, dir, k, s, t, data) && |data| < 0x8000_0000 && |junk| == LFN_BUFFER
    requires Lookup(DirSlots(g, d, dir), junk, name) == k
    ensures var n := Least(size, |data|); Reads(g, d', dir, junk, name, size, n, data[..n])
  {
    WrittenSlots(g, d, d', chains, dir, k, s, t, data, junk, name);
    RepointedReads(g, d, d', chains, dir, k, s, t, data, size);
  }

  lemma CarriesPart(g: Geo, d: Disk, t: seq<nat>, data: seq<nat>, n: nat)
    requires Carries(g, d, t, data) && n <= |data|
    ensures Prefix(g, d, t, n) == data[..n]
  {
    var secs := SectorList(g, t);
    forall b: nat | b < n ensures ByteAt(d, secs, b) == data[b] { assert Stored(d, secs, |data|)[b] == data[b]; }
  }

  // ---- everything else -------------------------------------------------------------------------------------

  /** Slot `j` of directory `dir2` was not repointed, and describes neither the file written (chain `s`) nor
      the directory `dir` itself. */
  ghost predicate Other(g: Geo, d: Disk, dir: seq<nat>, m: int, s: seq<nat>, dir2: seq<nat>, j: int)
    requires DiskOk(g, d) && Clusters(g, dir2) && |dir| > 0 && 0 <= j < |DirSlots(g, d, dir2)|
  {
    var c := FirstCluster(DirSlots(g, d, dir2)[j]);
    !(dir2 == dir && j == m) && c != dir[0] && (s != [] ==> c != s[0])
  }

  /** A directory other than the one the slot was updated in is as before. */
  lemma {:induction false} OtherSlots(g: Geo, d: Disk, d': Disk, chains: set<seq<nat>>, dir: seq<nat>, m: int,
                                      s: seq<nat>, t: seq<nat>, data: seq<nat>, dir2: seq<nat>, junk: seq<nat>,
                                      name: seq<nat>)
    requires FileWritten(g, d, d', chains, dir, m, s, t, data) && |data| < 0x8000_0000 && |junk| == LFN_BUFFER
    requires Mounted(g, d, chains, dir2) && dir2 != s
    ensures Lookup(DirSlots(g, d', dir2), junk, name) == Lookup(DirSlots(g, d, dir2), junk, name)
    ensures |DirSlots(g, d', dir2)| == |DirSlots(g, d, dir2)|
    ensures forall j :: 0 <= j < |DirSlots(g, d, dir2)| && !(dir2 == dir && j == m) ==>
              DirSlots(g, d', dir2)[j] == DirSlots(g, d, dir2)[j]
  {
    if dir2 == dir {
      WrittenSlots(g, d, d', chains, dir, m, s, t, data, junk, name);
    } else {
      hide DirSlots, Carries, Family, Updated, Lookup, Rooted, Fat, DiskOk;
      SlotsFrame(g, d, d', dir2);
    }
  }

  /** Every other file of the volume, in this directory or any other, reads as before. */
  lemma {:induction false} OthersRead(g: Geo, d: Disk, d': Disk, chains: set<seq<nat>>, dir: seq<nat>, m: int,
                                      s: seq<nat>, t: seq<nat>, data: seq<nat>, dir2: seq<nat>, j: nat, size: nat,
                                      r: int, out: seq<nat>)
    requires FileWritten(g, d, d', chains, dir, m, s, t, data) && |data| < 0x8000_0000
    requires Mounted(g, d, chains, dir2) && dir2 != s && j < |DirSlots(g, d, dir2)|
    requires var e := DirSlots(g, d, dir2)[j]; e[0] != 0 && e[0] != DELETED && e[11] != LONG
    requires Other(g, d, dir, m, s, dir2, j) && SlotReads(g, d, DirSlots(g, d, dir2)[j], size, r, out)
    ensures DirSlots(g, d', dir2)[j] == DirSlots(g, d, dir2)[j]
    ensures SlotReads(g, d', DirSlots(g, d', dir2)[j], size, r, out)
  {
    OtherSlots(g, d, d', chains, dir, m, s, t, data, dir2, Junk(), []);
    var e := DirSlots(g, d, dir2)[j];
    if FirstCluster(e) != 0 {
      var n := Least(size, FileSize(e));
      hide DirSlots, FirstCluster, FileSize, Updated, Lookup, DiskOk, Rooted;
      var u0 := OwnerOf(g, d, chains, dir2, j);
      var u :| Content(g, d, u, FirstCluster(e), n, out);
      ChainSame(g, d, u, u0);
      ContentKept(g, d, d', chains, s, t, u, FirstCluster(e), n, out);
      assert Content(g, d', u, FirstCluster(e), n, out);
    }
  }

  /** The name resolves in `dir2` to nothing or to another file. */
  ghost predicate OtherName(g: Geo, d: Disk, dir: seq<nat>, m: int, s: seq<nat>, dir2: seq<nat>, junk: seq<nat>,
                            name: seq<nat>)
    requires DiskOk(g, d) && Clusters(g, dir2) && |dir| > 0 && |junk| == LFN_BUFFER
  {
    var j := Lookup(DirSlots(g, d, dir2), junk, name);
    j == -1 || Other(g, d, dir, m, s, dir2, j)
  }

  /** Every read of another name, in whatever directory of the volume, has the outcome it had. */
  ghost predicate OthersKept(g: Geo, d: Disk, d': Disk, chains: set<seq<nat>>, dir: seq<nat>, m: int, s: seq<nat>) {
    && DiskOk(g, d') && |dir| > 0
    && forall dir2, junk, name, size, r, out |
         && Mounted(g, d, chains, dir2) && dir2 != s && |junk| == LFN_BUFFER
         && OtherName(g, d, dir, m, s, dir2, junk, name) && Reads(g, d, dir2, junk, name, size, r, out) ::
         Reads(g, d', dir2, junk, name, size, r, out)
  }

  lemma {:induction false} OthersReadNames(g: Geo, d: Disk, d': Disk, chains: set<seq<nat>>, dir: seq<nat>, m: int,
                                           s: seq<nat>, t: seq<nat>, data: seq<nat>)
    requires FileWritten(g, d, d', chains, dir, m, s, t, data) && |data| < 0x8000_0000
    ensures OthersKept(g, d, d', chains, dir, m, s)
  {
    MountedFacts(g, d, chains, dir);
    WrittenDisk(g, d, d', chains, dir, m, s, t, data);
    hide FileWritten, Mounted, DirSlots, SlotReads, Other, FirstCluster, DiskOk, IsChain, Fat;
    forall dir2, junk, name, size, r, out |
      && Mounted(g, d, chains, dir2) && dir2 != s && |junk| == LFN_BUFFER
      && OtherName(g, d, dir, m, s, dir2, junk, name) && Reads(g, d, dir2, junk, name, size, r, out)
      ensures Reads(g, d', dir2, junk, name, size, r, out)
    {
      OtherSlots(g, d, d', chains, dir, m, s, t, data, dir2, junk, name);
      var j := Lookup(DirSlots(g, d, dir2), junk, name);
      if j >= 0 {
        SearchLive(DirSlots(g, d, dir2), 0, Acc(junk, 0, 0), name);
        OthersRead(g, d, d', chains, dir, m, s, t, data, dir2, j, size, r, out);
      }
    }
  }

  lemma WrittenDisk(g: Geo, d: Disk, d': Disk, chains: set<seq<nat>>, dir: seq<nat>, m: int, s: seq<nat>, t: seq<nat>,
                    data: seq<nat>)
    requires FileWritten(g, d, d', chains, dir, m, s, t, data)
    ensures DiskOk(g, d')
  {
  }

  lemma ChainSame(g: Geo, d: Disk, u: seq<nat>, w: seq<nat>)
    requires DiskOk(g, d) && IsChain(Fat(g, d), u) && IsChain(Fat(g, d), w) && u[0] == w[0]
    ensures u == w
  {
    assert u[..1] == w[..1];
    ChainUnique(Fat(g, d), u, w, 0);
  }

  lemma ContentKept(g: Geo, d: Disk, d': Disk, chains: set<seq<nat>>, s: seq<nat>, t: seq<nat>, u: seq<nat>, c: nat,
                    n: nat, out: seq<nat>)
    requires DiskOk(g, d) && DiskOk(g, d') && u in chains && u != s && SameData(g, d, d', u)
    requires Family(Fat(g, d'), chains - {s} + {t}) && Content(g, d, u, c, n, out)
    ensures Content(g, d', u, c, n, out)
  {
    hide Fat, DiskOk;
    assert u in chains - {s} + {t};
    var secs := SectorList(g, u);
    StoredFrame(d, d', secs, |out|);
  }

  /** The written volume is again one whose chains are a family rooted in its directory. */
  lemma {:induction false} StaysMounted(g: Geo, d: Disk, d': Disk, chains: set<seq<nat>>, dir: seq<nat>, m: int,
                                        s: seq<nat>, t: seq<nat>, data: seq<nat>)
    requires FileWritten(g, d, d', chains, dir, m, s, t, data) && |data| < 0x8000_0000
    ensures Mounted(g, d', chains - {s} + {t}, dir)
  {
    var a, b, all := DirSlots(g, d, dir), DirSlots(g, d', dir), chains - {s} + {t};
    WrittenSlots(g, d, d', chains, dir, m, s, t, data, Junk(), []);
    hide DirSlots, FirstCluster, FileSize, Updated, Lookup, Fat, DiskOk, Family, Carries;
    forall j | 0 <= j < |b| && b[j][0] != 0 && b[j][0] != DELETED && b[j][11] != LONG
      ensures FirstCluster(b[j]) == 0 || Owned(all, FirstCluster(b[j]))
    {
      assert t in all;
      if j != m && FirstCluster(a[j]) != 0 {
        var u :| u in chains && |u| > 0 && u[0] == FirstCluster(a[j]);
        assert u != s ==> u in all;
      }
    }
  }

  ghost function Junk(): (r: seq<nat>)
    ensures |r| == LFN_BUFFER
  {
    seq(LFN_BUFFER, _ => 0)
  }

  /** A read has one outcome. */
  lemma {:induction false} SlotReadsOnce(g: Geo, d: Disk, e: Slot, size: nat, r: int, out: seq<nat>, r': int,
                                         out': seq<nat>)
    requires DiskOk(g, d) && |e| == 32 && SlotReads(g, d, e, size, r, out) && SlotReads(g, d, e, size, r', out')
    ensures r == r' && out == out'
  {
    if FirstCluster(e) != 0 {
      var c, n := FirstCluster(e), Least(size, FileSize(e));
      var u :| Content(g, d, u, c, n, out);
      var w :| Content(g, d, w, c, n, out');
      ChainSame(g, d, u, w);
    }
  }

  lemma {:induction false} ReadsOnce(g: Geo, d: Disk, dir: seq<nat>, junk: seq<nat>, name: seq<nat>, size: nat, r: int,
                                     out: seq<nat>, r': int, out': seq<nat>)
    requires DiskOk(g, d) && Clusters(g, dir) && |junk| == LFN_BUFFER
    requires Reads(g, d, dir, junk, name, size, r, out) && Reads(g, d, dir, junk, name, size, r', out')
    ensures r == r' && out == out'
  {
    var slots := DirSlots(g, d, dir);
    var k := Lookup(slots, junk, name);
    if k >= 0 { SlotReadsOnce(g, d, slots[k], size, r, out, r', out'); }
  }

  /** Without long names the buffer's former contents do not matter. */
  lemma {:induction false} SearchJunk(slots: seq<Slot>, k: nat, a: Acc, b: Acc, name: seq<nat>)
    requires IsDir(slots) && NoLong(slots) && k <= |slots| && |a.text| == |b.text| == LFN_BUFFER && a.len == b.len == 0
    ensures Search(slots, k, a, name) == Search(slots, k, b, name)
    decreases |slots| - k
  {
    if k < |slots| { SearchJunk(slots, k + 1, a, b, name); }
  }

  /** Write a file and read it back, in a directory without long names: the read returns the bytes
      written, the volume is mounted as before, and every other file of the volume reads as it did. */
  method WriteThenRead(v: Volume, name: seq<nat>, buffer: seq<nat>, junk: seq<nat>, junk2: seq<nat>, size: nat,
                       ghost dir: seq<nat>, ghost chains: set<seq<nat>>)
    returns (r: int, got: int, out: seq<nat>, ghost k: int, ghost s: seq<nat>, ghost t: seq<nat>)
    requires Mounted(v.g, v.disk, chains, dir) && dir[0] == v.cwd && NoLong(DirSlots(v.g, v.disk, dir))
    requires IsName(name) && |junk| == |junk2| == LFN_BUFFER && Bytes(buffer) && |buffer| < 0x8000_0000
    requires var slots := DirSlots(v.g, v.disk, dir); var k := Lookup(slots, junk, name);
             k >= 0 ==> FirstCluster(slots[k]) != v.cwd
    modifies v`disk
    ensures v.Valid() && (r == |buffer| || r == -1)
    ensures r == |buffer| ==> got == Least(size, |buffer|) && out == buffer[..got]
    ensures r == |buffer| ==> k >= 0 && FileWritten(v.g, old(v.disk), v.disk, chains, dir, k, s, t, buffer)
    ensures r == |buffer| ==> Mounted(v.g, v.disk, chains - {s} + {t}, dir)
    ensures r == |buffer| ==> OthersKept(v.g, old(v.disk), v.disk, chains, dir, k, s)
  {
    ghost var d, slots := v.disk, DirSlots(v.g, v.disk, dir);
    ghost var a, a2 := Acc(junk, 0, 0), Acc(junk2, 0, 0);
    ghost var m;
    hide Mounted, DirSlots, First, FileWritten, NoLong, Search, Reads, FirstCluster, Name83, DiskOk, OthersKept,
         StartOf, Snug;
    SearchJunk(slots, 0, a, a2, name);
    SearchLive(slots, 0, a, name);
    ghost var d2;
    r, k, m, s, t, d2 := WriteFile(v, name, buffer, junk, dir, chains);
    got, out := 0, [];
    if r == |buffer| {
      OtherStart(slots[k], s, dir);
      SearchShort(slots, 0, a, name, k);
      FirstOnce(slots, Named(Name83(name)), k, m);
      OthersReadNames(v.g, d, v.disk, chains, dir, k, s, t, buffer);
      StaysMounted(v.g, d, v.disk, chains, dir, k, s, t, buffer);
      ReadBack(v.g, d, v.disk, chains, dir, k, s, t, buffer, junk2, name, size);
      got, out := ReadFile(v, name, size, junk2, dir, chains - {s} + {t});
      MountedFacts(v.g, v.disk, chains - {s} + {t}, dir);
      ReadsOnce(v.g, v.disk, dir, junk2, name, size, got, out, Least(size, |buffer|), buffer[..Least(size, |buffer|)]);
    }
  }

  lemma OtherStart(e: Slot, s: seq<nat>, dir: seq<nat>)
    requires |e| == 32 && StartOf(e, s) && |dir| > 0 && FirstCluster(e) != dir[0]
    ensures s != dir
  {
  }

  lemma FirstOnce(slots: seq<Slot>, t: Test, k: int, m: int)
    requires IsDir(slots) && First(slots, t, k) && First(slots, t, m)
    ensures k == m
  {
  }

  lemma MountedFacts(g: Geo, d: Disk, chains: set<seq<nat>>, dir: seq<nat>)
    requires Mounted(g, d, chains, dir)
    ensures DiskOk(g, d) && Clusters(g, dir) && IsChain(Fat(g, d), dir)
  {
  }
}
