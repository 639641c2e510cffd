/** Files of a directory: writing one, reading it back, and what that leaves alone. */
module FatFiles {
  import opened Sequences
  import opened Arithmetic
  import opened FatDisk
  import opened FatChains
  import opened FatSectors
  import opened FatVolume
  import opened FatDir
  import opened FatScan

  /** Chains that share no cluster. */
  ghost predicate Family(f: seq<nat>, chains: set<seq<nat>>) {
    && (forall s :: s in chains ==> IsChain(f, s))
    && (forall s, t :: s in chains && t in chains && s != t ==> Apart(s, t))
  }

  lemma FamilyMember(f: seq<nat>, chains: set<seq<nat>>, s: seq<nat>, t: seq<nat>)
    requires Family(f, chains) && s in chains && t in chains
    ensures IsChain(f, s) && IsChain(f, t) && (s != t ==> Apart(s, t))
    ensures s[0] == t[0] ==> s == t
  {
    assert s[0] in s && t[0] in t;
  }

  /** A free cluster becomes a chain of its own. */
  lemma FamilyNew(f: seq<nat>, chains: set<seq<nat>>, c: nat)
    requires Family(f, chains) && 2 <= c < |f| && f[c] == 0
    ensures Family(f[c := LAST], chains + {[c]}) && [c] !in chains
  {
    forall s | s in chains ensures IsChain(f[c := LAST], s) && c !in s {
      FreeApart(f, s, c);
      ChainFrame(f, f[c := LAST], s);
    }
    assert Link(f[c := LAST], [c], 0);
  }

  /** One chain grows by free clusters. */
  lemma FamilyGrew(f: seq<nat>, f': seq<nat>, chains: set<seq<nat>>, s: seq<nat>, t: seq<nat>)
    requires Family(f, chains) && s in chains && Grew(f, f', s, t)
    ensures Family(f', chains - {s} + {t})
    ensures forall u :: u in chains && u != s ==> Apart(t, u) && IsChain(f', u)
  {
    forall u | u in chains && u != s ensures IsChain(f', u) && Apart(t, u) {
      GrewOther(f, f', s, t, u);
    }
  }

  ghost predicate SameData(g: Geo, d: Disk, d': Disk, u: seq<nat>) {
    Clusters(g, u) && |d'| == |d| && forall n :: n in SectorList(g, u) && n < |d| ==> d'[n] == d[n]
  }

  lemma KeptIsSame(g: Geo, d: Disk, d': Disk, t: seq<nat>, u: seq<nat>)
    requires Clusters(g, t) && Clusters(g, u) && DataKept(g, d, d', t) && Apart(t, u)
    ensures SameData(g, d, d', u)
  {
    ListsApart(g, t, u);
    forall n | n in SectorList(g, u) && n < |d| ensures d'[n] == d[n] {
      SectorListRange(g, u, n);
    }
  }

  // ---- replacing one slot ------------------------------------------------------------------------------

  ghost predicate SlotOk(e: Slot) { |e| == 32 && Bytes(e) }

  function Replaced(sec: Sector, j: nat, e: Slot): (r: Sector)
    requires |sec| == 512 && j < 16 && |e| == 32
    ensures |r| == 512
  {
    Patch(sec, 32 * j, e)
  }

  lemma ReplacedSlots(sec: Sector, j: nat, e: Slot, i: nat)
    requires |sec| == 512 && j < 16 && |e| == 32 && i < 16
    ensures SlotIn(Replaced(sec, j, e), i) == if i == j then e else SlotIn(sec, i)
  {
    var r := Replaced(sec, j, e);
    forall b: nat | b < 32 ensures SlotIn(r, i)[b] == (if i == j then e else SlotIn(sec, i))[b] {
      assert SlotIn(r, i)[b] == r[32 * i + b];
    }
  }

  lemma {:induction false} SlotWritten(g: Geo, d: Disk, dir: seq<nat>, k: nat, n: nat, j: nat, e: Slot)
    requires DiskOk(g, d) && Clusters(g, dir) && Distinct(dir) && Located(g, dir, k, n, j) && SlotOk(e)
    ensures n < |d| && |d[n]| == 512 && g.firstData <= n && k < |DirSlots(g, d, dir)|
    ensures var d' := d[n := Replaced(d[n], j, e)];
            DiskOk(g, d') && DirSlots(g, d', dir) == DirSlots(g, d, dir)[k := e]
  {
    var secs := SectorList(g, dir);
    SectorListRange(g, dir, n);
    SectorListDistinct(g, dir);
    ListOnDisk(g, d, dir);
    PatchSector(d[n], 32 * j, e);
    var d' := d[n := Replaced(d[n], j, e)];
    ListOnDisk(g, d', dir);
    SlotReplaced(d, secs, k, n, j, e);
  }

  lemma {:induction false} SlotReplaced(d: Disk, secs: seq<nat>, k: nat, n: nat, j: nat, e: Slot)
    requires OnDisk(d, secs) && Distinct(secs) && k / 16 < |secs| && n == secs[k / 16] && j == k % 16 && |e| == 32
    requires n < |d| && |d[n]| == 512 && OnDisk(d[n := Replaced(d[n], j, e)], secs)
    ensures k < |Slots(d, secs)| && Slots(d[n := Replaced(d[n], j, e)], secs) == Slots(d, secs)[k := e]
  {
    hide Replaced, SlotIn;
    var a, b := Slots(d, secs), Slots(d[n := Replaced(d[n], j, e)], secs);
    hide Slots;
    forall m: nat | m < |b| ensures b[m] == a[k := e][m] {
      ReplacedSlots(d[n], j, e, m % 16);
      assert m / 16 == k / 16 <==> secs[m / 16] == n;
      assert m / 16 == k / 16 && m % 16 == k % 16 ==> m == k;
    }
  }

  lemma SlotBytes(g: Geo, d: Disk, dir: seq<nat>, k: nat)
    requires DiskOk(g, d) && Clusters(g, dir) && k < |DirSlots(g, d, dir)|
    ensures SlotOk(DirSlots(g, d, dir)[k])
  {
    ListOnDisk(g, d, dir);
    assert SectorOk(d[SectorList(g, dir)[k / 16]]);
  }

  method PutSlot(v: Volume, n: nat, j: nat, e: Slot, ghost dir: seq<nat>, ghost k: nat)
    requires v.Valid() && Clusters(v.g, dir) && Distinct(dir) && Located(v.g, dir, k, n, j) && SlotOk(e)
    modifies v`disk
    ensures v.Valid() && |v.disk| == |old(v.disk)| && v.Table() == old(v.Table())
    ensures k < |old(DirSlots(v.g, v.disk, dir))|
    ensures DirSlots(v.g, v.disk, dir) == old(DirSlots(v.g, v.disk, dir))[k := e]
    ensures DataKept(v.g, old(v.disk), v.disk, dir)
    ensures forall m :: 0 <= m < v.g.firstData && m < |v.disk| ==> v.disk[m] == old(v.disk)[m]
  {
    SlotWritten(v.g, v.disk, dir, k, n, j, e);
    v.disk := v.disk[n := Replaced(v.disk[n], j, e)];
    FatFrame(v.g, old(v.disk), v.disk);
  }

  // ---- writing a file ------------------------------------------------------------------------------------

  /** `c` starts a chain of the family. */
  ghost predicate Owned(chains: set<seq<nat>>, c: nat) { exists s :: s in chains && |s| > 0 && s[0] == c }

  /** Every live slot is empty or starts a known chain. */
  ghost predicate Rooted(slots: seq<Slot>, chains: set<seq<nat>>)
    requires IsDir(slots)
  {
    forall k :: 0 <= k < |slots| && slots[k][0] != 0 && slots[k][0] != DELETED && slots[k][11] != LONG ==>
      FirstCluster(slots[k]) == 0 || Owned(chains, FirstCluster(slots[k]))
  }

  /** A volume whose chains are `chains`, one of them the directory `dir`. */
  ghost predicate Mounted(g: Geo, d: Disk, chains: set<seq<nat>>, dir: seq<nat>) {
    && DiskOk(g, d) && Family(Fat(g, d), chains) && dir in chains && Clusters(g, dir)
    && Rooted(DirSlots(g, d, dir), chains)
  }

  /** A freshly formatted volume is one: its root directory is one cleared cluster. */
  lemma {:induction false} FreshVolume(g: Geo, d: Disk, root: nat)
    requires DiskOk(g, d) && 2 <= root < g.Limit() && Fat(g, d)[root] >= EOC
    requires forall n, i :: 0 <= n < |d| && InCluster(g, root, n) && 0 <= i < 512 ==> d[n][i] == 0
    ensures Mounted(g, d, {[root]}, [root])
  {
    assert Link(Fat(g, d), [root], 0);
    FreshSlots(g, d, root);
  }

  lemma {:induction false} FreshSlots(g: Geo, d: Disk, root: nat)
    requires DiskOk(g, d) && 2 <= root < g.Limit()
    requires forall n, i :: 0 <= n < |d| && InCluster(g, root, n) && 0 <= i < 512 ==> d[n][i] == 0
    ensures Clusters(g, [root])
    ensures forall k :: 0 <= k < |DirSlots(g, d, [root])| ==> DirSlots(g, d, [root])[k][0] == 0
  {
    var dir := [root];
    ListOnDisk(g, d, dir);
    var slots, secs := DirSlots(g, d, dir), SectorList(g, dir);
    forall k | 0 <= k < |slots| ensures slots[k][0] == 0 {
      var n := secs[k / 16];
      SectorListMembers(g, dir, n);
      assert slots[k] == SlotIn(d[n], k % 16);
    }
  }

  /** A lookup ends on a live slot. */
  lemma {:induction false} SearchLive(slots: seq<Slot>, k: nat, a: Acc, name: seq<nat>)
    requires IsDir(slots) && k <= |slots| && |a.text| == LFN_BUFFER
    ensures var r := Search(slots, k, a, name);
            r >= 0 ==> slots[r][0] != 0 && slots[r][0] != DELETED && slots[r][11] != LONG
    decreases |slots| - k
  {
    hide LongStep, Hit;
    if k < |slots| {
      SearchLive(slots, k + 1, a.(len := 0), name);
      SearchLive(slots, k + 1, LongStep(a, slots[k]), name);
    }
  }

  function Updated(e: Slot, c: nat, n: nat): (r: Slot)
    requires |e| == 32
    ensures |r| == 32
  {
    WithCluster(WithSize(e, n), c)
  }

  lemma UpdatedFacts(e: Slot, c: nat, n: nat)
    requires SlotOk(e) && c < 0x1_0000_0000 && n < 0x1_0000_0000
    ensures SlotOk(Updated(e, c, n)) && FirstCluster(Updated(e, c, n)) == c && FileSize(Updated(e, c, n)) == n
    ensures e[11] != LONG ==> Alike(e, Updated(e, c, n))
    ensures forall i :: 0 <= i < 26 && i != 20 && i != 21 ==> Updated(e, c, n)[i] == e[i]
  {
    SizeRoundTrip(e, n);
    ClusterRoundTrip(WithSize(e, n), c);
  }

  /** The slots with slot `m` pointed at cluster `c` with size `n`; as they are when `m` is -1. */
  ghost function Repointed(slots: seq<Slot>, m: int, c: nat, n: nat): (r: seq<Slot>)
    requires IsDir(slots) && -1 <= m < |slots|
    ensures IsDir(r) && |r| == |slots|
  {
    if m < 0 then slots else slots[m := Updated(slots[m], c, n)]
  }

  /** From `d` to `d'`, slot `m` of the directory (none when -1) was pointed at chain `t`, which holds `data`;
      `s` is the chain that was written to, empty if none. The chains are still a family, and every other
      chain holds what it held. */
  ghost predicate FileWritten(g: Geo, d: Disk, d': Disk, chains: set<seq<nat>>, dir: seq<nat>, m: int, s: seq<nat>,
                              t: seq<nat>, data: seq<nat>)
  {
    && Mounted(g, d, chains, dir) && DiskOk(g, d') && -1 <= m < |DirSlots(g, d, dir)|
    && s != dir && (s == [] || s in chains) && |t| > 0 && s <= t
    && Family(Fat(g, d'), chains - {s} + {t}) && Carries(g, d', t, data)
    && (m >= 0 ==> DirSlots(g, d, dir)[m][11] != LONG)
    && DirSlots(g, d', dir) == Repointed(DirSlots(g, d, dir), m, t[0], |data|)
    && forall u :: u in chains && u != s && u != dir ==> SameData(g, d, d', u)
  }

  lemma SlotsFrame(g: Geo, d: Disk, d': Disk, dir: seq<nat>)
    requires DiskOk(g, d) && DiskOk(g, d') && SameData(g, d, d', dir)
    ensures DirSlots(g, d', dir) == DirSlots(g, d, dir)
  {
    ListOnDisk(g, d, dir);
    ListOnDisk(g, d', dir);
    var secs := SectorList(g, dir);
    assert forall i :: 0 <= i < |secs| ==> secs[i] in secs;
  }

  lemma SameTrans(g: Geo, d: Disk, d1: Disk, d2: Disk, u: seq<nat>)
    requires SameData(g, d, d1, u) && SameData(g, d1, d2, u)
    ensures SameData(g, d, d2, u)
  {
  }

  lemma SameFromData(g: Geo, d: Disk, d': Disk, u: seq<nat>)
    requires Clusters(g, u) && |d'| == |d| && forall n :: g.firstData <= n < |d| ==> d'[n] == d[n]
    ensures SameData(g, d, d', u)
  {
    forall n | n in SectorList(g, u) && n < |d| ensures d'[n] == d[n] { SectorListRange(g, u, n); }
  }

  /** What a start cluster is: the file's own, or a fresh one that is a chain of its own. */
  ghost predicate Started(g: Geo, d: Disk, d1: Disk, chains: set<seq<nat>>, s: seq<nat>, s1: seq<nat>) {
    && DiskOk(g, d) && DiskOk(g, d1) && |d1| == |d| && |s1| > 0
    && (forall n :: g.firstData <= n < |d| ==> d1[n] == d[n])
    && Family(Fat(g, d1), chains - {s} + {s1})
    && (if s == [] then s1 !in chains && [] !in chains else s1 == s && s in chains)
  }

  /** The chain `s` has become `t`, or `t` is new; every other chain is as before. */
  ghost predicate Pending(g: Geo, d: Disk, d2: Disk, chains: set<seq<nat>>, s: seq<nat>, t: seq<nat>) {
    && DiskOk(g, d) && DiskOk(g, d2) && (s == [] || s in chains) && |t| > 0 && s <= t
    && Family(Fat(g, d2), chains - {s} + {t})
    && forall u :: u in chains && u != s ==> SameData(g, d, d2, u) && Apart(t, u)
  }

  lemma ChainWritten(g: Geo, d: Disk, d1: Disk, d2: Disk, chains: set<seq<nat>>, dir: seq<nat>, s: seq<nat>,
                     s1: seq<nat>, t: seq<nat>)
    requires Mounted(g, d, chains, dir) && Started(g, d, d1, chains, s, s1)
    requires DiskOk(g, d2) && Grew(Fat(g, d1), Fat(g, d2), s1, t) && Clusters(g, t) && DataKept(g, d1, d2, t)
    ensures Pending(g, d, d2, chains, s, t)
  {
    hide Fat, DiskOk, IsChain, DirSlots, Rooted, Apart;
    assert |t| > 0 && s <= t;
    hide Grew;
    var all := chains - {s} + {s1};
    FamilyGrew(Fat(g, d1), Fat(g, d2), all, s1, t);
    assert all - {s1} + {t} == chains - {s} + {t};
    forall u | u in chains && u != s ensures SameData(g, d, d2, u) && IsChain(Fat(g, d2), u) && Apart(t, u) {
      assert u in all && u != s1;
      GrewClusters(g, Fat(g, d2), u);
      SameFromData(g, d, d1, u);
      KeptIsSame(g, d1, d2, t, u);
      SameTrans(g, d, d1, d2, u);
    }
  }

  /** Writing to another chain leaves the directory alone. */
  lemma {:induction false} DirPending(g: Geo, d: Disk, d2: Disk, chains: set<seq<nat>>, dir: seq<nat>, s: seq<nat>,
                                      t: seq<nat>)
    requires Mounted(g, d, chains, dir) && Pending(g, d, d2, chains, s, t) && s != dir
    ensures IsChain(Fat(g, d2), dir) && DirSlots(g, d2, dir) == DirSlots(g, d, dir) && Apart(t, dir)
  {
    hide Fat, DiskOk, IsChain, DirSlots, Rooted, Apart;
    assert dir in chains - {s} + {t};
    SlotsFrame(g, d, d2, dir);
  }

  /** The slot update touches the directory only. */
  lemma SlotUpdated(g: Geo, d: Disk, d2: Disk, d3: Disk, chains: set<seq<nat>>, dir: seq<nat>, m: int, s: seq<nat>,
                    t: seq<nat>, data: seq<nat>)
    requires Mounted(g, d, chains, dir) && Pending(g, d, d2, chains, s, t) && s != dir
    requires Carries(g, d2, t, data) && DiskOk(g, d3)
    requires -1 <= m < |DirSlots(g, d, dir)| && (m >= 0 ==> DirSlots(g, d, dir)[m][11] != LONG)
    requires Fat(g, d3) == Fat(g, d2) && DataKept(g, d2, d3, dir)
    requires DirSlots(g, d3, dir) == Repointed(DirSlots(g, d, dir), m, t[0], |data|)
    ensures FileWritten(g, d, d3, chains, dir, m, s, t, data)
  {
    hide Fat, DiskOk, IsChain, DirSlots, Rooted, Apart, Carries;
    CarriesClusters(g, d2, t, data);
    ApartSym(t, dir);
    KeptIsSame(g, d2, d3, dir, t);
    CarriesFrame(g, d2, d3, t, data);
    forall u | u in chains && u != s && u != dir ensures SameData(g, d, d3, u) {
      FamilyMember(Fat(g, d), chains, dir, u);
      KeptIsSame(g, d2, d3, dir, u);
      SameTrans(g, d, d2, d3, u);
    }
  }

  /** From `d` to `d'` the working directory was written over: its chain became `t` and received `data`, which on
      disk `d2` is its slots. Slot `m` of those, none when -1, was then pointed at the directory itself. Every
      other chain holds what it held. */
  ghost predicate DirOverwritten(g: Geo, d: Disk, d2: Disk, d': Disk, chains: set<seq<nat>>, dir: seq<nat>, m: int,
                                 t: seq<nat>, data: seq<nat>)
  {
    && Mounted(g, d, chains, dir) && DiskOk(g, d2) && DiskOk(g, d') && |t| > 0 && dir <= t
    && Family(Fat(g, d'), chains - {dir} + {t}) && Carries(g, d2, t, data) && -1 <= m < |DirSlots(g, d2, t)|
    && DirSlots(g, d', t) == Repointed(DirSlots(g, d2, t), m, t[0], |data|)
    && forall u :: u in chains && u != dir ==> SameData(g, d, d', u)
  }

  lemma {:induction false} DirUpdated(g: Geo, d: Disk, d2: Disk, d3: Disk, chains: set<seq<nat>>, dir: seq<nat>, m: int,
                                      t: seq<nat>, data: seq<nat>)
    requires Mounted(g, d, chains, dir) && Pending(g, d, d2, chains, dir, t) && Carries(g, d2, t, data)
    requires DiskOk(g, d3) && -1 <= m < |DirSlots(g, d2, t)| && Fat(g, d3) == Fat(g, d2) && DataKept(g, d2, d3, t)
    requires DirSlots(g, d3, t) == Repointed(DirSlots(g, d2, t), m, t[0], |data|)
    ensures DirOverwritten(g, d, d2, d3, chains, dir, m, t, data)
  {
    hide Fat, DiskOk, IsChain, DirSlots, Rooted, Apart, Carries;
    CarriesClusters(g, d2, t, data);
    forall u | u in chains && u != dir ensures SameData(g, d, d3, u) {
      KeptIsSame(g, d2, d3, t, u);
      SameTrans(g, d, d2, d3, u);
    }
  }

  lemma CarriesClusters(g: Geo, d: Disk, t: seq<nat>, data: seq<nat>)
    requires Carries(g, d, t, data)
    ensures Clusters(g, t)
  {
  }

  lemma ApartSym(s: seq<nat>, t: seq<nat>)
    requires Apart(s, t)
    ensures Apart(t, s)
  {
  }
}
