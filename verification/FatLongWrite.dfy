/** `fat32_write_file` on a name that resolves by its long form. The code updates the first slot with the
    name's 8.3 form, which need not be the slot it found: when the written file then reads back, when the
    other files of the directory keep reading, and a directory where neither holds. */
module FatLongWrite {
  import opened Arithmetic
  import opened FatDisk
  import opened FatChains
  import opened FatSectors
  import opened FatVolume
  import opened FatDir
  import opened FatScan
  import opened FatFiles
  import opened FatReadWrite

  // ---- reading back ----------------------------------------------------------------------------------------

  function Most(a: nat, b: nat): nat { if a < b then b else a }

  /** Clusters that hold `n` bytes. */
  function ClustersFor(g: Geo, n: nat): nat
    requires g.spc >= 1
  {
    (n + g.spc * 512 - 1) / (g.spc * 512)
  }

  /** Bytes that fit the chain `s` once `n` bytes have been written to it. */
  function Room(g: Geo, s: seq<nat>, n: nat): nat
    requires g.spc >= 1
  {
    Times(Most(|s|, ClustersFor(g, n)), g.spc) * 512
  }

  lemma {:induction false} ClustersForUnique(g: Geo, n: nat, c: nat)
    requires g.spc >= 1 && c >= 1 && Times(c - 1, g.spc) * 512 < n <= Times(c, g.spc) * 512
    ensures ClustersFor(g, n) == c
  {
    var b := g.spc * 512;
    TimesStep(c - 1, g.spc);
    assert Times(c, g.spc) * 512 == c * b;
    ModUnique(n + b - 1, b, c, n + b - 1 - c * b);
  }

  lemma {:induction false} ClustersForLeast(g: Geo, n: nat, c: nat)
    requires g.spc >= 1 && n <= Times(c, g.spc) * 512
    ensures ClustersFor(g, n) <= c
  {
    var b, q := g.spc * 512, ClustersFor(g, n);
    assert Times(c, g.spc) * 512 == c * b;
    assert (c + 1) * b == c * b + b;
    if q > c { MulLe(c + 1, q, b); }
  }

  /** How much the written chain holds is known before the write. */
  lemma {:induction false} RoomIs(g: Geo, d: Disk, s: seq<nat>, t: seq<nat>, data: seq<nat>)
    requires Carries(g, d, t, data) && s != [] && s <= t && Snug(g, s, t, |data|)
    ensures |SectorList(g, t)| * 512 == Room(g, s, |data|)
  {
    SectorListAt(g, t, 0, 0);
    hide Times, ClustersFor;
    if |t| > |s| {
      ClustersForUnique(g, |data|, |t|);
    } else {
      ClustersForLeast(g, |data|, |t|);
    }
  }

  /** Reading `size` bytes of the file slot `e` describes, chain `s`, after `n` bytes were written to it
      without updating the slot, gives what was written. */
  predicate KeepsUp(g: Geo, e: Slot, s: seq<nat>, n: nat, size: nat)
    requires g.spc >= 1 && |e| == 32
  {
    if s == [] then Least(size, n) == 0
    else Least(Least(size, FileSize(e)), Room(g, s, n)) == Least(size, n)
  }

  /** The slot found is another one than the slot updated: reading the name returns the bytes written
      if and only if its old size happens to say so. */
  lemma {:induction false} LongReadBack(g: Geo, d: Disk, d': Disk, chains: set<seq<nat>>, dir: seq<nat>, k: nat, m: int,
                                        s: seq<nat>, t: seq<nat>, data: seq<nat>, junk: seq<nat>, name: seq<nat>,
                                        size: nat)
    requires FileWritten(g, d, d', chains, dir, m, s, t, data) && |data| < 0x8000_0000 && |junk| == LFN_BUFFER
    requires Lookup(DirSlots(g, d, dir), junk, name) == k != m
    requires StartOf(DirSlots(g, d, dir)[k], s) && Snug(g, s, t, |data|)
    ensures var n := Least(size, |data|);
            Reads(g, d', dir, junk, name, size, n, data[..n]) <==> KeepsUp(g, DirSlots(g, d, dir)[k], s, |data|, size)
  {
    var n, e := Least(size, |data|), DirSlots(g, d, dir)[k];
    WrittenSlots(g, d, d', chains, dir, m, s, t, data, junk, name);
    assert DirSlots(g, d', dir)[k] == e;
    if s == [] {
      assert SlotReads(g, d', e, size, 0, []);
      if SlotReads(g, d', e, size, n, data[..n]) { SlotReadsOnce(g, d', e, size, 0, [], n, data[..n]); }
    } else {
      ChainReads(g, d, d', chains, dir, m, s, t, data, e, size);
      RoomIs(g, d', s, t, data);
      var out := Prefix(g, d', t, Least(size, FileSize(e)));
      hide FileWritten, DirSlots, SlotReads, FirstCluster, FileSize, Room, Lookup;
      if SlotReads(g, d', e, size, n, data[..n]) { SlotReadsOnce(g, d', e, size, AsInt(|out|), out, n, data[..n]); }
      if |out| == n { PartRead(g, d', t, data, Least(size, FileSize(e)), n); }
    }
  }

  lemma PartRead(g: Geo, d: Disk, t: seq<nat>, data: seq<nat>, size: nat, n: nat)
    requires Carries(g, d, t, data) && n <= |data| && n == |Prefix(g, d, t, size)|
    ensures Prefix(g, d, t, size) == data[..n]
  {
    CarriesPart(g, d, t, data, n);
  }

  /** For a file whose size fits its chain: if and only if the old size and the new length cut the read alike. */
  lemma {:induction false} FittingSize(g: Geo, e: Slot, s: seq<nat>, n: nat, size: nat)
    requires g.spc >= 1 && |e| == 32 && s != [] && FileSize(e) <= Times(|s|, g.spc) * 512
    ensures KeepsUp(g, e, s, n, size) <==> Least(size, FileSize(e)) == Least(size, n)
  {
    TimesMono(|s|, Most(|s|, ClustersFor(g, n)), g.spc);
  }

  /** Whatever the directory: a file that was written reads back if and only if the slot found is the first
      with the name's 8.3 form, or its old contents say so. */
  lemma {:induction false} ReadBackIff(g: Geo, d: Disk, d': Disk, chains: set<seq<nat>>, dir: seq<nat>, k: nat, m: int,
                                       s: seq<nat>, t: seq<nat>, data: seq<nat>, junk: seq<nat>, name: seq<nat>,
                                       size: nat)
    requires FileWritten(g, d, d', chains, dir, m, s, t, data) && |data| < 0x8000_0000 && |junk| == LFN_BUFFER
    requires Lookup(DirSlots(g, d, dir), junk, name) == k && First(DirSlots(g, d, dir), Named(Name83(name)), m)
    requires StartOf(DirSlots(g, d, dir)[k], s) && Snug(g, s, t, |data|)
    ensures var n := Least(size, |data|);
            Reads(g, d', dir, junk, name, size, n, data[..n]) <==>
            First(DirSlots(g, d, dir), Named(Name83(name)), k) || KeepsUp(g, DirSlots(g, d, dir)[k], s, |data|, size)
  {
    if k == m {
      ReadBack(g, d, d', chains, dir, k, s, t, data, junk, name, size);
    } else {
      LongReadBack(g, d, d', chains, dir, k, m, s, t, data, junk, name, size);
    }
  }

  // ---- the other files of the directory --------------------------------------------------------------------

  /** Slot `j` describes another file than slot `k`, whose chain is `s`. */
  ghost predicate Sibling(slots: seq<Slot>, k: nat, dir: seq<nat>, s: seq<nat>, j: nat)
    requires IsDir(slots) && |dir| > 0
  {
    && j < |slots| && j != k && Live(slots[j]) && FirstCluster(slots[j]) != dir[0]
    && (s != [] ==> FirstCluster(slots[j]) != s[0])
  }

  /** The other files of the directory read as before. */
  ghost predicate SiblingsKept(g: Geo, d: Disk, d': Disk, dir: seq<nat>, k: nat, s: seq<nat>)
    requires DiskOk(g, d) && DiskOk(g, d') && Clusters(g, dir) && |dir| > 0
    requires |DirSlots(g, d', dir)| == |DirSlots(g, d, dir)|
  {
    forall j: nat, size, r, out ::
      Sibling(DirSlots(g, d, dir), k, dir, s, j) && SlotReads(g, d, DirSlots(g, d, dir)[j], size, r, out) ==>
        SlotReads(g, d', DirSlots(g, d', dir)[j], size, r, out)
  }

  /** The file slot `e` describes is `data`. */
  ghost predicate Describes(g: Geo, d: Disk, e: Slot, data: seq<nat>)
    requires DiskOk(g, d) && |e| == 32
  {
    forall size: nat :: SlotReads(g, d, e, size, Least(size, |data|), data[..Least(size, |data|)])
  }

  lemma {:induction false} HasReading(g: Geo, d: Disk, chains: set<seq<nat>>, dir: seq<nat>, j: nat, size: nat)
    returns (r: int, out: seq<nat>)
    requires Mounted(g, d, chains, dir) && j < |DirSlots(g, d, dir)| && Live(DirSlots(g, d, dir)[j])
    ensures SlotReads(g, d, DirSlots(g, d, dir)[j], size, r, out)
  {
    var e := DirSlots(g, d, dir)[j];
    r, out := 0, [];
    if FirstCluster(e) != 0 {
      var u := OwnerOf(g, d, chains, dir, j);
      GrewClusters(g, Fat(g, d), u);
      ListOnDisk(g, d, u);
      out := Prefix(g, d, u, Least(size, FileSize(e)));
      r := AsInt(|out|);
      assert Content(g, d, u, FirstCluster(e), Least(size, FileSize(e)), out);
    }
  }

  /** A write leaves the other files of the directory readable as they were if and only if the slot it
      updates is none, the one found, one that was not another file, or one that already held those bytes. */
  lemma {:induction false} SiblingsIff(g: Geo, d: Disk, d': Disk, chains: set<seq<nat>>, dir: seq<nat>, k: nat, m: int,
                                       s: seq<nat>, t: seq<nat>, data: seq<nat>)
    requires FileWritten(g, d, d', chains, dir, m, s, t, data) && |data| < 0x8000_0000
    ensures |DirSlots(g, d', dir)| == |DirSlots(g, d, dir)| && |dir| > 0
    ensures SiblingsKept(g, d, d', dir, k, s) <==>
            m == -1 || !Sibling(DirSlots(g, d, dir), k, dir, s, m) || Describes(g, d, DirSlots(g, d, dir)[m], data)
  {
    MountedFacts(g, d, chains, dir);
    var a, b := DirSlots(g, d, dir), DirSlots(g, d', dir);
    hide DirSlots, SlotReads, FirstCluster, Repointed, Carries, Family, Rooted, Fat, DiskOk, IsChain;
    if m >= 0 && Sibling(a, k, dir, s, m) {
      SiblingRedirected(g, d, d', chains, dir, k, m, s, t, data);
    }
    if m == -1 || !Sibling(a, k, dir, s, m) || Describes(g, d, a[m], data) {
      forall j: nat, size, r, out | Sibling(a, k, dir, s, j) && SlotReads(g, d, a[j], size, r, out)
        ensures SlotReads(g, d', b[j], size, r, out)
      {
        if j == m {
          RepointedReads(g, d, d', chains, dir, m, s, t, data, size);
          SlotReadsOnce(g, d, a[m], size, r, out, Least(size, |data|), data[..Least(size, |data|)]);
        } else {
          OthersRead(g, d, d', chains, dir, m, s, t, data, dir, j, size, r, out);
        }
      }
    }
  }

  /** Another file in the updated slot reads as before only if it held the bytes already. */
  lemma {:induction false} SiblingRedirected(g: Geo, d: Disk, d': Disk, chains: set<seq<nat>>, dir: seq<nat>, k: nat,
          m: nat, s: seq<nat>, t: seq<nat>, data: seq<nat>)
    requires FileWritten(g, d, d', chains, dir, m, s, t, data) && |data| < 0x8000_0000 && |dir| > 0
    requires Sibling(DirSlots(g, d, dir), k, dir, s, m)
    ensures |DirSlots(g, d', dir)| == |DirSlots(g, d, dir)|
    ensures SiblingsKept(g, d, d', dir, k, s) ==> Describes(g, d, DirSlots(g, d, dir)[m], data)
  {
    var a, b := DirSlots(g, d, dir), DirSlots(g, d', dir);
    hide DirSlots, SlotReads, FirstCluster, Repointed, Carries, Family, Rooted, Fat, DiskOk, IsChain;
    if SiblingsKept(g, d, d', dir, k, s) {
      forall size: nat ensures SlotReads(g, d, a[m], size, Least(size, |data|), data[..Least(size, |data|)]) {
        var n := Least(size, |data|);
        var r, out := HasReading(g, d, chains, dir, m, size);
        RepointedReads(g, d, d', chains, dir, m, s, t, data, size);
        SlotReadsOnce(g, d', b[m], size, r, out, n, data[..n]);
      }
    }
  }
}
