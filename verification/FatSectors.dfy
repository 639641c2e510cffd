/** The sectors of a chain in file order, and the bytes they hold. */
module FatSectors {
  import opened Sequences
  import opened Arithmetic
  import opened FatDisk
  import opened FatChains

  ghost function ClusterSectors(g: Geo, c: nat): (r: seq<nat>)
    requires c >= 2
    ensures |r| == g.spc && forall i :: 0 <= i < g.spc ==> r[i] == g.ClusterSector(c) + i
  {
    seq(g.spc, (i: nat) => g.ClusterSector(c) + i)
  }

  ghost predicate Clusters(g: Geo, s: seq<nat>) { forall i :: 0 <= i < |s| ==> 2 <= s[i] < g.Limit() }

  ghost function SectorList(g: Geo, s: seq<nat>): (r: seq<nat>)
    requires Clusters(g, s)
  {
    if s == [] then [] else SectorList(g, s[..|s| - 1]) + ClusterSectors(g, s[|s| - 1])
  }

  lemma TimesStep(a: nat, b: nat)
    ensures Times(a + 1, b) == Times(a, b) + b && Times(0, b) == 0
  {
  }

  lemma TimesMono(a: nat, b: nat, n: nat)
    requires a <= b
    ensures Times(a, n) <= Times(b, n)
  {
    MulLe(a, b, n);
  }

  /** Position `i` of cluster `k` in the list. */
  lemma {:induction false} SectorListAt(g: Geo, s: seq<nat>, k: nat, i: nat)
    requires Clusters(g, s)
    ensures |SectorList(g, s)| == Times(|s|, g.spc)
    ensures k < |s| && i < g.spc ==>
              && Times(k, g.spc) + i < |SectorList(g, s)|
              && SectorList(g, s)[Times(k, g.spc) + i] == g.ClusterSector(s[k]) + i
    decreases |s|
  {
    hide Times;
    if s == [] {
      TimesStep(0, g.spc);
    } else {
      var n := |s| - 1;
      TimesStep(n, g.spc);
      SectorListAt(g, s[..n], k, i);
      if k < n { TimesMono(k + 1, n, g.spc); TimesStep(k, g.spc); }
    }
  }

  lemma {:induction false} SectorListAppend(g: Geo, s: seq<nat>, c: nat)
    requires Clusters(g, s) && 2 <= c < g.Limit()
    ensures SectorList(g, s + [c]) == SectorList(g, s) + ClusterSectors(g, c)
  {
    assert (s + [c])[..|s|] == s;
  }

  /** Sectors of the data area that belong to cluster `c`. */
  ghost predicate InCluster(g: Geo, c: nat, n: nat) { c >= 2 && g.ClusterSector(c) <= n < g.ClusterSector(c) + g.spc }

  lemma ClusterRange(g: Geo, c: nat, n: nat)
    requires 2 <= c < g.Limit() && InCluster(g, c, n)
    ensures g.firstData <= n < g.firstData + Times(g.total, g.spc)
  {
    TimesMono(c - 1, g.total, g.spc);
    TimesStep(c - 2, g.spc);
    hide Times;
  }

  /** Different clusters have different sectors. */
  lemma ClustersApart(g: Geo, c: nat, e: nat, n: nat)
    requires InCluster(g, c, n) && InCluster(g, e, n)
    ensures c == e
  {
    TimesStep(c - 2, g.spc);
    TimesStep(e - 2, g.spc);
    if c < e { TimesMono(c - 1, e - 2, g.spc); }
    if e < c { TimesMono(e - 1, c - 2, g.spc); }
    hide Times;
  }

  lemma {:induction false} SectorListMembers(g: Geo, s: seq<nat>, n: nat)
    requires Clusters(g, s)
    ensures n in SectorList(g, s) <==> exists i :: 0 <= i < |s| && InCluster(g, s[i], n)
    decreases |s|
  {
    if s != [] {
      var k := |s| - 1;
      SectorListMembers(g, s[..k], n);
      var last := ClusterSectors(g, s[k]);
      assert n in last <==> InCluster(g, s[k], n) by {
        if InCluster(g, s[k], n) { assert last[n - g.ClusterSector(s[k])] == n; }
      }
      assert n in SectorList(g, s) <==> n in SectorList(g, s[..k]) || n in last;
      if i :| 0 <= i < |s| && InCluster(g, s[i], n) { assert i < k ==> s[..k][i] == s[i]; }
    }
  }

  /** The list's sectors lie in the data area. */
  lemma SectorListRange(g: Geo, s: seq<nat>, n: nat)
    requires Clusters(g, s) && n in SectorList(g, s)
    ensures g.firstData <= n < g.firstData + Times(g.total, g.spc)
  {
    SectorListMembers(g, s, n);
    var i :| 0 <= i < |s| && InCluster(g, s[i], n);
    ClusterRange(g, s[i], n);
  }

  lemma OwnCluster(g: Geo, s: seq<nat>, n: nat) returns (c: nat)
    requires Clusters(g, s) && n in SectorList(g, s)
    ensures c in s && 2 <= c < g.Limit() && InCluster(g, c, n)
  {
    SectorListMembers(g, s, n);
    var i :| 0 <= i < |s| && InCluster(g, s[i], n);
    c := s[i];
  }

  /** Chains without common clusters have no common sectors. */
  lemma ListsApart(g: Geo, s: seq<nat>, t: seq<nat>)
    requires Clusters(g, s) && Clusters(g, t) && Apart(s, t)
    ensures Apart(SectorList(g, s), SectorList(g, t))
  {
    hide InCluster, SectorList, Times;
    forall n | n in SectorList(g, s) ensures n !in SectorList(g, t) {
      var c := OwnCluster(g, s, n);
      if n in SectorList(g, t) {
        var e := OwnCluster(g, t, n);
        ClustersApart(g, c, e, n);
      }
    }
  }

  lemma {:induction false} SectorListDistinct(g: Geo, s: seq<nat>)
    requires Clusters(g, s) && Distinct(s)
    ensures Distinct(SectorList(g, s))
    decreases |s|
  {
    hide Times;
    if s != [] {
      var k := |s| - 1;
      var a, b := SectorList(g, s[..k]), ClusterSectors(g, s[k]);
      SectorListDistinct(g, s[..k]);
      forall n | n in a ensures n !in b {
        SectorListMembers(g, s[..k], n);
        var i :| 0 <= i < k && InCluster(g, s[..k][i], n);
        if n in b {
          ClustersApart(g, s[i], s[k], n);
        }
      }
      DistinctConcat(a, b);
    }
  }

  lemma DistinctConcat(a: seq<nat>, b: seq<nat>)
    requires Distinct(a) && Distinct(b) && Apart(a, b)
    ensures Distinct(a + b)
  {
    var c := a + b;
    forall i, j | 0 <= i < |c| && 0 <= j < |c| && c[i] == c[j] ensures i == j {
      assert i < |a| ==> c[i] in a;
      assert j < |a| ==> c[j] in a;
      assert i >= |a| ==> c[i] == b[i - |a|] && c[i] in b;
      assert j >= |a| ==> c[j] == b[j - |a|] && c[j] in b;
    }
  }

  // ---- bytes -------------------------------------------------------------------------------------

  ghost predicate OnDisk(d: Disk, secs: seq<nat>) {
    forall i :: 0 <= i < |secs| ==> secs[i] < |d| && |d[secs[i]]| == 512
  }

  /** Byte `b` of the sectors taken in order. */
  ghost function ByteAt(d: Disk, secs: seq<nat>, b: nat): nat
    requires OnDisk(d, secs) && b < |secs| * 512
  {
    d[secs[b / 512]][b % 512]
  }

  /** The first `n` bytes of the sectors taken in order. */
  ghost function Stored(d: Disk, secs: seq<nat>, n: nat): (r: seq<nat>)
    requires OnDisk(d, secs) && n <= |secs| * 512
    ensures |r| == n && forall b :: 0 <= b < n ==> r[b] == ByteAt(d, secs, b)
  {
    seq(n, b requires 0 <= b < n => ByteAt(d, secs, b))
  }

  lemma ListOnDisk(g: Geo, d: Disk, s: seq<nat>)
    requires DiskOk(g, d) && Clusters(g, s)
    ensures OnDisk(d, SectorList(g, s))
  {
    var secs := SectorList(g, s);
    forall i | 0 <= i < |secs| ensures secs[i] < |d| && |d[secs[i]]| == 512 {
      SectorListRange(g, s, secs[i]);
      assert SectorOk(d[secs[i]]);
    }
  }

  /** Bytes depend on their sectors only. */
  lemma StoredFrame(d: Disk, d': Disk, secs: seq<nat>, n: nat)
    requires OnDisk(d, secs) && |d'| == |d| && n <= |secs| * 512
    requires forall k :: k in secs && k < |d| ==> d'[k] == d[k]
    ensures OnDisk(d', secs) && Stored(d', secs, n) == Stored(d, secs, n)
  {
    assert forall i :: 0 <= i < |secs| ==> secs[i] in secs;
  }

  /** A longer list starts with the same bytes. */
  lemma StoredPrefix(d: Disk, secs: seq<nat>, more: seq<nat>, n: nat)
    requires OnDisk(d, secs + more) && n <= |secs| * 512
    ensures OnDisk(d, secs) && Stored(d, secs + more, n) == Stored(d, secs, n)
  {
    forall i | 0 <= i < |secs| ensures secs[i] < |d| && |d[secs[i]]| == 512 { assert (secs + more)[i] == secs[i]; }
  }

  lemma {:induction false} SectorListPrefix(g: Geo, s: seq<nat>, k: nat)
    requires Clusters(g, s) && k <= |s|
    ensures Clusters(g, s[..k]) && SectorList(g, s[..k]) <= SectorList(g, s)
    decreases |s|
  {
    hide Times;
    if k == |s| {
      assert s[..k] == s;
    } else {
      var m := |s| - 1;
      SectorListPrefix(g, s[..m], k);
      assert s[..m][..k] == s[..k];
    }
  }

  // ---- chunks ------------------------------------------------------------------------------------

  ghost predicate Bytes(s: seq<nat>) { forall i :: 0 <= i < |s| ==> s[i] < 0x100 }

  /** Sector `n` holds the part of `data` that belongs to position `j`. */
  ghost predicate Holds(sec: Sector, data: seq<nat>, j: nat) {
    |sec| == 512 && forall b: nat :: b < 512 && j * 512 + b < |data| ==> sec[b] == data[j * 512 + b]
  }

  lemma HeldIsStored(d: Disk, secs: seq<nat>, data: seq<nat>)
    requires OnDisk(d, secs) && |data| <= |secs| * 512
    requires forall j: nat :: j < |secs| && j * 512 < |data| ==> Holds(d[secs[j]], data, j)
    ensures Stored(d, secs, |data|) == data
  {
    forall b: nat | b < |data| ensures ByteAt(d, secs, b) == data[b] {
      var j := b / 512;
      assert j < |secs| && j * 512 + b % 512 == b;
      assert Holds(d[secs[j]], data, j);
    }
  }

  /** Whole sectors followed by more sectors. */
  lemma StoredConcat(d: Disk, a: seq<nat>, b: seq<nat>, x: seq<nat>, y: seq<nat>)
    requires OnDisk(d, a) && OnDisk(d, b) && |x| == |a| * 512 && |y| <= |b| * 512
    requires Stored(d, a, |x|) == x && Stored(d, b, |y|) == y
    ensures OnDisk(d, a + b) && Stored(d, a + b, |x| + |y|) == x + y
  {
    forall i: nat | i < |x| + |y| ensures ByteAt(d, a + b, i) == (x + y)[i] {
      if i < |x| {
        assert ByteAt(d, a, i) == x[i];
        assert i / 512 < |a|;
      } else {
        var k := i - |x|;
        assert ByteAt(d, b, k) == y[k];
        ModUnique(i, 512, |a| + k / 512, k % 512);
      }
    }
  }

  /** The table depends on the sectors before the data area only. */
  lemma FatFrame(g: Geo, d: Disk, d': Disk)
    requires DiskOk(g, d) && DiskOk(g, d')
    requires forall n :: 0 <= n < g.firstData && n < |d| && n < |d'| ==> d'[n] == d[n]
    ensures Fat(g, d') == Fat(g, d)
  {
    forall c: nat | c < g.Limit() ensures Word(g, d', c) == Word(g, d, c) { FatPlace(g, c); }
    hide Word, DiskOk;
  }
}
