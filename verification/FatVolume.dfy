/** The mounted volume: table entries, cluster reads and writes, and whole chains. */
module FatVolume {
  import opened Sequences
  import opened Arithmetic
  import opened FatDisk
  import opened FatChains
  import opened FatSectors

  /** Every cluster is in use. */
  ghost predicate Full(f: seq<nat>) { forall c :: 2 <= c < |f| ==> f[c] != 0 }

  /** Going from `f` to `f'` only the chain `s` grew, to `s'`, by clusters that were free. */
  ghost predicate Grew(f: seq<nat>, f': seq<nat>, s: seq<nat>, s': seq<nat>) {
    && |f'| == |f| && s <= s' && IsChain(f', s')
    && (forall c :: 0 <= c < |f| && c !in s' ==> f'[c] == f[c])
    && (forall c :: 0 <= c < |f| && c in s' && c !in s ==> f[c] == 0)
  }

  lemma GrewClusters(g: Geo, f: seq<nat>, s: seq<nat>)
    requires IsChain(f, s) && |f| == g.Limit()
    ensures Clusters(g, s)
  {
    forall i | 0 <= i < |s| ensures 2 <= s[i] < g.Limit() { assert Link(f, s, i); }
  }

  /** A chain apart from a growing one stays a chain, and apart. */
  lemma GrewOther(f: seq<nat>, f': seq<nat>, s: seq<nat>, s': seq<nat>, t: seq<nat>)
    requires Grew(f, f', s, s') && IsChain(f, t) && Apart(s, t)
    ensures IsChain(f', t) && Apart(s', t)
  {
    forall c | c in s' ensures c !in t {
      if c in t { ChainBusy(f, t, c); }
    }
    ChainFrame(f, f', t);
  }

  lemma GrewStep(f: seq<nat>, f1: seq<nat>, s: seq<nat>, t: seq<nat>, n: nat)
    requires Grew(f, f1, s, t) && 2 <= n < |f1| < EOC && f1[n] == 0
    ensures t[|t| - 1] < |f1| && n !in t && Grew(f, Appended(f1, t, n), s, t + [n])
  {
    AppendChain(f1, t, n);
    var k := |t| - 1;
    assert t[k] in t;
    var f2 := Appended(f1, t, n);
    forall c | 0 <= c < |f| && c !in t + [n] ensures f2[c] == f[c] { assert c !in t && c != n; }
    forall c | 0 <= c < |f| && c in t + [n] && c !in s ensures f[c] == 0 { assert c in t || c == n; }
  }

  /** A chain that grew from `s` to `t` needs its last cluster to hold `n` bytes. */
  ghost predicate Tight(g: Geo, s: seq<nat>, t: seq<nat>, n: nat) {
    |t| > |s| ==> Times(|t| - 1, g.spc) * 512 < n
  }

  /** Data sectors outside the chain are as before. */
  ghost predicate DataKept(g: Geo, d: Disk, d': Disk, t: seq<nat>)
    requires Clusters(g, t)
  {
    |d'| == |d| && forall n :: g.firstData <= n < |d| && n !in SectorList(g, t) ==> d'[n] == d[n]
  }

  /** The first `i` clusters of the chain hold `data`, filling them. */
  ghost predicate Filled(g: Geo, d: Disk, t: seq<nat>, i: nat, data: seq<nat>) {
    && i <= |t| && DiskOk(g, d) && Clusters(g, t[..i]) && OnDisk(d, SectorList(g, t[..i]))
    && |data| == |SectorList(g, t[..i])| * 512
    && Stored(d, SectorList(g, t[..i]), |data|) == data
  }

  /** The chain's sectors hold `data` from their start. */
  ghost predicate Carries(g: Geo, d: Disk, t: seq<nat>, data: seq<nat>) {
    && DiskOk(g, d) && Clusters(g, t) && OnDisk(d, SectorList(g, t))
    && |data| <= |SectorList(g, t)| * 512
    && Stored(d, SectorList(g, t), |data|) == data
  }

  /** The chain is full of the first bytes of `data`, and more were to come. */
  ghost predicate FilledUp(g: Geo, d: Disk, t: seq<nat>, data: seq<nat>) {
    Times(|t|, g.spc) * 512 < |data| && Carries(g, d, t, data[..Times(|t|, g.spc) * 512])
  }

  lemma FilledLength(g: Geo, d: Disk, t: seq<nat>, i: nat, data: seq<nat>)
    requires Filled(g, d, t, i, data)
    ensures |data| == Times(i, g.spc) * 512
  {
    SectorListAt(g, t[..i], 0, 0);
  }

  lemma CarriesFrame(g: Geo, d: Disk, d': Disk, t: seq<nat>, data: seq<nat>)
    requires Carries(g, d, t, data) && DiskOk(g, d') && |d'| == |d|
    requires forall n :: n in SectorList(g, t) && n < |d| ==> d'[n] == d[n]
    ensures Carries(g, d', t, data)
  {
    StoredFrame(d, d', SectorList(g, t), |data|);
  }

  lemma CarriesPrefix(g: Geo, d: Disk, t: seq<nat>, i: nat, data: seq<nat>)
    requires DiskOk(g, d) && Clusters(g, t) && i <= |t| && Carries(g, d, t[..i], data)
    ensures Carries(g, d, t, data)
  {
    SectorListPrefix(g, t, i);
    ListOnDisk(g, d, t);
    var a, b := SectorList(g, t[..i]), SectorList(g, t);
    assert b == a + b[|a|..];
    StoredPrefix(d, a, b[|a|..], |data|);
  }

  /** Writing cluster `i` after the clusters before it are filled. */
  lemma {:induction false} ClusterWritten(g: Geo, d: Disk, d': Disk, t: seq<nat>, i: nat, x: seq<nat>, y: seq<nat>)
    requires Filled(g, d, t, i, x) && DiskOk(g, d') && |d'| == |d|
    requires i < |t| && Clusters(g, t) && Distinct(t) && |y| <= g.spc * 512
    requires forall n :: 0 <= n < |d| && n !in ClusterSectors(g, t[i]) ==> d'[n] == d[n]
    requires OnDisk(d', ClusterSectors(g, t[i])) && Stored(d', ClusterSectors(g, t[i]), |y|) == y
    ensures Carries(g, d', t[..i + 1], x + y)
    ensures |y| == g.spc * 512 ==> Filled(g, d', t, i + 1, x + y)
  {
    hide Times, DiskOk, ClusterSectors;
    var a, b := SectorList(g, t[..i]), ClusterSectors(g, t[i]);
    SectorListAppend(g, t[..i], t[i]);
    assert t[..i] + [t[i]] == t[..i + 1];
    SectorListAppend(g, [], t[i]);
    assert [] + [t[i]] == [t[i]] && SectorList(g, [t[i]]) == b;
    ListsApart(g, t[..i], [t[i]]);
    StoredFrame(d, d', a, |x|);
    StoredConcat(d', a, b, x, y);
  }

  lemma KeptCluster(g: Geo, d: Disk, d1: Disk, d2: Disk, t: seq<nat>, i: nat)
    requires Clusters(g, t) && i < |t| && DataKept(g, d, d1, t) && |d2| == |d1|
    requires forall n :: 0 <= n < |d1| && n !in ClusterSectors(g, t[i]) ==> d2[n] == d1[n]
    ensures DataKept(g, d, d2, t)
  {
    forall n | g.firstData <= n < |d| && n !in SectorList(g, t) ensures d2[n] == d[n] {
      SectorListMembers(g, t, n);
      if n in ClusterSectors(g, t[i]) { assert InCluster(g, t[i], n); }
    }
  }

  lemma KeptLonger(g: Geo, d: Disk, d1: Disk, d2: Disk, t: seq<nat>, t': seq<nat>)
    requires Clusters(g, t) && Clusters(g, t') && t <= t' && DataKept(g, d, d1, t) && |d2| == |d1|
    requires forall n :: g.firstData <= n < |d1| ==> d2[n] == d1[n]
    ensures DataKept(g, d, d2, t')
  {
    SectorListPrefix(g, t', |t|);
    assert t'[..|t|] == t;
    var a, b := SectorList(g, t), SectorList(g, t');
    assert forall n :: n in a ==> n in b;
  }

  lemma StartWriting(g: Geo, d: Disk, t: seq<nat>)
    requires DiskOk(g, d) && IsChain(Fat(g, d), t)
    ensures Grew(Fat(g, d), Fat(g, d), t, t) && Clusters(g, t) && DataKept(g, d, d, t)
    ensures Filled(g, d, t, 0, []) && Carries(g, d, t, [])
  {
    GrewClusters(g, Fat(g, d), t);
    ListOnDisk(g, d, t);
    assert t[..0] == [];
  }

  lemma FilledFrame(g: Geo, d: Disk, d': Disk, t: seq<nat>, t': seq<nat>, i: nat, x: seq<nat>)
    requires Filled(g, d, t, i, x) && DiskOk(g, d') && |d'| == |d| && t <= t'
    requires forall n :: g.firstData <= n < |d| ==> d'[n] == d[n]
    ensures Filled(g, d', t', i, x)
  {
    hide Times, DiskOk;
    assert t'[..i] == t[..i];
    var a := SectorList(g, t[..i]);
    forall n | n in a && n < |d| ensures d'[n] == d[n] { SectorListRange(g, t[..i], n); }
    StoredFrame(d, d', a, |x|);
  }

  class Volume {
    const g: Geo
    var disk: Disk
    var cwd: nat

    ghost predicate Valid()
      reads this
    {
      DiskOk(g, disk)
    }

    ghost function Table(): seq<nat>
      requires Valid()
      reads this
    {
      Fat(g, disk)
    }

    method FatReadEntry(c: nat) returns (v: nat)
      requires Valid() && c < g.Limit()
      ensures v == Table()[c]
    {
      FatPlace(g, c);
      var sector := disk[FatSector(g, c)];
      assert SectorOk(sector);
      v := Le32(sector, FatOffset(c)) % 0x1000_0000;
    }

    method FatWriteEntry(c: nat, value: nat)
      requires Valid() && c < g.Limit()
      modifies `disk
      ensures Valid() && disk == WithEntry(g, old(disk), c, value)
      ensures |disk| == |old(disk)| && Table() == old(Table())[c := value % 0x1000_0000]
      ensures forall n :: g.firstData <= n < |disk| ==> disk[n] == old(disk)[n]
    {
      FatPlace(g, c);
      EntryWritten(g, disk, c, value);
      var sector := disk[FatSector(g, c)];
      assert SectorOk(sector);
      var word := Le32(sector, FatOffset(c));
      disk := disk[FatSector(g, c) := Patch(sector, FatOffset(c), Bytes32(Merge28(word, value)))];
    }

    method FatFindFree() returns (c: nat)
      requires Valid()
      ensures c == 0 ==> Full(Table())
      ensures c != 0 ==> 2 <= c < g.Limit() && Table()[c] == 0 && forall e :: 2 <= e < c ==> Table()[e] != 0
    {
      c := 2;
      while c < g.Limit()
        invariant 2 <= c <= g.Limit() && forall e :: 2 <= e < c ==> Table()[e] != 0
      {
        var v := FatReadEntry(c);
        if v == 0 { return; }
        c := c + 1;
      }
      c := 0;
    }

    // ---- one cluster -----------------------------------------------------------------------------

    method WriteSector(n: nat, data: Sector)
      requires Valid() && g.firstData <= n < |disk| && SectorOk(data)
      modifies `disk
      ensures Valid() && disk == old(disk)[n := data] && Table() == old(Table())
    {
      disk := disk[n := data];
      FatFrame(g, old(disk), disk);
    }

    /** The `j`-th sector of `data`, padded with what sector `n` holds. */
    method WritePiece(n: nat, data: seq<nat>, j: nat)
      requires Valid() && g.firstData <= n < |disk| && Bytes(data) && j * 512 < |data|
      modifies `disk
      ensures Valid() && |disk| == |old(disk)| && Table() == old(Table())
      ensures disk == old(disk)[n := disk[n]] && Holds(disk[n], data, j)
    {
      hide Times;
      if j * 512 + 512 <= |data| {
        WriteSector(n, data[j * 512..j * 512 + 512]);
      } else {
        var tmp := disk[n];
        assert SectorOk(tmp);
        WriteSector(n, data[j * 512..] + tmp[|data| - j * 512..]);
      }
    }

    method WriteCluster(c: nat, data: seq<nat>)
      requires Valid() && 2 <= c < g.Limit() && |data| <= g.spc * 512 && Bytes(data)
      modifies `disk
      ensures Valid() && |disk| == |old(disk)| && Table() == old(Table())
      ensures forall n :: 0 <= n < |disk| && n !in ClusterSectors(g, c) ==> disk[n] == old(disk)[n]
      ensures OnDisk(disk, ClusterSectors(g, c)) && Stored(disk, ClusterSectors(g, c), |data|) == data
    {
      ghost var secs := ClusterSectors(g, c);
      SingleList(g, disk, c);
      var sector, s := g.ClusterSector(c), 0;
      hide Times, Fat, DiskOk, Holds, ClusterSectors, Geo.ClusterSector;
      while s * 512 < |data|
        invariant s * 512 <= |data| + 511
        invariant Valid() && |disk| == |old(disk)| && Table() == old(Table())
        invariant forall n :: 0 <= n < |disk| && n !in secs ==> disk[n] == old(disk)[n]
        invariant forall j: nat :: j < s && j * 512 < |data| ==> Holds(disk[secs[j]], data, j)
        decreases |data| - s * 512
      {
        assert secs[s] == sector + s && secs[s] in secs;
        WritePiece(sector + s, data, s);
        s := s + 1;
      }
      SingleList(g, disk, c);
      HeldIsStored(disk, secs, data);
    }

    // ---- whole chains ----------------------------------------------------------------------------

    method AppendCluster(c: nat, free: nat, ghost s: seq<nat>, ghost t: seq<nat>, ghost f: seq<nat>)
      requires Valid() && Grew(f, Table(), s, t) && t[|t| - 1] == c
      requires 2 <= free < g.Limit() && Table()[free] == 0
      modifies `disk
      ensures Valid() && |disk| == |old(disk)| && Grew(f, Table(), s, t + [free])
      ensures forall n :: g.firstData <= n < |disk| ==> disk[n] == old(disk)[n]
    {
      GrewStep(f, Table(), s, t, free);
      assert free % 0x1000_0000 == free;
      hide Times, Fat, DiskOk, Grew, IsChain, WithEntry;
      FatWriteEntry(c, free);
      FatWriteEntry(free, LAST);
    }

    /** The cluster after the `i`-th of the chain, appended from the free clusters when there is none. */
    method NextCluster(c: nat, ghost s: seq<nat>, ghost t: seq<nat>, ghost i: nat, ghost f: seq<nat>)
      returns (next: nat, ghost t': seq<nat>)
      requires Valid() && Grew(f, Table(), s, t) && i < |t| && t[i] == c
      modifies `disk
      ensures Valid() && |disk| == |old(disk)| && Grew(f, Table(), s, t') && t <= t'
      ensures forall n :: g.firstData <= n < |disk| ==> disk[n] == old(disk)[n]
      ensures next == 0 ==> Full(Table()) && t' == t && i + 1 == |t| && disk == old(disk)
      ensures next != 0 ==> i + 1 < |t'| && t'[i + 1] == next
      ensures t' == t || |t'| == i + 2
    {
      t' := t;
      ChainNext(Table(), t, i);
      hide Times, Fat, DiskOk, Grew, IsChain;
      next := FatReadEntry(c);
      if next == 0 || next >= EOC {
        next := FatFindFree();
        if next != 0 {
          AppendCluster(c, next, s, t, f);
          t' := t + [next];
        }
      }
    }

    /** Writes `buffer` along the chain `s`, growing it to `t`. Nothing else in the data area or the
        table changes. It fails only when the volume is full, and then the chain holds as much as it can. */
    method WriteChain(start: nat, buffer: seq<nat>, ghost s: seq<nat>) returns (r: int, ghost t: seq<nat>)
      requires Valid() && IsChain(Table(), s) && s[0] == start
      requires Bytes(buffer) && |buffer| < 0x8000_0000
      modifies `disk
      ensures Valid() && Grew(old(Table()), Table(), s, t) && Clusters(g, t) && DataKept(g, old(disk), disk, t)
      ensures r == |buffer| || r == -1
      ensures r == |buffer| ==> Carries(g, disk, t, buffer)
      ensures r == -1 ==> Full(Table()) && FilledUp(g, disk, t, buffer)
      ensures Tight(g, s, t, |buffer|)
    {
      var cluster, offset := start, 0;
      t := s;
      ghost var i, f := 0, Table();
      StartWriting(g, disk, t);
      assert buffer[..0] == [];
      hide Grew, IsChain, Fat, DiskOk, Filled, Carries, Times;
      while offset < |buffer|
        invariant offset <= |buffer| && i < |t| && Valid()
        invariant Grew(f, Table(), s, t) && Clusters(g, t) && DataKept(g, old(disk), disk, t)
        invariant Tight(g, s, t, |buffer|)
        invariant offset < |buffer| ==> Filled(g, disk, t, i, buffer[..offset]) && t[i] == cluster
        invariant offset == |buffer| ==> Carries(g, disk, t, buffer)
      {
        var size := |buffer| - offset;
        var toWrite := if size < g.spc * 512 then size else g.spc * 512;
        var chunk := buffer[offset..offset + toWrite];
        WriteNth(cluster, chunk, s, t, i, f, buffer[..offset], old(disk));
        offset := offset + toWrite;
        assert buffer[..offset - toWrite] + chunk == buffer[..offset];
        if offset < |buffer| {
          cluster, t := NextNth(cluster, s, t, i, f, buffer[..offset], old(disk));
          if cluster == 0 { return -1, t; }
          i := i + 1;
        } else {
          assert buffer[..offset] == buffer;
        }
      }
      r := offset;
    }

    method WriteNth(c: nat, chunk: seq<nat>, ghost s: seq<nat>, ghost t: seq<nat>, ghost i: nat, ghost f: seq<nat>,
                    ghost data: seq<nat>, ghost d0: Disk)
      requires Valid() && Grew(f, Table(), s, t) && Clusters(g, t) && DataKept(g, d0, disk, t)
      requires i < |t| && t[i] == c && Filled(g, disk, t, i, data) && |chunk| <= g.spc * 512 && Bytes(chunk)
      modifies `disk
      ensures Valid() && Grew(f, Table(), s, t) && DataKept(g, d0, disk, t)
      ensures Carries(g, disk, t, data + chunk)
      ensures |chunk| == g.spc * 512 ==> Filled(g, disk, t, i + 1, data + chunk)
    {
      assert Distinct(t);
      WriteCluster(c, chunk);
      hide Grew, IsChain, Fat, DiskOk, Filled, Carries;
      KeptCluster(g, d0, old(disk), disk, t, i);
      ClusterWritten(g, old(disk), disk, t, i, data, chunk);
      CarriesPrefix(g, disk, t, i + 1, data + chunk);
    }

    method NextNth(c: nat, ghost s: seq<nat>, ghost t: seq<nat>, ghost i: nat, ghost f: seq<nat>, ghost data: seq<nat>,
                   ghost d0: Disk)
      returns (next: nat, ghost t': seq<nat>)
      requires Valid() && Grew(f, Table(), s, t) && Clusters(g, t) && DataKept(g, d0, disk, t)
      requires i < |t| && t[i] == c && Filled(g, disk, t, i + 1, data) && Carries(g, disk, t, data)
      modifies `disk
      ensures Valid() && Grew(f, Table(), s, t') && Clusters(g, t') && DataKept(g, d0, disk, t')
      ensures next == 0 ==> Full(Table()) && |data| == Times(|t'|, g.spc) * 512 && Carries(g, disk, t', data)
      ensures next != 0 ==> i + 1 < |t'| && t'[i + 1] == next && Filled(g, disk, t', i + 1, data)
      ensures t' == t || Times(|t'| - 1, g.spc) * 512 == |data|
    {
      next, t' := NextCluster(c, s, t, i, f);
      GrewClusters(g, Table(), t');
      FilledLength(g, old(disk), t, i + 1, data);
      hide Grew, IsChain, Fat, DiskOk, Filled, Carries;
      KeptLonger(g, d0, old(disk), disk, t, t');
      FilledFrame(g, old(disk), disk, t, t', i + 1, data);
    }

    /** The first `n` bytes of a cluster. */
    method ReadCluster(c: nat, n: nat) returns (data: seq<nat>)
      requires Valid() && 2 <= c < g.Limit() && n <= g.spc * 512
      ensures OnDisk(disk, ClusterSectors(g, c)) && data == Stored(disk, ClusterSectors(g, c), n)
    {
      ghost var secs := ClusterSectors(g, c);
      SingleList(g, disk, c);
      var sector, s := g.ClusterSector(c), 0;
      hide Times, DiskOk, ClusterSectors, Geo.ClusterSector;
      data := [];
      while s < n / 512
        invariant s <= n / 512 && |data| == s * 512
        invariant data == Stored(disk, secs, s * 512)
      {
        assert secs[s] == sector + s;
        data := data + disk[sector + s];
        s := s + 1;
      }
      if n % 512 > 0 {
        assert secs[s] == sector + s;
        data := data + disk[sector + s][..n % 512];
      }
    }

    /** The first `size` bytes of the chain, or all of it when it is shorter. */
    method ReadChain(start: nat, size: nat, ghost s: seq<nat>) returns (data: seq<nat>)
      requires Valid() && IsChain(Table(), s) && s[0] == start
      ensures Clusters(g, s) && OnDisk(disk, SectorList(g, s)) && data == Prefix(g, disk, s, size)
    {
      var cluster := start;
      data := [];
      ghost var i := 0;
      StartWriting(g, disk, s);
      ListOnDisk(g, disk, s);
      assert forall j: nat :: j < |s| ==> Link(Table(), s, j);
      assert s[..0] == [];
      hide IsChain, Fat, DiskOk, Filled, Carries, Prefix;
      while cluster >= 2 && cluster < EOC && |data| < size
        invariant i <= |s| && |data| <= size && Carries(g, disk, s, data)
        invariant |data| < size ==> Filled(g, disk, s, i, data)
        invariant if i < |s| then cluster == s[i] else cluster >= EOC
        decreases |s| - i
      {
        var left := size - |data|;
        var toRead := if left > g.spc * 512 then g.spc * 512 else left;
        var chunk := ReadCluster(cluster, toRead);
        ReadStep(g, disk, s, i, data, chunk);
        data := data + chunk;
        ChainNext(Table(), s, i);
        cluster := FatReadEntry(cluster);
        i := i + 1;
      }
      ReadAll(g, disk, s, i, data, size);
    }
  }

  /** The first `size` bytes of a chain, or all of them when it is shorter. */
  ghost function Prefix(g: Geo, d: Disk, s: seq<nat>, size: nat): (r: seq<nat>)
    requires Clusters(g, s) && OnDisk(d, SectorList(g, s))
  {
    var all := |SectorList(g, s)| * 512;
    Stored(d, SectorList(g, s), if size < all then size else all)
  }

  lemma ReadStep(g: Geo, d: Disk, s: seq<nat>, i: nat, x: seq<nat>, y: seq<nat>)
    requires Filled(g, d, s, i, x) && i < |s| && IsChain(Fat(g, d), s) && Clusters(g, s) && |y| <= g.spc * 512
    requires OnDisk(d, ClusterSectors(g, s[i])) && Stored(d, ClusterSectors(g, s[i]), |y|) == y
    ensures Carries(g, d, s, x + y)
    ensures |y| == g.spc * 512 ==> Filled(g, d, s, i + 1, x + y)
  {
    ClusterWritten(g, d, d, s, i, x, y);
    CarriesPrefix(g, d, s, i + 1, x + y);
  }

  lemma ReadAll(g: Geo, d: Disk, s: seq<nat>, i: nat, data: seq<nat>, size: nat)
    requires Carries(g, d, s, data) && |data| <= size && i <= |s|
    requires |data| < size ==> i == |s| && Filled(g, d, s, i, data)
    ensures data == Prefix(g, d, s, size)
  {
    assert s[..|s|] == s;
  }

  lemma SingleList(g: Geo, d: Disk, c: nat)
    requires DiskOk(g, d) && 2 <= c < g.Limit()
    ensures OnDisk(d, ClusterSectors(g, c)) && Distinct(ClusterSectors(g, c))
    ensures forall n :: n in ClusterSectors(g, c) ==> g.firstData <= n < |d|
  {
    var secs := ClusterSectors(g, c);
    forall n | n in secs ensures g.firstData <= n < |d| && |d[n]| == 512 {
      ClusterRange(g, c, n);
      assert SectorOk(d[n]);
    }
    assert forall i :: 0 <= i < |secs| ==> secs[i] in secs;
  }
}
