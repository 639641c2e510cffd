/** The loops over a directory's slots: conversion of names, the lookup, and first-match scans. */
module FatScan {
  import opened Arithmetic
  import opened FatDisk
  import opened FatChains
  import opened FatSectors
  import opened FatVolume
  import opened FatDir

  // ---- names -----------------------------------------------------------------------------------------

  /** At most `n` characters in upper case, padded with spaces. */
  method PadUpper(s: seq<nat>, n: nat) returns (r: seq<nat>)
    ensures r == Field(s, n)
  {
    var out := new nat[n](_ => SPACE);
    var i := 0;
    while i < |s| && i < n
      invariant i <= |s| && i <= n
      invariant forall j :: 0 <= j < n ==> out[j] == if j < i then Upper(s[j]) else SPACE
    {
      out[i] := Upper(s[i]);
      i := i + 1;
    }
    r := out[..];
  }

  method FindDot(s: seq<nat>) returns (p: nat)
    ensures p <= |s| && (p < |s| ==> s[p] == DOT) && forall i :: 0 <= i < p ==> s[i] != DOT
  {
    p := 0;
    while p < |s| && s[p] != DOT
      invariant p <= |s| && forall i :: 0 <= i < p ==> s[i] != DOT
    {
      p := p + 1;
    }
  }

  method NameTo83(name: seq<nat>) returns (r: seq<nat>)
    ensures r == Name83(name)
  {
    if name == [DOT] || name == [DOT, DOT] {
      r := PadUpper(name, 11);
    } else {
      var p := FindDot(name);
      assert p == DotAt(name);
      var stem := PadUpper(name[..p], 8);
      var ext := PadUpper(if p < |name| then name[p + 1..] else [], 3);
      r := stem + ext;
    }
  }

  // ---- the long-name accumulator -----------------------------------------------------------------------

  method CopyChars(a: Acc, e: Slot, pos: nat) returns (r: Acc)
    requires |e| == 32 && pos + 13 < |a.text|
    ensures r == Copied(a, e, pos, 0)
  {
    r := a;
    var k := 0;
    while k < 13
      invariant k <= 13 && |r.text| == |a.text| && Copied(a, e, pos, 0) == Copied(r, e, pos, k)
    {
      var u := Unit(e, k);
      if u == 0 || u == 0xFFFF { break; }
      r := r.(text := r.text[pos + k := u % 0x100], len := if pos + k + 1 > r.len then pos + k + 1 else r.len);
      k := k + 1;
    }
  }

  method MeetLong(a: Acc, e: Slot) returns (r: Acc)
    requires |e| == 32 && |a.text| == LFN_BUFFER
    ensures r == LongStep(a, e)
  {
    r := a;
    if Marked(e) { r := r.(len := 0, due := Number(e)); }
    if r.due >= 1 && Number(e) == r.due && (r.due - 1) * 13 + 13 < LFN_BUFFER {
      var due := r.due;
      r := CopyChars(r, e, (due - 1) * 13);
      r := r.(due := due - 1);
    } else {
      r := r.(len := 0, due := 0);
    }
  }

  lemma SameAt(a: seq<nat>, b: seq<nat>, i: nat)
    requires SameName(a, b) && i < |a|
    ensures |a| == |b| && Upper(a[i]) == Upper(b[i])
  {
    assert |Uppers(a)| == |Uppers(b)| && Uppers(a)[i] == Uppers(b)[i];
  }

  method MatchLong(text: seq<nat>, name: seq<nat>) returns (m: bool)
    requires IsName(name)
    ensures m <==> SameName(text, name)
  {
    var i := 0;
    while i < |text|
      invariant i <= |text| && i <= |name| && forall j :: 0 <= j < i ==> Upper(text[j]) == Upper(name[j])
    {
      if i == |name| || Upper(text[i]) != Upper(name[i]) {
        if SameName(text, name) { SameAt(text, name, i); }
        return false;
      }
      i := i + 1;
    }
    m := i == |name|;
    assert SameName(text, name) ==> |Uppers(text)| == |Uppers(name)|;
  }

  // ---- one sector ----------------------------------------------------------------------------------------

  datatype Outcome = Found(i: nat) | Ended | GoOn

  /** Slots `16 * p ..` of the directory are those of sector `buf`. */
  ghost predicate Page(slots: seq<Slot>, p: nat, buf: Sector) {
    |buf| == 512 && 16 * p + 16 <= |slots| && forall i: nat :: i < 16 ==> slots[16 * p + i] == SlotIn(buf, i)
  }

  method FindInSector(buf: Sector, a: Acc, name: seq<nat>, name83: seq<nat>, ghost slots: seq<Slot>, ghost p: nat)
    returns (o: Outcome, r: Acc)
    requires IsDir(slots) && Page(slots, p, buf) && IsName(name) && name83 == Name83(name)
    requires |a.text| == LFN_BUFFER && a.len <= LFN_BUFFER
    ensures |r.text| == LFN_BUFFER && r.len <= LFN_BUFFER
    ensures o.Found? ==> o.i < 16 && Search(slots, 16 * p, a, name) == 16 * p + o.i
    ensures o.Ended? ==> Search(slots, 16 * p, a, name) == -1
    ensures o.GoOn? ==> Search(slots, 16 * p, a, name) == Search(slots, 16 * p + 16, r, name)
  {
    hide LongStep, SameName, Name83, SlotIn;
    var i := 0;
    r := a;
    while i < 16
      invariant i <= 16 && |r.text| == LFN_BUFFER && r.len <= LFN_BUFFER
      invariant Search(slots, 16 * p, a, name) == Search(slots, 16 * p + i, r, name)
    {
      var e := SlotIn(buf, i);
      assert e == slots[16 * p + i];
      if e[0] == 0 { return Ended, r; }
      if e[0] == DELETED {
        r := r.(len := 0);
      } else if e[11] == LONG {
        r := MeetLong(r, e);
      } else {
        var long := false;
        if r.len > 0 { long := MatchLong(r.text[..r.len], name); }
        if long || e[..11] == name83 { return Found(i), r; }
        r := r.(len := 0);
      }
      i := i + 1;
    }
    o := GoOn;
  }

  method ScanSector(buf: Sector, t: Test) returns (i: nat)
    requires |buf| == 512
    ensures i <= 16 && (i < 16 ==> Passes(t, SlotIn(buf, i)))
    ensures forall j: nat :: j < i ==> !Passes(t, SlotIn(buf, j))
  {
    i := 0;
    while i < 16
      invariant i <= 16 && forall j: nat :: j < i ==> !Passes(t, SlotIn(buf, j))
    {
      if Passes(t, SlotIn(buf, i)) { return; }
      i := i + 1;
    }
  }

  // ---- walking the sectors of a directory ----------------------------------------------------------------

  /** Cluster `c` and sector `s` within it are position `p` of the directory `dir`. */
  ghost predicate At(g: Geo, dir: seq<nat>, c: nat, s: nat, p: nat, i: nat)
    requires Clusters(g, dir)
  {
    && i <= |dir| && p == Times(i, g.spc) + s
    && (if i < |dir| then c == dir[i] && s < g.spc else c >= EOC && s == 0)
  }

  /** The walk starts at the first sector. */
  lemma {:induction false} AtStart(g: Geo, d: Disk, dir: seq<nat>)
    requires DiskOk(g, d) && Clusters(g, dir) && IsChain(Fat(g, d), dir)
    ensures At(g, dir, dir[0], 0, 0, 0)
  {
    TimesStep(0, g.spc);
  }

  lemma AtSector(g: Geo, dir: seq<nat>, c: nat, s: nat, p: nat, i: nat)
    requires Clusters(g, dir) && At(g, dir, c, s, p, i)
    ensures i < |dir| ==> c >= 2 && p < |SectorList(g, dir)| && SectorList(g, dir)[p] == g.ClusterSector(c) + s
    ensures i == |dir| ==> p == |SectorList(g, dir)|
  {
    SectorListAt(g, dir, i, s);
  }

  /** The next sector: within the cluster, or the first of the next cluster. */
  method Advance(v: Volume, c: nat, s: nat, ghost dir: seq<nat>, ghost p: nat, ghost i: nat)
    returns (c': nat, s': nat, ghost i': nat)
    requires v.Valid() && IsChain(v.Table(), dir) && Clusters(v.g, dir) && i < |dir| && At(v.g, dir, c, s, p, i)
    ensures At(v.g, dir, c', s', p + 1, i')
  {
    c', s', i' := c, s + 1, i;
    if s' == v.g.spc {
      ChainNext(v.Table(), dir, i);
      TimesStep(i, v.g.spc);
      c' := v.FatReadEntry(c);
      s', i' := 0, i + 1;
    }
  }

  ghost function DirSlots(g: Geo, d: Disk, dir: seq<nat>): (r: seq<Slot>)
    requires DiskOk(g, d) && Clusters(g, dir)
    ensures IsDir(r)
  {
    ListOnDisk(g, d, dir);
    Slots(d, SectorList(g, dir))
  }

  lemma DirPage(g: Geo, d: Disk, dir: seq<nat>, p: nat)
    requires DiskOk(g, d) && Clusters(g, dir)
    ensures |DirSlots(g, d, dir)| == 16 * |SectorList(g, dir)|
    ensures p < |SectorList(g, dir)| ==>
              SectorList(g, dir)[p] < |d| && Page(DirSlots(g, d, dir), p, d[SectorList(g, dir)[p]])
  {
    ListOnDisk(g, d, dir);
    if p < |SectorList(g, dir)| {
      forall i: nat | i < 16 ensures DirSlots(g, d, dir)[16 * p + i] == SlotIn(d[SectorList(g, dir)[p]], i) {
        assert (16 * p + i) / 16 == p && (16 * p + i) % 16 == i;
      }
    }
  }

  lemma AtEnd(g: Geo, d: Disk, dir: seq<nat>, c: nat, s: nat, p: nat, i: nat)
    requires DiskOk(g, d) && Clusters(g, dir) && At(g, dir, c, s, p, i) && !(2 <= c < EOC)
    ensures 16 * p == |DirSlots(g, d, dir)|
  {
    AtLive(g, dir, c, s, p, i);
    AtSector(g, dir, c, s, p, i);
    DirPage(g, d, dir, p);
  }

  /** Reads the sector the walk is at. */
  method Fetch(v: Volume, c: nat, s: nat, ghost dir: seq<nat>, ghost p: nat, ghost i: nat)
    returns (n: nat, buf: Sector)
    requires v.Valid() && Clusters(v.g, dir) && 2 <= c < EOC && At(v.g, dir, c, s, p, i)
    ensures i < |dir| && p < |SectorList(v.g, dir)| && n == SectorList(v.g, dir)[p]
    ensures Page(DirSlots(v.g, v.disk, dir), p, buf) && |buf| == 512
  {
    AtLive(v.g, dir, c, s, p, i);
    AtSector(v.g, dir, c, s, p, i);
    DirPage(v.g, v.disk, dir, p);
    n := v.g.ClusterSector(c) + s;
    buf := v.disk[n];
  }

  /** Sector `n` holds slot `k` at place `j`. */
  ghost predicate Located(g: Geo, dir: seq<nat>, k: nat, n: int, j: nat)
    requires Clusters(g, dir)
  {
    k / 16 < |SectorList(g, dir)| && n == SectorList(g, dir)[k / 16] && j == k % 16
  }

  /** One sector of the lookup: found in it, ended in it, or going on with the accumulator `b`. */
  method FindStep(v: Volume, c: nat, s: nat, a: Acc, name: seq<nat>, name83: seq<nat>, ghost dir: seq<nat>,
                  ghost p: nat, ghost i: nat)
    returns (o: Outcome, b: Acc, n: nat, entry: Slot)
    requires v.Valid() && Clusters(v.g, dir) && 2 <= c < EOC && At(v.g, dir, c, s, p, i)
    requires IsName(name) && name83 == Name83(name) && |a.text| == LFN_BUFFER && a.len <= LFN_BUFFER
    ensures i < |dir| && 16 * p + 16 <= |DirSlots(v.g, v.disk, dir)| && |b.text| == LFN_BUFFER && b.len <= LFN_BUFFER
    ensures var slots, r := DirSlots(v.g, v.disk, dir), Search(DirSlots(v.g, v.disk, dir), 16 * p, a, name);
            match o
            case Found(j) => r == 16 * p + j && Located(v.g, dir, r, n, j) && slots[r] == entry
            case Ended => r == -1
            case GoOn => r == Search(slots, 16 * p + 16, b, name)
  {
    hide Search, Name83, At, DirSlots, Page, DiskOk;
    var buf;
    n, buf := Fetch(v, c, s, dir, p, i);
    ghost var slots := DirSlots(v.g, v.disk, dir);
    PageFits(slots, p, buf);
    entry := [];
    o, b := FindInSector(buf, a, name, name83, slots, p);
    if o.Found? {
      PageAt(slots, p, buf, o.i);
      entry := SlotIn(buf, o.i);
    }
  }

  /** `find_entry`: the slot the name resolves to, and the sector that holds it. */
  method FindEntry(v: Volume, cluster: nat, name: seq<nat>, junk: seq<nat>, ghost dir: seq<nat>)
    returns (sector: int, entry: Slot, ghost k: int)
    requires v.Valid() && IsChain(v.Table(), dir) && Clusters(v.g, dir) && dir[0] == cluster
    requires IsName(name) && |junk| == LFN_BUFFER
    ensures k == Lookup(DirSlots(v.g, v.disk, dir), junk, name)
    ensures sector == -1 <==> Lookup(DirSlots(v.g, v.disk, dir), junk, name) == -1
    ensures k >= 0 ==> entry == DirSlots(v.g, v.disk, dir)[k] && Located(v.g, dir, k, sector, k % 16)
  {
    hide Times, IsChain, Fat, DiskOk, DirSlots, Search, Name83, SectorList, Clusters;
    ghost var slots := DirSlots(v.g, v.disk, dir);
    var name83 := NameTo83(name);
    var a := Acc(junk, 0, 0);
    var c: nat, s: nat := cluster, 0;
    ghost var p: nat, i: nat := 0, 0;
    DirPage(v.g, v.disk, dir, 0);
    AtStart(v.g, v.disk, dir);
    hide At;
    while c >= 2 && c < EOC
      invariant At(v.g, dir, c, s, p, i) && |a.text| == LFN_BUFFER && a.len <= LFN_BUFFER
      invariant 16 * p <= |slots| && Lookup(slots, junk, name) == Search(slots, 16 * p, a, name)
      decreases |slots| - 16 * p
    {
      var o, n;
      o, a, n, entry := FindStep(v, c, s, a, name, name83, dir, p, i);
      if o.Found? { return n, entry, 16 * p + o.i; }
      if o.Ended? { return -1, [], -1; }
      c, s, i := Advance(v, c, s, dir, p, i);
      p := p + 1;
    }
    AtEnd(v.g, v.disk, dir, c, s, p, i);
    SearchEnd(slots, a, name);
    sector, entry, k := -1, [], -1;
  }

  lemma SearchEnd(slots: seq<Slot>, a: Acc, name: seq<nat>)
    requires IsDir(slots) && |a.text| == LFN_BUFFER
    ensures Search(slots, |slots|, a, name) == -1
  {
  }

  lemma PageFits(slots: seq<Slot>, p: nat, buf: Sector)
    requires Page(slots, p, buf)
    ensures 16 * p + 16 <= |slots|
  {
  }

  lemma PageAt(slots: seq<Slot>, p: nat, buf: Sector, j: nat)
    requires Page(slots, p, buf) && j < 16
    ensures 16 * p + j < |slots| && slots[16 * p + j] == SlotIn(buf, j)
    ensures (16 * p + j) / 16 == p && (16 * p + j) % 16 == j
  {
  }

  /** The walk goes on exactly while it is inside the chain. */
  lemma AtLive(g: Geo, dir: seq<nat>, c: nat, s: nat, p: nat, i: nat)
    requires Clusters(g, dir) && At(g, dir, c, s, p, i) && g.Limit() < EOC
    ensures i < |dir| <==> 2 <= c < EOC
  {
  }

  /** The first slot passing a test: its sector and place in it. */
  method ScanDir(v: Volume, cluster: nat, t: Test, ghost dir: seq<nat>) returns (sector: int, j: nat, ghost k: int)
    requires v.Valid() && IsChain(v.Table(), dir) && Clusters(v.g, dir) && dir[0] == cluster
    ensures First(DirSlots(v.g, v.disk, dir), t, k)
    ensures k == -1 <==> sector == -1
    ensures k >= 0 ==> Located(v.g, dir, k, sector, j)
  {
    hide Times, IsChain, Fat, DiskOk, Page, DirSlots, Passes, SectorList, Clusters, SlotIn;
    ghost var slots := DirSlots(v.g, v.disk, dir);
    var c: nat, s: nat := cluster, 0;
    ghost var p: nat, i: nat := 0, 0;
    DirPage(v.g, v.disk, dir, 0);
    AtStart(v.g, v.disk, dir);
    hide At;
    while c >= 2 && c < EOC
      invariant At(v.g, dir, c, s, p, i) && 16 * p <= |slots|
      invariant forall m :: 0 <= m < 16 * p ==> !Passes(t, slots[m])
      decreases |SectorList(v.g, dir)| - p
    {
      var n, buf := Fetch(v, c, s, dir, p, i);
      j := ScanSector(buf, t);
      PageMiss(slots, p, buf, t, j);
      if j < 16 {
        PageAt(slots, p, buf, j);
        return n, j, 16 * p + j;
      }
      c, s, i := Advance(v, c, s, dir, p, i);
      p := p + 1;
    }
    AtEnd(v.g, v.disk, dir, c, s, p, i);
    sector, j, k := -1, 0, -1;
  }

  lemma PageMiss(slots: seq<Slot>, p: nat, buf: Sector, t: Test, j: nat)
    requires IsDir(slots) && Page(slots, p, buf) && j <= 16 && forall i: nat :: i < j ==> !Passes(t, SlotIn(buf, i))
    ensures 16 * p + 16 <= |slots| && forall m :: 16 * p <= m < 16 * p + j ==> !Passes(t, slots[m])
  {
    forall m | 16 * p <= m < 16 * p + j ensures !Passes(t, slots[m]) {
      assert slots[16 * p + (m - 16 * p)] == SlotIn(buf, m - 16 * p);
    }
  }
}
