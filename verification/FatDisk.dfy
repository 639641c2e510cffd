/** A FAT32 volume on raw 512-byte sectors: geometry, little-endian words, and the
    allocation table as the 28-bit values its words hold. */
module FatDisk {
  import opened Arithmetic

  type Sector = seq<nat>
  type Disk = seq<Sector>

  const EOC: nat := 0x0FFF_FFF8
  const LAST: nat := 0x0FFF_FFFF
  const SECTOR: nat := 512

  /** Sectors per cluster, first sector of the table, first data sector, number of clusters. */
  datatype Geo = Geo(spc: nat, fatStart: nat, firstData: nat, total: nat) {
    /** One table holds an entry for every cluster and lies before the data area. */
    ghost predicate Ok() {
      && spc >= 1 && fatStart <= firstData && total + 2 <= (firstData - fatStart) * 128
      && total + 2 < 0x0FFF_FFF0
    }

    function Limit(): nat { total + 2 }

    function ClusterSector(c: nat): nat
      requires c >= 2
    {
      firstData + Times(c - 2, spc)
    }
  }

  function Times(a: nat, b: nat): nat { a * b }

  ghost predicate SectorOk(s: Sector) { |s| == 512 && forall i :: 0 <= i < 512 ==> s[i] < 0x100 }

  ghost predicate DiskOk(g: Geo, d: Disk) {
    && g.Ok() && g.firstData + Times(g.total, g.spc) <= |d|
    && forall n :: 0 <= n < |d| ==> SectorOk(d[n])
  }

  function Le32(s: seq<nat>, o: nat): nat
    requires o + 4 <= |s|
  {
    s[o] + 0x100 * s[o + 1] + 0x1_0000 * s[o + 2] + 0x100_0000 * s[o + 3]
  }

  function Bytes32(v: nat): (b: seq<nat>)
    ensures |b| == 4 && forall i :: 0 <= i < 4 ==> b[i] < 0x100
  {
    [v % 0x100, v / 0x100 % 0x100, v / 0x1_0000 % 0x100, v / 0x100_0000 % 0x100]
  }

  /** Overwrites bytes `o..` of a sector. */
  function Patch(s: seq<nat>, o: nat, b: seq<nat>): (r: seq<nat>)
    requires o + |b| <= |s|
    ensures |r| == |s|
    ensures forall i :: 0 <= i < |s| ==> r[i] == if o <= i < o + |b| then b[i - o] else s[i]
  {
    s[..o] + b + s[o + |b|..]
  }

  lemma Bytes32RoundTrip(v: nat)
    requires v < 0x1_0000_0000
    ensures Le32(Bytes32(v), 0) == v
  {
    var a, b, c := v / 0x100, v / 0x1_0000, v / 0x100_0000;
    DivDiv(v, 0x100, 0x100);
    DivDiv(v, 0x1_0000, 0x100);
  }

  lemma PatchLe32(s: seq<nat>, o: nat, v: nat, p: nat)
    requires o + 4 <= |s| && p + 4 <= |s| && v < 0x1_0000_0000
    ensures p == o ==> Le32(Patch(s, o, Bytes32(v)), p) == v
    ensures p + 4 <= o || o + 4 <= p ==> Le32(Patch(s, o, Bytes32(v)), p) == Le32(s, p)
  {
    Bytes32RoundTrip(v);
  }

  lemma PatchSector(s: Sector, o: nat, b: seq<nat>)
    requires SectorOk(s) && o + |b| <= 512 && forall i :: 0 <= i < |b| ==> b[i] < 0x100
    ensures SectorOk(Patch(s, o, b))
  {
  }

  // ---- the table -------------------------------------------------------------------------------

  function FatSector(g: Geo, c: nat): nat { g.fatStart + c * 4 / 512 }

  function FatOffset(c: nat): nat { c * 4 % 512 }

  lemma FatPlace(g: Geo, c: nat)
    requires g.Ok() && c < g.Limit()
    ensures FatSector(g, c) < g.firstData && FatOffset(c) + 4 <= 512 && FatOffset(c) % 4 == 0
  {
  }

  lemma FatPlaceUnique(g: Geo, c: nat, e: nat)
    requires FatSector(g, c) == FatSector(g, e) && c != e
    ensures FatOffset(c) + 4 <= FatOffset(e) || FatOffset(e) + 4 <= FatOffset(c)
  {
  }

  /** The word of entry `c` in the table sector that holds it. */
  function WordIn(s: Sector, c: nat): nat
    requires |s| == 512
  {
    assert FatOffset(c) + 4 <= 512;
    Le32(s, FatOffset(c))
  }

  /** The 32-bit word of an entry. */
  function Word(g: Geo, d: Disk, c: nat): nat
    requires DiskOk(g, d) && c < g.Limit()
  {
    FatPlace(g, c);
    assert SectorOk(d[FatSector(g, c)]);
    WordIn(d[FatSector(g, c)], c)
  }

  function PatchWord(s: Sector, c: nat, v: nat): (r: Sector)
    requires |s| == 512
    ensures |r| == 512
  {
    assert FatOffset(c) + 4 <= 512;
    Patch(s, FatOffset(c), Bytes32(v))
  }

  lemma PatchedWord(g: Geo, s: Sector, c: nat, v: nat, e: nat)
    requires |s| == 512 && v < 0x1_0000_0000 && FatSector(g, c) == FatSector(g, e)
    ensures WordIn(PatchWord(s, c, v), e) == if e == c then v else WordIn(s, e)
  {
    if e != c { FatPlaceUnique(g, c, e); }
    hide FatSector;
    PatchLe32(s, FatOffset(c), v, FatOffset(e));
  }

  /** The low 28 bits of every entry. */
  ghost function Fat(g: Geo, d: Disk): (f: seq<nat>)
    requires DiskOk(g, d)
    ensures |f| == g.Limit() && forall c :: 0 <= c < |f| ==> f[c] == Word(g, d, c) % 0x1000_0000
  {
    seq(g.Limit(), c requires 0 <= c < g.Limit() => Word(g, d, c) % 0x1000_0000)
  }

  /** `(word & 0xF0000000) | (value & 0x0FFFFFFF)` */
  function Merge28(word: nat, value: nat): nat {
    word / 0x1000_0000 * 0x1000_0000 + value % 0x1000_0000
  }

  lemma WordBound(g: Geo, d: Disk, c: nat)
    requires DiskOk(g, d) && c < g.Limit()
    ensures Word(g, d, c) < 0x1_0000_0000
  {
    FatPlace(g, c);
    assert SectorOk(d[FatSector(g, c)]);
  }

  ghost function WithEntry(g: Geo, d: Disk, c: nat, value: nat): Disk
    requires DiskOk(g, d) && c < g.Limit()
  {
    FatPlace(g, c);
    var n := FatSector(g, c);
    assert SectorOk(d[n]);
    d[n := PatchWord(d[n], c, Merge28(Word(g, d, c), value))]
  }

  lemma Merge28Facts(word: nat, value: nat)
    requires word < 0x1_0000_0000
    ensures Merge28(word, value) < 0x1_0000_0000
    ensures Merge28(word, value) % 0x1000_0000 == value % 0x1000_0000
    ensures Merge28(word, value) / 0x1000_0000 == word / 0x1000_0000
  {
    ModUnique(Merge28(word, value), 0x1000_0000, word / 0x1000_0000, value % 0x1000_0000);
  }

  /** Writing an entry changes the low 28 bits of that entry's word and no other word;
      sectors outside the table are untouched. */
  lemma EntryWritten(g: Geo, d: Disk, c: nat, value: nat)
    requires DiskOk(g, d) && c < g.Limit()
    ensures var d' := WithEntry(g, d, c, value);
            && DiskOk(g, d') && |d'| == |d|
            && (forall e: nat :: e < g.Limit() ==>
                  Word(g, d', e) == if e == c then Merge28(Word(g, d, c), value) else Word(g, d, e))
            && (forall n :: g.firstData <= n < |d| ==> d'[n] == d[n])
            && Fat(g, d') == Fat(g, d)[c := value % 0x1000_0000]
  {
    var d' := WithEntry(g, d, c, value);
    EntryDisk(g, d, c, value);
    forall e: nat | e < g.Limit()
      ensures Word(g, d', e) == if e == c then Merge28(Word(g, d, c), value) else Word(g, d, e)
    {
      EntryWord(g, d, c, value, e);
    }
    WordBound(g, d, c);
    Merge28Facts(Word(g, d, c), value);
    hide Word, Merge28, WithEntry, DiskOk;
    var f, f' := Fat(g, d), Fat(g, d');
    forall e | 0 <= e < |f'| ensures f'[e] == f[c := value % 0x1000_0000][e] { }
  }

  lemma EntryDisk(g: Geo, d: Disk, c: nat, value: nat)
    requires DiskOk(g, d) && c < g.Limit()
    ensures var d' := WithEntry(g, d, c, value);
            DiskOk(g, d') && |d'| == |d| && forall n :: g.firstData <= n < |d| ==> d'[n] == d[n]
  {
    FatPlace(g, c);
    PatchSector(d[FatSector(g, c)], FatOffset(c), Bytes32(Merge28(Word(g, d, c), value)));
  }

  lemma EntryWord(g: Geo, d: Disk, c: nat, value: nat, e: nat)
    requires DiskOk(g, d) && c < g.Limit() && e < g.Limit() && DiskOk(g, WithEntry(g, d, c, value))
    ensures Word(g, WithEntry(g, d, c, value), e) == if e == c then Merge28(Word(g, d, c), value) else Word(g, d, e)
  {
    hide Times;
    FatPlace(g, c);
    FatPlace(g, e);
    WordBound(g, d, c);
    var n := FatSector(g, c);
    assert SectorOk(d[n]) && SectorOk(d[FatSector(g, e)]);
    Merge28Facts(Word(g, d, c), value);
    hide FatSector, DiskOk, WordIn, PatchWord, Merge28;
    if FatSector(g, e) == n {
      PatchedWord(g, d[n], c, Merge28(Word(g, d, c), value), e);
    }
  }
}
