/** A small volume on which a write through a long name goes wrong: the file written does not read back, and
    another file of the directory is redirected to its bytes. */
module FatCrossLink {
  import opened Sequences
  import opened Arithmetic
  import opened FatDisk
  import opened FatChains
  import opened FatSectors
  import opened FatVolume
  import opened FatDir
  import opened FatScan
  import opened FatFiles
  import opened FatReadWrite
  import opened FatLongWrite
  import opened Lfn

  /** Four clusters of one sector; the root directory is cluster 2, two files of five bytes are 3 and 4. */
  const SMALL: Geo := Geo(1, 0, 1, 4)

  /** `abcdefghi.txt` */
  function LongText(): seq<nat> { [97, 98, 99, 100, 101, 102, 103, 104, 105, 46, 116, 120, 116] }

  /** `ABCDEF~1TXT`, the short form it is stored with. */
  function StoredShort(): seq<nat> { [65, 66, 67, 68, 69, 70, 126, 49, 84, 88, 84] }

  /** `ABCDEFGHTXT`, the 8.3 form the kernel computes. */
  function ComputedShort(): seq<nat> { [65, 66, 67, 68, 69, 70, 71, 72, 84, 88, 84] }

  function FileSlot(name83: seq<nat>, c: nat): (e: Slot)
    requires |name83| == 11
    ensures |e| == 32
  {
    Updated(name83 + [0x20] + ZeroBytes(20), c, 5)
  }

  /** The directory: the long name with its short slot, and perhaps a second file. */
  function RootSector(both: bool): (r: Sector)
    ensures |r| == 512
  {
    LongSlot(LongText(), 1) + FileSlot(StoredShort(), 3) +
    (if both then FileSlot(ComputedShort(), 4) else ZeroBytes(32)) + ZeroBytes(416)
  }

  /** Entries 2, 3 and 4 are end marks. */
  function TableSector(): (r: Sector)
    ensures |r| == 512 && forall i :: 0 <= i < 512 ==>
              r[i] == if 8 <= i < 20 then (if i % 4 == 3 then 0x0F else 0xFF) else 0
  {
    seq(512, (i: nat) requires i < 512 => if 8 <= i < 20 then (if i % 4 == 3 then 0x0F else 0xFF) else 0)
  }

  function SmallDisk(both: bool): Disk
  {
    [TableSector(), RootSector(both), ZeroBytes(512), ZeroBytes(512), ZeroBytes(512)]
  }

  ghost predicate IsFile(e: Slot, name83: seq<nat>, c: nat) {
    |e| == 32 && e[..11] == name83 && e[11] == 0x20 && FirstCluster(e) == c && FileSize(e) == 5
  }

  lemma {:induction false} FileSlotFacts(name83: seq<nat>, c: nat)
    requires |name83| == 11 && Bytes(name83) && c < 0x1_0000
    ensures SlotOk(FileSlot(name83, c)) && IsFile(FileSlot(name83, c), name83, c)
  {
    var e0 := name83 + [0x20] + ZeroBytes(20);
    UpdatedFacts(e0, c, 5);
    assert e0[11] == 0x20;
    var e := FileSlot(name83, c);
    assert e[..12] == e0[..12];
    assert e[11] == e[..12][11] && e[..11] == e[..12][..11] == e0[..12][..11];
  }

  /** The slots of the directory. */
  ghost predicate SmallDir(slots: seq<Slot>, both: bool) {
    && IsDir(slots) && |slots| == 16 && slots[0] == LongSlot(LongText(), 1) && IsFile(slots[1], StoredShort(), 3)
    && (if both then IsFile(slots[2], ComputedShort(), 4) else slots[2][0] == 0)
    && forall i :: 3 <= i < 16 ==> slots[i][0] == 0
  }

  lemma {:induction false} RootSlots(both: bool)
    ensures var r := RootSector(both);
            && SlotIn(r, 0) == LongSlot(LongText(), 1) && SlotIn(r, 1) == FileSlot(StoredShort(), 3)
            && SlotIn(r, 2) == (if both then FileSlot(ComputedShort(), 4) else ZeroBytes(32))
            && forall i :: 3 <= i < 16 ==> SlotIn(r, i) == ZeroBytes(32)
  {
    hide LongSlot, FileSlot;
    var r := RootSector(both);
    var a, b, c := LongSlot(LongText(), 1), FileSlot(StoredShort(), 3), if both then FileSlot(ComputedShort(),
                            4) else ZeroBytes(32);
    assert r == a + b + c + ZeroBytes(416);
  }

  lemma {:induction false} LongBytes(s: seq<nat>, q: nat)
    requires 1 <= q < 0x40 && LongName(s)
    ensures Bytes(LongSlot(s, q))
  {
    var e := LongSlot(s, q);
    forall b | 0 <= b < 32 ensures e[b] < 0x100 { assert e[b] == LongByte(s, q, b); }
  }

  lemma {:induction false} LongAttr(s: seq<nat>, q: nat)
    requires q >= 1
    ensures LongSlot(s, q)[11] == LONG
  {
    assert LongSlot(s, q)[11] == LongByte(s, q, 11);
  }

  lemma {:induction false} BytesConcat(a: seq<nat>, b: seq<nat>)
    requires Bytes(a) && Bytes(b)
    ensures Bytes(a + b)
  {
  }

  lemma {:induction false} RootOk(both: bool)
    ensures SectorOk(RootSector(both))
  {
    Texts();
    hide LongText, StoredShort, ComputedShort, LongSlot, FileSlot, ZeroBytes, LongName, Count;
    FileSlotFacts(StoredShort(), 3);
    FileSlotFacts(ComputedShort(), 4);
    LongBytes(LongText(), 1);
    var a, b := LongSlot(LongText(), 1), FileSlot(StoredShort(), 3);
    var c := if both then FileSlot(ComputedShort(), 4) else ZeroBytes(32);
    BytesConcat(a, b);
    BytesConcat(a + b, c);
    BytesConcat(a + b + c, ZeroBytes(416));
  }

  lemma {:induction false} SmallOk(both: bool)
    ensures DiskOk(SMALL, SmallDisk(both)) && Clusters(SMALL, [2])
  {
    RootOk(both);
    hide RootSector;
  }

  lemma {:induction false} TableEntry(d: Disk, c: nat)
    requires DiskOk(SMALL, d) && c < 6
    ensures |d[0]| == 512 && Fat(SMALL, d)[c] == Le32(d[0], 4 * c) % 0x1000_0000
  {
    assert SectorOk(d[0]);
    assert FatSector(SMALL, c) == 0 && FatOffset(c) == 4 * c;
  }

  lemma {:induction false} SmallTable(both: bool, c: nat)
    requires 2 <= c <= 4 && DiskOk(SMALL, SmallDisk(both))
    ensures Fat(SMALL, SmallDisk(both))[c] == LAST
  {
    TableEntry(SmallDisk(both), c);
    hide RootSector, ZeroBytes, Fat;
    assert SmallDisk(both)[0] == TableSector();
  }

  lemma {:induction false} OneSector(c: nat)
    requires 2 <= c <= 5
    ensures Clusters(SMALL, [c]) && SectorList(SMALL, [c]) == [c - 1]
  {
    assert [c][..0] == [];
    assert SectorList(SMALL, [c]) == SectorList(SMALL, [c][..0]) + ClusterSectors(SMALL, c);
    assert Times(c - 2, 1) == c - 2;
  }

  /** Sector `p` of a directory holds slots `16 * p..`. */
  lemma {:induction false} SectorSlots(g: Geo, d: Disk, dir: seq<nat>, p: nat, n: nat)
    requires DiskOk(g, d) && Clusters(g, dir) && p < |SectorList(g, dir)| && SectorList(g, dir)[p] == n
    ensures n < |d| && |d[n]| == 512 && |DirSlots(g, d, dir)| == 16 * |SectorList(g, dir)|
    ensures forall i :: 16 * p <= i < 16 * p + 16 ==> DirSlots(g, d, dir)[i] == SlotIn(d[n], i - 16 * p)
  {
    hide DiskOk, DirSlots, SectorList, Page, SlotIn;
    DirPage(g, d, dir, p);
    var slots := DirSlots(g, d, dir);
    PageSize(slots, p, d[n]);
    forall i | 16 * p <= i < 16 * p + 16 ensures slots[i] == SlotIn(d[n], i - 16 * p) {
      PageAt(slots, p, d[n], i - 16 * p);
    }
  }

  lemma {:induction false} PageSize(slots: seq<Slot>, p: nat, buf: Sector)
    requires Page(slots, p, buf)
    ensures |buf| == 512 && 16 * p + 16 <= |slots|
  {
  }

  /** The slots of a one-sector directory. */
  lemma {:induction false} SlotsOf(d: Disk, c: nat)
    requires DiskOk(SMALL, d) && 2 <= c <= 5
    ensures Clusters(SMALL, [c]) && c - 1 < |d| && |d[c - 1]| == 512 && |DirSlots(SMALL, d, [c])| == 16
    ensures forall i :: 0 <= i < 16 ==> DirSlots(SMALL, d, [c])[i] == SlotIn(d[c - 1], i)
  {
    hide DiskOk, DirSlots, SectorList, SlotIn;
    OneSector(c);
    SectorSlots(SMALL, d, [c], 0, c - 1);
  }

  lemma {:induction false} SmallSlots(both: bool)
    requires DiskOk(SMALL, SmallDisk(both)) && Clusters(SMALL, [2])
    ensures SmallDir(DirSlots(SMALL, SmallDisk(both), [2]), both)
  {
    SlotsOf(SmallDisk(both), 2);
    assert SmallDisk(both)[1] == RootSector(both);
    hide SmallDisk, RootSector, LongSlot, FileSlot, DirSlots, IsFile, StoredShort, ComputedShort, LongText, SlotIn,
         ZeroBytes;
    RootSlots(both);
    FileSlotFacts(StoredShort(), 3);
    FileSlotFacts(ComputedShort(), 4);
  }

  ghost function SmallChains(): set<seq<nat>> { {[2], [3], [4]} }

  lemma {:induction false} SmallFamily(f: seq<nat>)
    requires |f| == 6 && f[2] == f[3] == f[4] == LAST
    ensures Family(f, SmallChains())
  {
    var chains := SmallChains();
    forall s | s in chains ensures IsChain(f, s) { assert Link(f, s, 0); }
  }

  lemma {:induction false} SmallRooted(slots: seq<Slot>, both: bool)
    requires SmallDir(slots, both)
    ensures Rooted(slots, SmallChains())
  {
    LongAttr(LongText(), 1);
    var chains := SmallChains();
    assert Owned(chains, 3) by { assert [3] in chains; }
    assert Owned(chains, 4) by { assert [4] in chains; }
    hide Owned, LongSlot, FirstCluster, FileSize, StoredShort, ComputedShort;
  }

  lemma {:induction false} SmallMounted(both: bool)
    ensures Mounted(SMALL, SmallDisk(both), SmallChains(), [2])
  {
    SmallOk(both);
    var d := SmallDisk(both);
    SmallTable(both, 2);
    SmallTable(both, 3);
    SmallTable(both, 4);
    SmallSlots(both);
    hide SmallDisk, DirSlots, DiskOk, SmallDir, Rooted, Family;
    SmallFamily(Fat(SMALL, d));
    SmallRooted(DirSlots(SMALL, d, [2]), both);
  }

  lemma {:induction false} Texts()
    ensures LongName(LongText()) && Count(LongText()) == 1 && |StoredShort()| == |ComputedShort()| == 11
    ensures StoredShort()[0] == ComputedShort()[0] == 65 && StoredShort() != ComputedShort()
    ensures Bytes(StoredShort()) && Bytes(ComputedShort())
  {
    assert StoredShort()[6] != ComputedShort()[6];
  }

  /** The name resolves to slot 1. */
  lemma {:induction false} SmallLookup(slots: seq<Slot>, both: bool, junk: seq<nat>)
    requires |junk| == LFN_BUFFER && SmallDir(slots, both)
    ensures Lookup(slots, junk, LongText()) == 1
  {
    Texts();
    hide LongText, StoredShort, ComputedShort;
    var s := LongText();
    assert slots[1][0] == slots[1][..11][0];
    assert Encode(s) == [LongSlot(s, 1)];
    assert Encode(s) <= slots;
    EncodeEncodes(s, slots);
    hide LongSlot, FirstCluster, FileSize, LongStep, Name83, Encodes, Encode, LongName, Count;
    var r := LongLookup(slots, 0, s, Acc(junk, 0, 0), s);
  }

  /** The first slot with its 8.3 form is slot 2, or none. */
  lemma {:induction false} SmallFirst(slots: seq<Slot>, both: bool, name83: seq<nat>)
    requires SmallDir(slots, both) && name83 == ComputedShort()
    ensures First(slots, Named(name83), if both then 2 else -1)
  {
    Texts();
    LongAttr(LongText(), 1);
    hide LongText, StoredShort, ComputedShort, LongSlot, FirstCluster, FileSize;
    forall i | 2 <= i < 16 && slots[i][0] == 0 ensures !Passes(Named(name83), slots[i]) {
      assert slots[i][0] == slots[i][..11][0];
    }
    if both { assert slots[2][0] == slots[2][..11][0]; }
  }

  lemma {:induction false} NameParts(s: seq<nat>, p: nat)
    requires |s| > 2 && p < |s| && s[p] == DOT && forall i :: 0 <= i < p ==> s[i] != DOT
    ensures Name83(s) == Field(s[..p], 8) + Field(s[p + 1..], 3)
  {
    var q := DotAt(s);
    hide DotAt, Field;
    assert q == p;
  }

  ghost predicate Letters(s: seq<nat>) {
    && |s| == 13 && s[0] == 97 && s[1] == 98 && s[2] == 99 && s[3] == 100 && s[4] == 101 && s[5] == 102 && s[6] == 103
    && s[7] == 104 && s[8] == 105 && s[9] == DOT && s[10] == 116 && s[11] == 120 && s[12] == 116
  }

  lemma {:induction false} ShortForm(s: seq<nat>)
    requires Letters(s)
    ensures Name83(s) == ComputedShort()
  {
    NameParts(s, 9);
    hide Name83;
    var a, b := Field(s[..9], 8), Field(s[10..], 3);
    hide Field;
    assert a == [65, 66, 67, 68, 69, 70, 71, 72];
    assert b == [84, 88, 84];
  }

  /** The second file holds five zeros. */
  lemma {:induction false} SecondFile(e: Slot)
    requires Mounted(SMALL, SmallDisk(true), SmallChains(), [2]) && IsFile(e, ComputedShort(), 4)
    ensures SlotReads(SMALL, SmallDisk(true), e, 5, 5, ZeroBytes(5))
  {
    var d := SmallDisk(true);
    OneSector(4);
    assert [4] in SmallChains();
    assert d[3] == ZeroBytes(512);
    hide SmallDisk, DirSlots, FirstCluster, FileSize, Fat, DiskOk, IsChain, SectorList, Rooted, ComputedShort;
    assert IsChain(Fat(SMALL, d), [4]);
    assert OnDisk(d, [3]) by { ListOnDisk(SMALL, d, [4]); }
    assert Prefix(SMALL, d, [4], 5) == ZeroBytes(5);
    assert Content(SMALL, d, [4], FirstCluster(e), Least(5, FileSize(e)), ZeroBytes(5));
  }

  /** Whatever a successful write of fewer than five bytes does there: the name does not read back, and a
      second file of that 8.3 form reads the bytes written instead of its own five zeros. */
  lemma {:induction false} LongWriteFails(both: bool, d': Disk, m: int, s: seq<nat>, t: seq<nat>, data: seq<nat>,
                                          junk: seq<nat>)
    requires |junk| == LFN_BUFFER && |data| < 5
    requires FileWritten(SMALL, SmallDisk(both), d', SmallChains(), [2], m, s, t, data)
    requires First(DirSlots(SMALL, SmallDisk(both), [2]), Named(Name83(LongText())), m)
    requires StartOf(DirSlots(SMALL, SmallDisk(both), [2])[1], s) && Snug(SMALL, s, t, |data|)
    ensures !Reads(SMALL, d', [2], junk, LongText(), 5, |data|, data)
    ensures m == if both then 2 else -1
    ensures both ==> SlotReads(SMALL, SmallDisk(both), DirSlots(SMALL, SmallDisk(both), [2])[2], 5, 5, ZeroBytes(5))
    ensures both ==> !SlotReads(SMALL, d', DirSlots(SMALL, d', [2])[2], 5, 5, ZeroBytes(5))
  {
    var d := SmallDisk(both);
    SmallMounted(both);
    SmallSlots(both);
    hide SmallDisk, DirSlots, FileWritten, Snug, First, Reads, SlotReads, LongText, Name83, Mounted, SmallChains,
         SmallDir,
         ZeroBytes, StartOf, Letters, ComputedShort;
    WrittenDisk(SMALL, d, d', SmallChains(), [2], m, s, t, data);
    var slots := DirSlots(SMALL, d, [2]);
    LongLetters();
    ShortForm(LongText());
    SmallFirst(slots, both, Name83(LongText()));
    FirstOnce(slots, Named(Name83(LongText())), m, if both then 2 else -1);
    NotReadBack(d, d', slots, both, m, s, t, data, junk);
    if both {
      SecondIsFile(slots);
      SecondFile(slots[2]);
      SecondLost(d, d', s, t, data);
    }
  }

  /** A write of fewer than five bytes to a file that has a cluster cannot run out of room. */
  lemma {:induction false} ShortWriteFits(d: Disk, d': Disk, chains: set<seq<nat>>, e: Slot, name83: seq<nat>, c: nat,
                                          s: seq<nat>, t: seq<nat>, data: seq<nat>)
    requires IsFile(e, name83, c) && c > 0 && |data| < 5
    ensures !Unfinished(SMALL, d, d', chains, e, s, t, data)
  {
    hide Pending, Carries, DiskOk, Fat, StartOf;
    PendingHead(d, d', chains, s, t);
    RoomEnough(t);
  }

  lemma {:induction false} PendingHead(d: Disk, d': Disk, chains: set<seq<nat>>, s: seq<nat>, t: seq<nat>)
    ensures Pending(SMALL, d, d', chains, s, t) ==> t != []
  {
  }

  /** On that volume the write does succeed, and goes wrong. */
  method LongWriteRun(v: Volume, both: bool, data: seq<nat>, junk: seq<nat>) returns (r: int)
    requires v.g == SMALL && v.disk == SmallDisk(both) && v.cwd == 2
    requires Bytes(data) && |data| < 5 && |junk| == LFN_BUFFER
    modifies v`disk
    ensures v.Valid() && r == |data| && Clusters(SMALL, [2]) && |DirSlots(SMALL, v.disk, [2])| == 16
    ensures !Reads(SMALL, v.disk, [2], junk, LongText(), 5, |data|, data)
    ensures both ==> !SlotReads(SMALL, v.disk, DirSlots(SMALL, v.disk, [2])[2], 5, 5, ZeroBytes(5))
  {
    SmallMounted(both);
    SmallSlots(both);
    NameOk();
    hide SmallDisk, DirSlots, Mounted, Unfinished, Updates, Reads, SlotReads, LongText, Name83, SmallChains, SmallDir,
         ZeroBytes, StartOf, Snug, IsFile, StoredShort, ComputedShort, Lookup;
    ghost var d, slots := v.disk, DirSlots(SMALL, v.disk, [2]);
    SmallLookup(slots, both, junk);
    ghost var k, m, s, t, d2;
    r, k, m, s, t, d2 := WriteFile(v, LongText(), data, junk, [2], SmallChains());
    LongIsFile(slots, both);
    ShortWriteFits(d, v.disk, SmallChains(), slots[1], StoredShort(), 3, s, t, data);
    LongUpdated(both, d2, v.disk, m, s, t, data);
    LongWriteFails(both, v.disk, m, s, t, data, junk);
    SlotsOf(v.disk, 2);
  }

  lemma {:induction false} NameOk()
    ensures IsName(LongText())
  {
  }

  lemma {:induction false} LongIsFile(slots: seq<Slot>, both: bool)
    requires SmallDir(slots, both)
    ensures |slots| == 16 && IsFile(slots[1], StoredShort(), 3)
  {
  }

  lemma {:induction false} LongUpdated(both: bool, d2: Disk, d': Disk, m: int, s: seq<nat>, t: seq<nat>, data: seq<nat>)
    requires DiskOk(SMALL, SmallDisk(both)) && Clusters(SMALL, [2])
    requires |DirSlots(SMALL, SmallDisk(both), [2])| == 16
    requires IsFile(DirSlots(SMALL, SmallDisk(both), [2])[1], StoredShort(), 3)
    requires StartOf(DirSlots(SMALL, SmallDisk(both), [2])[1], s)
    requires Updates(SMALL, SmallDisk(both), d2, d', SmallChains(), [2], Name83(LongText()), m, s, t, data)
    ensures FileWritten(SMALL, SmallDisk(both), d', SmallChains(), [2], m, s, t, data)
    ensures First(DirSlots(SMALL, SmallDisk(both), [2]), Named(Name83(LongText())), m)
  {
    hide SmallDisk, DirSlots, FileWritten, First, LongText, Name83, SmallChains, DirOverwritten, FirstCluster, FileSize,
         StoredShort;
  }

  lemma {:induction false} LongLetters()
    ensures Letters(LongText())
  {
  }

  lemma {:induction false} SecondIsFile(slots: seq<Slot>)
    requires SmallDir(slots, true)
    ensures |slots| == 16 && IsFile(slots[2], ComputedShort(), 4)
  {
  }

  lemma {:induction false} NotReadBack(d: Disk, d': Disk, slots: seq<Slot>, both: bool, m: int, s: seq<nat>,
                                       t: seq<nat>, data: seq<nat>, junk: seq<nat>)
    requires |junk| == LFN_BUFFER && |data| < 5 && m != 1
    requires FileWritten(SMALL, d, d', SmallChains(), [2], m, s, t, data)
    requires slots == DirSlots(SMALL, d, [2]) && SmallDir(slots, both) && StartOf(slots[1], s)
    requires Snug(SMALL, s, t, |data|)
    ensures !Reads(SMALL, d', [2], junk, LongText(), 5, |data|, data)
  {
    SmallLookup(slots, both, junk);
    hide LongSlot, DirSlots, Lookup, SlotReads, FirstCluster, FileSize, FileWritten, Snug, Reads, Room,
         LongText, StoredShort, ComputedShort, SmallChains;
    assert data[..|data|] == data;
    LongReadBack(SMALL, d, d', SmallChains(), [2], 1, m, s, t, data, junk, LongText(), 5);
    RoomEnough(s);
    FittingSize(SMALL, slots[1], s, |data|, 5);
  }

  lemma {:induction false} SecondLost(d: Disk, d': Disk, s: seq<nat>, t: seq<nat>, data: seq<nat>)
    requires |data| < 5 && FileWritten(SMALL, d, d', SmallChains(), [2], 2, s, t, data)
    ensures !SlotReads(SMALL, d', DirSlots(SMALL, d', [2])[2], 5, 5, ZeroBytes(5))
  {
    RepointedReads(SMALL, d, d', SmallChains(), [2], 2, s, t, data, 5);
    var e := DirSlots(SMALL, d', [2])[2];
    hide DirSlots, SlotReads;
    assert data[..|data|] == data;
    if SlotReads(SMALL, d', e, 5, 5, ZeroBytes(5)) {
      SlotReadsOnce(SMALL, d', e, 5, 5, ZeroBytes(5), |data|, data);
    }
  }

  lemma {:induction false} RoomEnough(s: seq<nat>)
    ensures s != [] ==> 5 <= Times(|s|, SMALL.spc) * 512
  {
  }
}
