/** A folder whose first sector is full of deleted slots and whose only entry lies past it: the lookup finds the
    entry and `fat32_rmdir` removes the folder. */
module FatLateEntry {
  import opened Sequences
  import opened FatDisk
  import opened FatChains
  import opened FatSectors
  import opened FatDir
  import opened FatScan
  import opened FatFiles
  import opened FatFolders
  import opened FatMkdir
  import opened FatRmdir
  import opened FatCrossLink

  function NameD(): seq<nat> { [68, 32, 32, 32, 32, 32, 32, 32, 32, 32, 32] }

  /** The 8.3 form of `A`. */
  function NameA(): (r: seq<nat>)
    ensures r == Name83([65])
  {
    assert DotAt([65]) == 1;
    Field([65], 8) + Field([], 3)
  }

  function FolderSlot(): (e: Slot)
    ensures |e| == 32
  {
    WithCluster(NewSlot(ZeroBytes(32), NameD(), FOLDER), 3)
  }

  /** Entry 2 is an end mark, 3 leads to 4, 4 is an end mark. */
  function LateTable(): (r: Sector)
    ensures |r| == 512
    ensures forall i :: 0 <= i < 512 ==>
              r[i] == if i == 12 then 4
                      else if 8 <= i < 12 || 16 <= i < 20 then (if i % 4 == 3 then 0x0F else 0xFF) else 0
  {
    seq(512, (i: nat) requires i < 512 =>
      if i == 12 then 4 else if 8 <= i < 12 || 16 <= i < 20 then (if i % 4 == 3 then 0x0F else 0xFF) else 0)
  }

  function EntrySlot(): (e: Slot)
    ensures |e| == 32
  {
    NewSlot(ZeroBytes(32), NameA(), 0x20)
  }

  function DeletedSlots(): (r: seq<nat>)
    ensures |r| == 448 && forall i :: 0 <= i < 448 ==> r[i] == if i % 32 == 0 then DELETED else 0
  {
    seq(448, (i: nat) => if i % 32 == 0 then DELETED else 0)
  }

  /** The folder's own two slots, then fourteen deleted ones. */
  function FullSector(): (r: Sector)
    ensures |r| == 512
  {
    FolderSector(3, 2)[..64] + DeletedSlots()
  }

  function LateDisk(): Disk
  {
    [LateTable(), FolderSlot() + ZeroBytes(480), FullSector(), EntrySlot() + ZeroBytes(480), ZeroBytes(512)]
  }

  lemma {:induction false} FolderSlotFacts()
    ensures SlotOk(FolderSlot()) && Live(FolderSlot()) && IsFolder(FolderSlot()) && FirstCluster(FolderSlot()) == 3
  {
    NewSlotFacts(ZeroBytes(32), NameD(), FOLDER, 3);
    hide NewSlot, WithCluster, FirstCluster;
  }

  lemma {:induction false} EntrySlotFacts()
    ensures SlotOk(EntrySlot()) && Live(EntrySlot()) && EntrySlot()[..11] == Name83([65])
  {
    assert NameA()[0] == 65;
    NewSlotFacts(ZeroBytes(32), NameA(), 0x20, 0);
    hide NewSlot, NameA;
  }

  /** The first two slots of the full sector name no `A`; the others are deleted. */
  ghost predicate FullSlots(slots: seq<Slot>) {
    && IsDir(slots) && |slots| >= 16
    && (forall i :: 0 <= i < 2 ==> Live(slots[i]) && slots[i][..11] != Name83([65]))
    && forall i :: 2 <= i < 16 ==> slots[i][0] == DELETED
  }

  lemma {:induction false} FullSectorSlots(slots: seq<Slot>)
    requires IsDir(slots) && |slots| >= 16 && forall i :: 0 <= i < 16 ==> slots[i] == SlotIn(FullSector(), i)
    ensures SectorOk(FullSector()) && FullSlots(slots)
  {
    hide FolderSector, Name83, NameA, SlotIn, SectorOk, Live, DeletedSlots, Field;
    FolderSectorFacts(3, 2);
    DotSlots(3, 2);
    Spliced(FolderSector(3, 2));
    OtherName(slots[0], [DOT]);
    OtherName(slots[1], [DOT, DOT]);
  }

  lemma {:induction false} OtherName(e: Slot, s: seq<nat>)
    requires |e| == 32 && |s| > 0 && s[0] == DOT && e[..11] == Field(s, 11)
    ensures e[..11] != Name83([65])
  {
    assert e[..11][0] == DOT && NameA()[0] == 65;
  }

  /** The first two slots of a sector, then deleted ones. */
  lemma {:induction false} Spliced(f: Sector)
    requires SectorOk(f)
    ensures var r := f[..64] + DeletedSlots();
            && SectorOk(r) && (forall i :: 0 <= i < 2 ==> SlotIn(r, i) == SlotIn(f, i))
            && forall i :: 2 <= i < 16 ==> SlotIn(r, i)[0] == DELETED
  {
    var r := f[..64] + DeletedSlots();
    forall i | 0 <= i < 2 ensures SlotIn(r, i) == SlotIn(f, i) { }
    forall i | 2 <= i < 16 ensures SlotIn(r, i)[0] == DELETED { assert r[32 * i] == DeletedSlots()[32 * i - 64]; }
  }

  lemma {:induction false} LateOk()
    ensures DiskOk(SMALL, LateDisk())
  {
    FolderSlotFacts();
    EntrySlotFacts();
    FullSectorSlots(seq(16, i requires 0 <= i < 16 => SlotIn(FullSector(), i)));
    hide FolderSlot, EntrySlot, FullSector, SlotIn, FullSlots;
    PaddedOk(FolderSlot());
    PaddedOk(EntrySlot());
  }

  lemma {:induction false} PaddedOk(e: Slot)
    requires SlotOk(e)
    ensures SectorOk(e + ZeroBytes(480))
  {
    var r := e + ZeroBytes(480);
    assert |r| == 512;
  }

  lemma {:induction false} LateFat()
    requires DiskOk(SMALL, LateDisk())
    ensures var f := Fat(SMALL, LateDisk()); |f| == 6 && f[2] == LAST && f[3] == 4 && f[4] == LAST
  {
    assert LateDisk()[0] == LateTable();
    hide LateDisk, DiskOk, LateTable, Fat;
    LateEntries(LateDisk());
  }

  lemma {:induction false} LateEntries(d: Disk)
    requires DiskOk(SMALL, d) && d[0] == LateTable()
    ensures var f := Fat(SMALL, d); |f| == 6 && f[2] == LAST && f[3] == 4 && f[4] == LAST
  {
    LateWords();
    hide LateTable, Le32, DiskOk, Fat;
    TableEntry(d, 2);
    TableEntry(d, 3);
    TableEntry(d, 4);
  }

  lemma {:induction false} LateWords()
    ensures Le32(LateTable(), 8) == LAST && Le32(LateTable(), 12) == 4 && Le32(LateTable(), 16) == LAST
  {
    var t := LateTable();
    hide LateTable;
    assert t[8] == t[9] == t[10] == 0xFF && t[11] == 0x0F;
    assert t[12] == 4 && t[13] == t[14] == t[15] == 0;
    assert t[16] == t[17] == t[18] == 0xFF && t[19] == 0x0F;
  }

  lemma {:induction false} LateFamily(f: seq<nat>)
    requires |f| == 6 && f[2] == LAST && f[3] == 4 && f[4] == LAST
    ensures Family(f, {[2], [3, 4]})
  {
    assert Link(f, [2], 0) && Link(f, [3, 4], 0) && Link(f, [3, 4], 1);
    assert IsChain(f, [2]) && IsChain(f, [3, 4]);
  }

  lemma {:induction false} TwoSectors(a: nat, b: nat)
    requires 2 <= a <= 5 && 2 <= b <= 5
    ensures Clusters(SMALL, [a, b]) && SectorList(SMALL, [a, b]) == [a - 1, b - 1]
  {
    OneSector(a);
    OneSector(b);
    hide Times, SectorList;
    SectorListAppend(SMALL, [a], b);
    SectorListAppend(SMALL, [], b);
    assert [] + [b] == [b] && [a] + [b] == [a, b] && SectorList(SMALL, []) == [];
  }

  /** The slots of a two-sector directory. */
  lemma {:induction false} SlotsOfTwo(d: Disk, a: nat, b: nat)
    requires DiskOk(SMALL, d) && 2 <= a <= 5 && 2 <= b <= 5
    ensures Clusters(SMALL, [a, b]) && a - 1 < |d| && b - 1 < |d| && |d[a - 1]| == |d[b - 1]| == 512
    ensures |DirSlots(SMALL, d, [a, b])| == 32
    ensures forall i :: 0 <= i < 16 ==> DirSlots(SMALL, d, [a, b])[i] == SlotIn(d[a - 1], i)
    ensures forall i :: 16 <= i < 32 ==> DirSlots(SMALL, d, [a, b])[i] == SlotIn(d[b - 1], i - 16)
  {
    hide DiskOk, DirSlots, SectorList, SlotIn;
    TwoSectors(a, b);
    SectorSlots(SMALL, d, [a, b], 0, a - 1);
    SectorSlots(SMALL, d, [a, b], 1, b - 1);
  }

  /** The folder's slots: the full sector, then the entry. */
  ghost predicate LateSlots(slots: seq<Slot>) {
    && FullSlots(slots) && |slots| == 32 && Live(slots[16]) && slots[16][..11] == Name83([65])
  }

  /** The slots of the root: the folder, then an end mark. */
  ghost predicate RootSlots(slots: seq<Slot>) {
    && IsDir(slots) && |slots| == 16 && Live(slots[0]) && IsFolder(slots[0]) && FirstCluster(slots[0]) == 3
    && forall i :: 0 < i < 16 ==> slots[i][0] == 0
  }

  lemma {:induction false} LateDirs()
    requires DiskOk(SMALL, LateDisk())
    ensures Clusters(SMALL, [2]) && Clusters(SMALL, [3, 4])
    ensures RootSlots(DirSlots(SMALL, LateDisk(), [2])) && LateSlots(DirSlots(SMALL, LateDisk(), [3, 4]))
  {
    var d := LateDisk();
    assert d[1] == FolderSlot() + ZeroBytes(480) && d[2] == FullSector() && d[3] == EntrySlot() + ZeroBytes(480);
    hide LateDisk, FolderSlot, EntrySlot, DirSlots, DiskOk, FullSector, FullSlots, Live, IsFolder, FirstCluster,
         SlotOk, Name83, SlotIn;
    FolderSlotFacts();
    EntrySlotFacts();
    SlotsOf(d, 2);
    SlotsOfTwo(d, 3, 4);
    PaddedSlots(FolderSlot());
    PaddedSlots(EntrySlot());
    FullSectorSlots(DirSlots(SMALL, d, [3, 4]));
  }

  lemma {:induction false} PaddedSlots(e: Slot)
    requires |e| == 32
    ensures SlotIn(e + ZeroBytes(480), 0) == e
    ensures forall i :: 0 < i < 16 ==> SlotIn(e + ZeroBytes(480), i)[0] == 0
  {
    var r := e + ZeroBytes(480);
    assert SlotIn(r, 0) == e;
  }

  /** The lookup of `A` passes over the folder's own slots and the deleted ones and finds slot 16. */
  lemma {:induction false} LateFound(slots: seq<Slot>, junk: seq<nat>)
    requires LateSlots(slots) && |junk| == LFN_BUFFER
    ensures Lookup(slots, junk, [65]) == 16 && LateEntry(slots)
  {
    hide Search, Name83, SameName;
    PassesOver(slots, 0, Acc(junk, 0, 0));
    assert Entry(slots, 16);
  }

  lemma {:induction false} PassesOver(slots: seq<Slot>, k: nat, a: Acc)
    requires LateSlots(slots) && k <= 16 && |a.text| == LFN_BUFFER && a.len == 0
    ensures Search(slots, k, a, [65]) == 16
    decreases 16 - k
  {
    SearchStep(slots, k, a, [65]);
    hide Search, Name83, SameName, LongStep;
    if k < 16 { PassesOver(slots, k + 1, Passed(a, slots[k])); }
  }

  /** On this volume the folder in slot 0 of the root is removed although the lookup finds an entry in it. */
  lemma {:induction false} RemovesNonEmpty(junk: seq<nat>)
    requires |junk| == LFN_BUFFER
    ensures NamesFolder(SMALL, LateDisk(), {[2], [3, 4]}, [2], 0, [3, 4])
    ensures Lookup(DirSlots(SMALL, LateDisk(), [3, 4]), junk, [65]) == 16
    ensures RmdirAnswer(SMALL, LateDisk(), [2], 0) == 0 && HoldsEntry(DirSlots(SMALL, LateDisk(), [3, 4]))
  {
    LateOk();
    LateFat();
    LateDirs();
    hide LateDisk, DirSlots, DiskOk, Fat, FirstCluster, IsFolder, LateSlots, LateEntry, HoldsEntry, Live, Lookup;
    FamilyAndRoot(LateDisk(), DirSlots(SMALL, LateDisk(), [2]));
    LateFound(DirSlots(SMALL, LateDisk(), [3, 4]), junk);
    RemovesHoldingIff(SMALL, LateDisk(), {[2], [3, 4]}, [2], 0, [3, 4]);
  }

  lemma {:induction false} FamilyAndRoot(d: Disk, slots: seq<Slot>)
    requires DiskOk(SMALL, d) && Clusters(SMALL, [2]) && slots == DirSlots(SMALL, d, [2])
    requires var f := Fat(SMALL, d); |f| == 6 && f[2] == LAST && f[3] == 4 && f[4] == LAST
    requires RootSlots(slots)
    ensures Mounted(SMALL, d, {[2], [3, 4]}, [2])
  {
    hide DirSlots, DiskOk, Fat, FirstCluster, Family, IsFolder;
    LateFamily(Fat(SMALL, d));
    var chains := {[2], [3, 4]};
    assert Owned(chains, 3) by { assert [3, 4] in chains; }
  }
}
