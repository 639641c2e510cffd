/** A process's memory regions as a sorted sequence: the value behind the kernel's list. */
module Regions {
  import opened MachineWords

  const PAGE: nat := 0x1000
  const STRIDE: nat := 0x10_0000
  const DEFAULT_BASE: nat := 0x7000_0000
  const TRIES: nat := 100

  datatype Region = Region(start: nat, end: nat, obj: nat, offset: nat, prot: int, flags: int)

  predicate Proper(r: Region) { r.start < r.end && r.start % PAGE == 0 && r.end % PAGE == 0 }

  /** Page-aligned, non-empty, in address order and pairwise disjoint. */
  ghost predicate Ordered(rs: seq<Region>) {
    && (forall i :: 0 <= i < |rs| ==> Proper(rs[i]))
    && (forall i, j :: 0 <= i < j < |rs| ==> rs[i].end <= rs[j].start)
  }

  predicate Meets(r: Region, start: nat, end: nat) { r.start < end && r.end > start }

  ghost predicate Free(rs: seq<Region>, start: nat, end: nat) {
    forall i :: 0 <= i < |rs| ==> !Meets(rs[i], start, end)
  }

  /** `(x + 0xFFF) & ~0xFFF` in 64 bits: 0 when the sum wraps. */
  function RoundUp(x: nat): nat { Wrap(x + PAGE - 1) / PAGE * PAGE }

  ghost function InsertAt(rs: seq<Region>, k: nat, r: Region): seq<Region>
    requires k <= |rs|
  {
    rs[..k] + [r] + rs[k..]
  }

  /** How many regions start below `addr`, counted from the front. */
  ghost function Position(rs: seq<Region>, addr: nat): (k: nat)
    ensures k <= |rs|
    ensures forall i :: 0 <= i < k ==> rs[i].start < addr
    ensures k < |rs| ==> rs[k].start >= addr
  {
    if rs == [] || rs[0].start >= addr then 0 else
      var k := Position(rs[1..], addr) + 1;
      assert forall i :: 1 <= i < k ==> rs[i] == rs[1..][i - 1];
      k
  }

  ghost function Insert(rs: seq<Region>, r: Region): seq<Region> {
    InsertAt(rs, Position(rs, r.start), r)
  }

  /** The list then holds the region. */
  lemma {:induction false} InsertHolds(rs: seq<Region>, r: Region)
    ensures r in Insert(rs, r) && |Insert(rs, r)| == |rs| + 1 && forall x :: x in rs ==> x in Insert(rs, r)
  {
    var k := Position(rs, r.start);
    assert Insert(rs, r)[k] == r;
    forall x | x in rs ensures x in Insert(rs, r) {
      var i :| 0 <= i < |rs| && rs[i] == x;
      assert Insert(rs, r)[if i < k then i else i + 1] == x;
    }
  }

  /** The loop's stopping point is the position. */
  lemma PositionUnique(rs: seq<Region>, addr: nat, k: nat)
    requires k <= |rs| && (forall i :: 0 <= i < k ==> rs[i].start < addr) && (k < |rs| ==> rs[k].start >= addr)
    ensures Position(rs, addr) == k
  {
  }

  lemma {:induction false} InsertOrdered(rs: seq<Region>, r: Region)
    requires Ordered(rs) && Proper(r) && Free(rs, r.start, r.end)
    ensures Ordered(Insert(rs, r))
  {
    var k := Position(rs, r.start);
    SplitAround(rs, r, k);
    InsertAtOrdered(rs, k, r);
  }

  /** The regions before the position end before the new one starts, the others start after it ends. */
  lemma {:induction false} SplitAround(rs: seq<Region>, r: Region, k: nat)
    requires Ordered(rs) && Proper(r) && Free(rs, r.start, r.end) && k <= |rs|
    requires (forall i :: 0 <= i < k ==> rs[i].start < r.start) && (k < |rs| ==> rs[k].start >= r.start)
    ensures forall i :: 0 <= i < k ==> rs[i].end <= r.start
    ensures forall i :: k <= i < |rs| ==> r.end <= rs[i].start
  {
    forall i | 0 <= i < k ensures rs[i].end <= r.start { assert !Meets(rs[i], r.start, r.end); }
    forall i | k <= i < |rs| ensures r.end <= rs[i].start {
      assert !Meets(rs[i], r.start, r.end);
      assert i > k ==> rs[k].end <= rs[i].start;
    }
  }

  lemma {:induction false} InsertAtOrdered(rs: seq<Region>, k: nat, r: Region)
    requires Ordered(rs) && Proper(r) && k <= |rs|
    requires (forall i :: 0 <= i < k ==> rs[i].end <= r.start) && (forall i :: k <= i < |rs| ==> r.end <= rs[i].start)
    ensures Ordered(InsertAt(rs, k, r))
  {
    var t := InsertAt(rs, k, r);
    assert forall i :: 0 <= i < |t| ==> t[i] == if i < k then rs[i] else if i == k then r else rs[i - 1];
    hide Proper;
  }

  /** A region whose end wrapped past 2^64 spoils the list. */
  lemma {:induction false} InsertImproper(rs: seq<Region>, r: Region)
    requires !Proper(r)
    ensures !Ordered(Insert(rs, r))
  {
    assert Insert(rs, r)[Position(rs, r.start)] == r;
  }

  /** The region that `[addr, addr + n)` becomes when its end is computed in 64 bits. */
  function Placed(addr: nat, n: nat, obj: nat, offset: nat, prot: int, flags: int): Region {
    Region(addr, Wrap(addr + n), obj, offset, prot, flags)
  }

  /** Entering a free range keeps the list ordered if and only if the range does not wrap. */
  lemma {:induction false} PlacedOrdered(rs: seq<Region>, addr: nat, n: nat, obj: nat, offset: nat, prot: int,
                                         flags: int)
    requires Ordered(rs) && Free(rs, addr, Wrap(addr + n)) && addr < W64 && 0 < n < W64 && addr % PAGE == 0
    requires n % PAGE == 0
    ensures Ordered(Insert(rs, Placed(addr, n, obj, offset, prot, flags))) <==> addr + n < W64
  {
    var r := Placed(addr, n, obj, offset, prot, flags);
    if addr + n < W64 {
      InsertOrdered(rs, r);
    } else {
      assert r.end == addr + n - W64 < addr;
      InsertImproper(rs, r);
    }
  }

  predicate Within(r: Region, start: nat, end: nat) { r.start >= start && r.end <= end }

  /** The regions not wholly inside `[start, end)`, in order. */
  ghost function Outside(rs: seq<Region>, start: nat, end: nat): seq<Region> {
    if rs == [] then []
    else
      var n := |rs| - 1;
      Outside(rs[..n], start, end) + if Within(rs[n], start, end) then [] else [rs[n]]
  }

  lemma {:induction false} OutsideMembers(rs: seq<Region>, start: nat, end: nat)
    ensures forall r :: r in Outside(rs, start, end) <==> r in rs && !Within(r, start, end)
  {
    if rs != [] {
      var n := |rs| - 1;
      OutsideMembers(rs[..n], start, end);
      assert rs == rs[..n] + [rs[n]];
    }
  }

  lemma {:induction false} OutsideOrdered(rs: seq<Region>, start: nat, end: nat)
    requires Ordered(rs)
    ensures Ordered(Outside(rs, start, end))
  {
    if rs != [] {
      var n := |rs| - 1;
      var t := Outside(rs[..n], start, end);
      OutsideOrdered(rs[..n], start, end);
      OutsideMembers(rs[..n], start, end);
      forall i | 0 <= i < |t| ensures t[i].end <= rs[n].start {
        assert t[i] in rs[..n];
        var j :| 0 <= j < n && rs[j] == t[i];
      }
    }
  }

  // ---- the removal loop, round by round ----------------------------------------------------

  /** The list once the first `i` regions have been looked at. */
  ghost function Progress(rs: seq<Region>, start: nat, end: nat, i: nat): seq<Region>
    requires i <= |rs|
  {
    Outside(rs[..i], start, end) + rs[i..]
  }

  ghost function Kept(rs: seq<Region>, start: nat, end: nat, i: nat): nat
    requires i <= |rs|
  {
    |Outside(rs[..i], start, end)|
  }

  lemma RoundsEnds(rs: seq<Region>, start: nat, end: nat)
    ensures Progress(rs, start, end, 0) == rs && Kept(rs, start, end, 0) == 0
    ensures Progress(rs, start, end, |rs|) == Outside(rs, start, end)
  {
    assert rs[..|rs|] == rs;
  }

  lemma RoundsSize(rs: seq<Region>, start: nat, end: nat, i: nat)
    requires i <= |rs|
    ensures |Progress(rs, start, end, i)| == Kept(rs, start, end, i) + |rs| - i
    ensures i < |rs| ==> Progress(rs, start, end, i)[Kept(rs, start, end, i)] == rs[i]
  {
  }

  lemma RoundsStep(rs: seq<Region>, start: nat, end: nat, i: nat)
    requires i < |rs|
    ensures var p, k := Progress(rs, start, end, i), Kept(rs, start, end, i);
            && k < |p|
            && Progress(rs, start, end, i + 1) == (if Within(p[k], start, end) then p[..k] + p[k + 1..] else p)
            && Kept(rs, start, end, i + 1) == (if Within(p[k], start, end) then k else k + 1)
  {
    assert rs[..i + 1][..i] == rs[..i];
    assert rs[i..] == [rs[i]] + rs[i + 1..];
  }

  /** Appending to an ordered list whose regions all lie below keeps the order of insertion. */
  lemma InsertLast(rs: seq<Region>, r: Region)
    requires forall i :: 0 <= i < |rs| ==> rs[i].start < r.start
    ensures Insert(rs, r) == rs + [r]
  {
    PositionUnique(rs, r.start, |rs|);
  }

  // ---- searching for room --------------------------------------------------------------------

  /** The address asked for. */
  function Wanted(hint: nat, min: nat): nat {
    var c := if hint != 0 then hint else DEFAULT_BASE;
    if c < min then min else c
  }

  /** Where the search starts. */
  function SearchBase(hint: nat, min: nat): nat { RoundUp(Wanted(hint, min)) }

  function Candidate(base: nat, k: nat): nat { Wrap(base + k * STRIDE) }

  /** The bound the search loop tests for candidate `k`. */
  predicate InBounds(base: nat, n: nat, max: nat, k: nat) { Wrap(Candidate(base, k) + n) <= max }

  ghost predicate Vacant(rs: seq<Region>, base: nat, n: nat, k: nat) {
    Free(rs, Candidate(base, k), Wrap(Candidate(base, k) + n))
  }

  /** The search gets past the first `k` candidates. */
  ghost predicate Passed(rs: seq<Region>, base: nat, n: nat, max: nat, k: nat) {
    forall j: nat :: j < k ==> InBounds(base, n, max, j) && !Vacant(rs, base, n, j)
  }

  /** The search takes candidate `k`. */
  ghost predicate FirstFit(rs: seq<Region>, base: nat, n: nat, max: nat, k: nat) {
    k < TRIES && Passed(rs, base, n, max, k) && InBounds(base, n, max, k) && Vacant(rs, base, n, k)
  }

  /** The search gives up at candidate `k`: out of bounds, or one too many. */
  ghost predicate GivesUp(rs: seq<Region>, base: nat, n: nat, max: nat, k: nat) {
    k <= TRIES && Passed(rs, base, n, max, k) && (k == TRIES || !InBounds(base, n, max, k))
  }

  ghost predicate NoFit(rs: seq<Region>, base: nat, n: nat, max: nat) {
    exists k: nat :: GivesUp(rs, base, n, max, k)
  }

  lemma {:induction false} RoundUpFacts(x: nat)
    requires x < W64
    ensures RoundUp(x) % PAGE == 0 && RoundUp(x) < W64 && RoundUp(RoundUp(x)) == RoundUp(x)
    ensures x + PAGE - 1 < W64 ==> x <= RoundUp(x) < x + PAGE
    ensures RoundUp(x) == 0 <==> x == 0 || x + PAGE - 1 >= W64
  {
    RoundedUp(x);
    RoundedUp(RoundUp(x));
  }

  lemma {:induction false} RoundedUp(x: nat)
    requires x < W64
    ensures if x + PAGE - 1 < W64 then RoundUp(x) == (x + PAGE - 1) / PAGE * PAGE else RoundUp(x) == 0
    ensures RoundUp(x) % PAGE == 0 && RoundUp(x) <= W64 - PAGE
  {
    if x + PAGE - 1 >= W64 { assert Wrap(x + PAGE - 1) == x + PAGE - 1 - W64 < PAGE; }
  }

  /** It takes a candidate or gives up, not both. */
  lemma {:induction false} FitOrNone(rs: seq<Region>, base: nat, n: nat, max: nat, k: nat)
    requires FirstFit(rs, base, n, max, k)
    ensures !NoFit(rs, base, n, max) && Vacant(rs, base, n, k)
  {
    forall j: nat ensures !GivesUp(rs, base, n, max, j) { }
  }

  lemma {:induction false} CandidateAligned(base: nat, k: nat)
    requires base % PAGE == 0
    ensures Candidate(base, k) % PAGE == 0
  {
  }

  lemma {:induction false} SearchAligned(hint: nat, min: nat)
    requires hint < W64 && min < W64
    ensures SearchBase(hint, min) % PAGE == 0
  {
    RoundedUp(if hint != 0 && hint >= min then hint else min);
    RoundedUp(if DEFAULT_BASE < min then min else DEFAULT_BASE);
  }

  lemma {:induction false} SearchStart(hint: nat, min: nat)
    ensures Candidate(SearchBase(hint, min), 0) == SearchBase(hint, min)
    ensures forall k: nat ::
              Wrap(Candidate(SearchBase(hint, min), k) + STRIDE) == Candidate(SearchBase(hint, min), k + 1)
  {
  }

  lemma {:induction false} VacantIsFree(rs: seq<Region>, base: nat, n: nat, k: nat)
    ensures Vacant(rs, base, n, k) <==> Free(rs, Candidate(base, k), Wrap(Candidate(base, k) + n))
  {
  }

  /** Candidate `k` lies within bounds and is free, in plain arithmetic. */
  ghost predicate Fits(rs: seq<Region>, base: nat, n: nat, max: nat, k: nat) {
    base + k * STRIDE + n <= max && Free(rs, base + k * STRIDE, base + k * STRIDE + n)
  }

  /** Where nothing wraps the search takes the first of the 100 candidates that is free and in bounds, and
      gives up exactly when none is. */
  lemma {:induction false} SearchIsFirstFit(rs: seq<Region>, base: nat, n: nat, max: nat)
    requires base + TRIES * STRIDE + n < W64
    ensures forall k: nat :: FirstFit(rs, base, n, max, k) <==>
              k < TRIES && Fits(rs, base, n, max, k) && forall j: nat :: j < k ==> !Fits(rs, base, n, max, j)
    ensures NoFit(rs, base, n, max) <==> forall j: nat :: j < TRIES ==> !Fits(rs, base, n, max, j)
  {
    forall k: nat | k < TRIES
      ensures Fits(rs, base, n, max, k) <==> InBounds(base, n, max, k) && Vacant(rs, base, n, k)
    {
      PlainSums(base, n, k);
    }
    forall j: nat, k: nat | j <= k < TRIES && InBounds(base, n, max, k) ensures InBounds(base, n, max, j) {
      PlainSums(base, n, j);
      PlainSums(base, n, k);
    }
    hide InBounds, Vacant, Fits;
    forall k: nat ensures FirstFit(rs, base, n, max, k) <==>
                          k < TRIES && Fits(rs, base, n, max, k) && forall j: nat :: j < k ==>
                            !Fits(rs, base, n, max, j)
    {
    }
    if NoFit(rs, base, n, max) {
      var k: nat :| GivesUp(rs, base, n, max, k);
      forall j: nat | j < TRIES ensures !Fits(rs, base, n, max, j) { }
    } else if forall j: nat :: j < TRIES ==> !Fits(rs, base, n, max, j) {
      forall j: nat | j < TRIES ensures !InBounds(base, n, max, j) || !Vacant(rs, base, n, j) {
        assert !Fits(rs, base, n, max, j);
      }
      NoneFits(rs, base, n, max, 0);
    }
  }

  lemma {:induction false} PlainSums(base: nat, n: nat, k: nat)
    requires base + TRIES * STRIDE + n < W64 && k < TRIES
    ensures Candidate(base, k) == base + k * STRIDE && Wrap(Candidate(base, k) + n) == base + k * STRIDE + n
  {
  }

  lemma {:induction false} NoneFits(rs: seq<Region>, base: nat, n: nat, max: nat, k: nat)
    requires k <= TRIES && Passed(rs, base, n, max, k)
    requires forall j: nat :: k <= j < TRIES ==> !InBounds(base, n, max, j) || !Vacant(rs, base, n, j)
    ensures NoFit(rs, base, n, max)
    decreases TRIES - k
  {
    if k == TRIES || !InBounds(base, n, max, k) {
      assert GivesUp(rs, base, n, max, k);
    } else {
      NoneFits(rs, base, n, max, k + 1);
    }
  }

  /** With hint 0xFFFFFFFFFFFFF000 and two pages, in an empty list with the kernel's bounds, the search takes
      the first candidate and the region it enters ends before it starts. */
  lemma {:induction false} WrappedHint()
    ensures var base := SearchBase(0xFFFF_FFFF_FFFF_F000, 0x10000);
            var r := Placed(Candidate(base, 0), 0x2000, 0, 0, 0, 0);
            && FirstFit([], base, 0x2000, 0x7FFF_F000, 0)
            && r.start == 0xFFFF_FFFF_FFFF_F000 && r.end == 0x1000 && !Ordered(Insert([], r))
  {
    var base := SearchBase(0xFFFF_FFFF_FFFF_F000, 0x10000);
    assert base == 0xFFFF_FFFF_FFFF_F000;
    InsertImproper([], Placed(Candidate(base, 0), 0x2000, 0, 0, 0, 0));
  }

  /** The map's bounds leave room below 2^64 and no region ends above them. */
  ghost predicate Bounded(rs: seq<Region>, min: nat, max: nat) {
    min <= STRIDE && max + TRIES * STRIDE < W64 && forall i :: 0 <= i < |rs| ==> rs[i].end <= max
  }

  /** The search for `n` bytes starts at an address that does not wrap; where the rounding wraps to 0 it leaves 0
      again, because something is there. */
  ghost predicate StartsInside(rs: seq<Region>, hint: nat, n: nat, min: nat) {
    if Wanted(hint, min) + PAGE - 1 < W64 then SearchBase(hint, min) + n < W64 else min == 0 || !Free(rs, 0, n)
  }

  /** The range found lies in the map's bounds if and only if the search started inside them. */
  lemma {:induction false} FoundInside(rs: seq<Region>, hint: nat, n: nat, min: nat, max: nat, k: nat)
    requires Bounded(rs, min, max) && hint < W64 && 0 < n < W64
    requires FirstFit(rs, SearchBase(hint, min), n, max, k)
    ensures var addr := Candidate(SearchBase(hint, min), k);
            min <= addr && addr + n <= max <==> StartsInside(rs, hint, n, min)
  {
    var base := SearchBase(hint, min);
    RoundUpFacts(Wanted(hint, min));
    hide Free, RoundUp, Vacant;
    VacantIsFree(rs, base, n, 0);
    if base + n < W64 {
      assert InBounds(base, n, max, 0);
      PlainCandidate(base, max, n, k);
    } else if base <= max {
      PlainCandidate(base, max, 0, k);
    } else {
      AboveAll(rs, base, n, max);
    }
  }

  lemma {:induction false} PlainCandidate(base: nat, max: nat, n: nat, k: nat)
    requires base + n <= max && max + TRIES * STRIDE < W64 && k < TRIES
    ensures Candidate(base, k) == base + k * STRIDE && base <= Candidate(base, k)
    ensures Wrap(Candidate(base, k) + n) == Candidate(base, k) + n
    ensures k > 0 ==> Candidate(base, k) >= STRIDE
  {
    assert k * STRIDE <= TRIES * STRIDE && (k > 0 ==> k * STRIDE >= STRIDE);
  }

  lemma {:induction false} AboveAll(rs: seq<Region>, base: nat, n: nat, max: nat)
    requires max < base < W64 && forall i :: 0 <= i < |rs| ==> rs[i].end <= max
    ensures Vacant(rs, base, n, 0) && Candidate(base, 0) == base
  {
  }

  /** A new region keeps the bounds. */
  lemma {:induction false} BoundedInsert(rs: seq<Region>, min: nat, max: nat, r: Region)
    requires Bounded(rs, min, max) && r.end <= max
    ensures Bounded(Insert(rs, r), min, max)
  {
    var k, t := Position(rs, r.start), Insert(rs, r);
    assert forall i :: 0 <= i < |t| ==> t[i] == if i < k then rs[i] else if i == k then r else rs[i - 1];
  }

  lemma {:induction false} FoundBounded(rs: seq<Region>, hint: nat, n: nat, min: nat, max: nat, k: nat, r: Region)
    requires hint < W64 && 0 < n < W64 && FirstFit(rs, SearchBase(hint, min), n, max, k)
    requires r.end == Wrap(Candidate(SearchBase(hint, min), k) + n)
    ensures Bounded(rs, min, max) ==> Bounded(Insert(rs, r), min, max)
    ensures Bounded(rs, min, max) ==> var addr := Candidate(SearchBase(hint, min), k);
              (min <= addr && addr + n <= max <==> StartsInside(rs, hint, n, min))
  {
    if Bounded(rs, min, max) {
      FoundInside(rs, hint, n, min, max, k);
      hide Bounded, StartsInside, Insert, SearchBase, Vacant;
      BoundedInsert(rs, min, max, r);
    }
  }

  /** The top page's second byte as a hint: it rounds up to 0, and the region lands below the map's lower bound. */
  lemma {:induction false} RoundedHint()
    ensures FirstFit([], SearchBase(0xFFFF_FFFF_FFFF_F001, 0x10000), 0x1000, 0x7FFF_F000, 0)
    ensures Candidate(SearchBase(0xFFFF_FFFF_FFFF_F001, 0x10000), 0) == 0
  {
    RoundUpFacts(0xFFFF_FFFF_FFFF_F001);
    assert SearchBase(0xFFFF_FFFF_FFFF_F001, 0x10000) == 0;
    hide RoundUp;
  }

  // ---- copying a region list ------------------------------------------------------------------

  /** A copy keeps address range, protection and flags, and starts without an object. */
  function Copy(r: Region): Region { Region(r.start, r.end, 0, 0, r.prot, r.flags) }

  /** Copies of the regions whose entry could be allocated. */
  ghost function Copies(rs: seq<Region>, memory: seq<bool>): seq<Region>
    requires |memory| == |rs|
  {
    if rs == [] then []
    else
      var n := |rs| - 1;
      Copies(rs[..n], memory[..n]) + if memory[n] then [Copy(rs[n])] else []
  }

  /** With every allocation granted the copy has the same regions in the same order. */
  lemma {:induction false} CopiesAll(rs: seq<Region>, memory: seq<bool>)
    requires |memory| == |rs| && forall i :: 0 <= i < |rs| ==> memory[i]
    ensures |Copies(rs, memory)| == |rs|
    ensures forall i :: 0 <= i < |rs| ==> var c, r := Copies(rs, memory)[i], rs[i];
              c.start == r.start && c.end == r.end && c.prot == r.prot && c.flags == r.flags && c.obj == 0 == c.offset
  {
    if rs != [] {
      var n := |rs| - 1;
      CopiesAll(rs[..n], memory[..n]);
    }
  }

  lemma {:induction false} CopiesBelow(rs: seq<Region>, memory: seq<bool>, r: Region)
    requires |memory| == |rs| && forall i :: 0 <= i < |rs| ==> rs[i].end <= r.start && Proper(rs[i])
    ensures forall i :: 0 <= i < |Copies(rs, memory)| ==>
              Copies(rs, memory)[i].end <= r.start && Copies(rs, memory)[i].start < r.start
  {
    if rs != [] {
      var n := |rs| - 1;
      CopiesBelow(rs[..n], memory[..n], r);
    }
  }

  /** Entering one region of the source list into the copy: nothing happens for an empty one, or when the
      fixed mapping fails. */
  ghost function CopyOne(done: seq<Region>, r: Region, memory: bool): seq<Region> {
    var n := RoundUp(if r.end > r.start then r.end - r.start else 0);
    if n > 0 && r.start % PAGE == 0 && Free(done, r.start, Wrap(r.start + n)) && memory
    then Insert(done, Placed(r.start, n, 0, 0, r.prot, r.flags))
    else done
  }

  ghost function CopyFold(rs: seq<Region>, memory: seq<bool>): seq<Region>
    requires |memory| == |rs|
  {
    if rs == [] then []
    else var n := |rs| - 1; CopyOne(CopyFold(rs[..n], memory[..n]), rs[n], memory[n])
  }

  lemma {:induction false} CopyFoldStep(rs: seq<Region>, memory: seq<bool>, i: nat)
    requires |memory| == |rs| && i < |rs|
    ensures CopyFold(rs[..i + 1], memory[..i + 1]) == CopyOne(CopyFold(rs[..i], memory[..i]), rs[i], memory[i])
  {
    hide CopyOne;
    assert rs[..i + 1][..i] == rs[..i] && memory[..i + 1][..i] == memory[..i];
  }

  ghost predicate Words(rs: seq<Region>) { forall i :: 0 <= i < |rs| ==> rs[i].start < W64 && rs[i].end < W64 }

  /** An ordered list is copied region by region, as far as memory allows. */
  lemma {:induction false} CopyOrdered(rs: seq<Region>, memory: seq<bool>)
    requires |memory| == |rs| && Ordered(rs) && Words(rs)
    ensures CopyFold(rs, memory) == Copies(rs, memory)
  {
    if rs != [] {
      var n := |rs| - 1;
      CopyOrdered(rs[..n], memory[..n]);
      CopiesBelow(rs[..n], memory[..n], rs[n]);
      CopyLast(Copies(rs[..n], memory[..n]), rs[n], memory[n]);
    }
  }

  lemma {:induction false} CopyLast(done: seq<Region>, r: Region, memory: bool)
    requires Proper(r) && r.end < W64
    requires forall i :: 0 <= i < |done| ==> done[i].end <= r.start && done[i].start < r.start
    ensures CopyOne(done, r, memory) == done + if memory then [Copy(r)] else []
  {
    AlreadyRound(r.end - r.start, r);
    hide RoundUp, Insert;
    InsertLast(done, Copy(r));
  }

  lemma {:induction false} AlreadyRound(n: nat, r: Region)
    requires Proper(r) && r.end < W64 && n == r.end - r.start
    ensures RoundUp(n) == n
  {
    RoundedUp(n);
    assert n % PAGE == 0;
  }

  lemma {:induction false} CopyFoldSize(rs: seq<Region>, memory: seq<bool>)
    requires |memory| == |rs|
    ensures |CopyFold(rs, memory)| <= |rs|
  {
    if rs != [] { CopyFoldSize(rs[..|rs| - 1], memory[..|rs| - 1]); }
  }

  /** A region that does not end after its start is lost in the copy, so the copy is shorter. */
  lemma {:induction false} CopyLoses(rs: seq<Region>, memory: seq<bool>, i: nat)
    requires |memory| == |rs| && i < |rs| && rs[i].end <= rs[i].start
    ensures |CopyFold(rs, memory)| < |rs|
  {
    var n := |rs| - 1;
    RoundedUp(0);
    if i == n {
      CopyFoldSize(rs[..n], memory[..n]);
    } else {
      CopyLoses(rs[..n], memory[..n], i);
    }
  }
}
