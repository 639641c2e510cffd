/** Directories as 32-byte slots: short and long names, and the search by name. */
module FatDir {
  import opened FatDisk
  import opened FatSectors

  type Slot = seq<nat>

  const DELETED: nat := 0xE5
  const LONG: nat := 0x0F
  const SPACE: nat := 0x20
  const DOT: nat := 0x2E
  const LFN_BUFFER: nat := 264

  // ---- slots ---------------------------------------------------------------------------------------

  function SlotIn(sec: Sector, i: nat): (r: Slot)
    requires |sec| == 512 && i < 16
    ensures |r| == 32
  {
    sec[32 * i..32 * i + 32]
  }

  ghost predicate IsDir(slots: seq<Slot>) { forall k :: 0 <= k < |slots| ==> |slots[k]| == 32 }

  /** The slots of a directory, in order. */
  ghost function Slots(d: Disk, secs: seq<nat>): (r: seq<Slot>)
    requires OnDisk(d, secs)
    ensures |r| == 16 * |secs| && IsDir(r)
    ensures forall k :: 0 <= k < |r| ==> r[k] == SlotIn(d[secs[k / 16]], k % 16)
  {
    seq(16 * |secs|, k requires 0 <= k < 16 * |secs| => SlotIn(d[secs[k / 16]], k % 16))
  }

  function FirstCluster(e: Slot): nat
    requires |e| == 32
  {
    (e[20] + 0x100 * e[21]) * 0x1_0000 + e[26] + 0x100 * e[27]
  }

  function FileSize(e: Slot): nat
    requires |e| == 32
  {
    Le32(e, 28)
  }

  function Le16(v: nat): seq<nat> { [v % 0x100, v / 0x100 % 0x100] }

  /** Points the slot at a cluster. */
  function WithCluster(e: Slot, c: nat): (r: Slot)
    requires |e| == 32
    ensures |r| == 32
  {
    Patch(Patch(e, 26, Le16(c % 0x1_0000)), 20, Le16(c / 0x1_0000))
  }

  function WithSize(e: Slot, n: nat): (r: Slot)
    requires |e| == 32
    ensures |r| == 32
  {
    Patch(e, 28, Bytes32(n))
  }

  lemma {:induction false} ClusterRoundTrip(e: Slot, c: nat)
    requires |e| == 32 && c < 0x1_0000_0000
    ensures FirstCluster(WithCluster(e, c)) == c
    ensures FileSize(WithCluster(e, c)) == FileSize(e) && WithCluster(e, c)[..12] == e[..12]
  {
    var lo, hi := c % 0x1_0000, c / 0x1_0000;
    assert lo % 0x100 + 0x100 * (lo / 0x100 % 0x100) == lo;
    assert hi % 0x100 + 0x100 * (hi / 0x100 % 0x100) == hi;
  }

  lemma SizeRoundTrip(e: Slot, n: nat)
    requires |e| == 32 && n < 0x1_0000_0000
    ensures FileSize(WithSize(e, n)) == n
    ensures FirstCluster(WithSize(e, n)) == FirstCluster(e) && WithSize(e, n)[..12] == e[..12]
  {
    PatchLe32(e, 28, n, 28);
  }

  // ---- names ---------------------------------------------------------------------------------------

  function Upper(c: nat): nat { if 0x61 <= c <= 0x7A then c - 0x20 else c }

  function Uppers(s: seq<nat>): (r: seq<nat>)
    ensures |r| == |s| && forall i :: 0 <= i < |s| ==> r[i] == Upper(s[i])
  {
    seq(|s|, i requires 0 <= i < |s| => Upper(s[i]))
  }

  /** The first `n` characters in upper case, filled with spaces. */
  function Field(s: seq<nat>, n: nat): (r: seq<nat>)
    ensures |r| == n && forall i :: 0 <= i < n ==> r[i] == if i < |s| then Upper(s[i]) else SPACE
  {
    seq(n, i requires 0 <= i < n => if i < |s| then Upper(s[i]) else SPACE)
  }

  /** Position of the first dot, or the length. */
  function DotAt(s: seq<nat>): (r: nat)
    ensures r <= |s| && (r < |s| ==> s[r] == DOT) && forall i :: 0 <= i < r ==> s[i] != DOT
  {
    if s == [] || s[0] == DOT then 0 else 1 + DotAt(s[1..])
  }

  ghost predicate IsName(s: seq<nat>) { forall i :: 0 <= i < |s| ==> 0 < s[i] < 0x100 }

  /** The padded 8.3 form of a name. */
  function Name83(s: seq<nat>): (r: seq<nat>)
    ensures |r| == 11
  {
    if s == [DOT] || s == [DOT, DOT] then Field(s, 11)
    else
      var p := DotAt(s);
      Field(s[..p], 8) + Field(if p < |s| then s[p + 1..] else [], 3)
  }

  lemma Name83Start(s: seq<nat>)
    requires IsName(s)
    ensures Name83(s)[0] != 0
  {
  }

  // ---- long names ----------------------------------------------------------------------------------

  /** The name being assembled from long-name slots, its length, and the slot number expected next. */
  datatype Acc = Acc(text: seq<nat>, len: nat, due: nat)

  /** Byte offset of the `k`-th character of a long-name slot. */
  function CharAt(k: nat): (r: nat)
    requires k < 13
    ensures 1 <= r <= 30
  {
    if k < 5 then 1 + 2 * k else if k < 11 then 4 + 2 * k else 6 + 2 * k
  }

  function Unit(e: Slot, k: nat): nat
    requires |e| == 32 && k < 13
  {
    e[CharAt(k)] + 0x100 * e[CharAt(k) + 1]
  }

  /** Copies characters `k..` of a long-name slot to `pos..` until a terminator. */
  function Copied(a: Acc, e: Slot, pos: nat, k: nat): (r: Acc)
    requires |e| == 32 && k <= 13 && pos + 13 < |a.text|
    ensures |r.text| == |a.text| && r.due == a.due && (a.len <= |a.text| ==> r.len <= |a.text|)
    decreases 13 - k
  {
    if k == 13 || Unit(e, k) == 0 || Unit(e, k) == 0xFFFF then a
    else
      var len := if pos + k + 1 > a.len then pos + k + 1 else a.len;
      Copied(a.(text := a.text[pos + k := Unit(e, k) % 0x100], len := len), e, pos, k + 1)
  }

  function Number(e: Slot): nat
    requires |e| == 32
  {
    e[0] % 0x40
  }

  predicate Marked(e: Slot)
    requires |e| == 32
  {
    e[0] / 0x40 % 2 == 1
  }

  /** A long-name slot is met: `0x40` marks the first, later ones count down. */
  function LongStep(a: Acc, e: Slot): (r: Acc)
    requires |e| == 32 && |a.text| == LFN_BUFFER
    ensures |r.text| == LFN_BUFFER && (a.len <= LFN_BUFFER ==> r.len <= LFN_BUFFER)
  {
    var b := if Marked(e) then a.(len := 0, due := Number(e)) else a;
    if b.due >= 1 && Number(e) == b.due && (b.due - 1) * 13 + 13 < LFN_BUFFER
    then Copied(b, e, (b.due - 1) * 13, 0).(due := b.due - 1)
    else b.(len := 0, due := 0)
  }

  /** Equal up to ASCII case. */
  ghost predicate SameName(a: seq<nat>, b: seq<nat>) { Uppers(a) == Uppers(b) }

  // ---- search --------------------------------------------------------------------------------------

  ghost predicate Hit(a: Acc, e: Slot, name: seq<nat>)
    requires |e| == 32 && |a.text| == LFN_BUFFER
  {
    (0 < a.len <= LFN_BUFFER && SameName(a.text[..a.len], name)) || e[..11] == Name83(name)
  }

  /** Position of the slot a name resolves to from slot `k` on, or -1. */
  ghost function Search(slots: seq<Slot>, k: nat, a: Acc, name: seq<nat>): (r: int)
    requires IsDir(slots) && k <= |slots| && |a.text| == LFN_BUFFER
    ensures r == -1 || k <= r < |slots|
    decreases |slots| - k
  {
    if k == |slots| || slots[k][0] == 0 then -1
    else if slots[k][0] == DELETED then Search(slots, k + 1, a.(len := 0), name)
    else if slots[k][11] == LONG then Search(slots, k + 1, LongStep(a, slots[k]), name)
    else if Hit(a, slots[k], name) then k
    else Search(slots, k + 1, a.(len := 0), name)
  }

  ghost function Lookup(slots: seq<Slot>, junk: seq<nat>, name: seq<nat>): (r: int)
    requires IsDir(slots) && |junk| == LFN_BUFFER
    ensures r == -1 || 0 <= r < |slots|
  {
    Search(slots, 0, Acc(junk, 0, 0), name)
  }

  /** The search looks at the first twelve bytes of a slot, and at all of a long-name slot. */
  ghost predicate Alike(e: Slot, e': Slot)
    requires |e| == 32 && |e'| == 32
  {
    e'[..12] == e[..12] && (e[11] == LONG ==> e' == e)
  }

  lemma {:induction false} SearchFrame(slots: seq<Slot>, slots': seq<Slot>, k: nat, a: Acc, name: seq<nat>)
    requires IsDir(slots) && IsDir(slots') && |slots'| == |slots| && k <= |slots| && |a.text| == LFN_BUFFER
    requires forall i :: 0 <= i < |slots| ==> Alike(slots[i], slots'[i])
    ensures Search(slots', k, a, name) == Search(slots, k, a, name)
    decreases |slots| - k
  {
    if k < |slots| {
      var e, e' := slots[k], slots'[k];
      assert Alike(e, e');
      assert e'[0] == e'[..12][0] == e[0] && e'[11] == e'[..12][11] == e[11];
      assert e'[..11] == e'[..12][..11] == e[..12][..11] == e[..11];
      SearchFrame(slots, slots', k + 1, a.(len := 0), name);
      if e[11] == LONG { SearchFrame(slots, slots', k + 1, LongStep(a, e), name); }
    }
  }

  /** The slot names a file or a folder. */
  ghost predicate Live(e: Slot)
    requires |e| == 32
  {
    e[0] != 0 && e[0] != DELETED && e[11] != LONG
  }

  // ---- first slot passing a test ---------------------------------------------------------------------

  /** The tests of the directory loops: a live slot of that name, the same seen by loops that also skip
      never-used slots, a directory of that name, and a slot free for use. */
  datatype Test = Named(name83: seq<nat>) | Used(name83: seq<nat>) | Folder(name83: seq<nat>) | Vacant

  predicate Passes(t: Test, e: Slot)
    requires |e| == 32
  {
    match t
    case Named(n) => e[0] != DELETED && e[11] != LONG && e[..11] == n
    case Used(n) => e[0] != 0 && e[0] != DELETED && e[11] != LONG && e[..11] == n
    case Folder(n) => e[0] != DELETED && e[11] != LONG && e[..11] == n && e[11] / 0x10 % 2 == 1
    case Vacant => e[0] == 0 || e[0] == DELETED
  }

  ghost predicate First(slots: seq<Slot>, t: Test, k: int)
    requires IsDir(slots)
  {
    && -1 <= k < |slots| && (k >= 0 ==> Passes(t, slots[k]))
    && forall i :: 0 <= i < (if k >= 0 then k else |slots|) ==> !Passes(t, slots[i])
  }

  ghost predicate NoLong(slots: seq<Slot>)
    requires IsDir(slots)
  {
    forall k :: 0 <= k < |slots| && slots[k][0] != 0 && slots[k][0] != DELETED ==> slots[k][11] != LONG
  }

  /** The accumulator after slot `e` did not match. */
  ghost function Passed(a: Acc, e: Slot): (r: Acc)
    requires |e| == 32 && |a.text| == LFN_BUFFER
    ensures |r.text| == LFN_BUFFER
  {
    if e[0] != DELETED && e[11] == LONG then LongStep(a, e) else a.(len := 0)
  }

  /** One slot of the search. */
  lemma {:induction false} SearchStep(slots: seq<Slot>, k: nat, a: Acc, name: seq<nat>)
    requires IsDir(slots) && k < |slots| && |a.text| == LFN_BUFFER && slots[k][0] != 0
    ensures Search(slots, k, a, name) ==
            if Live(slots[k]) && Hit(a, slots[k], name) then k else Search(slots, k + 1, Passed(a, slots[k]), name)
  {
    hide Hit, LongStep;
  }

  /** A slot the search passes over does not have the name's 8.3 form. */
  lemma {:induction false} NotNamed(a: Acc, e: Slot, name: seq<nat>)
    requires |e| == 32 && |a.text| == LFN_BUFFER && e[0] != 0 && !(Live(e) && Hit(a, e, name))
    ensures !Passes(Named(Name83(name)), e)
  {
    hide Name83, SameName;
  }

  /** A live slot that matches without a long name has the 8.3 form. */
  lemma {:induction false} IsNamed(a: Acc, e: Slot, name: seq<nat>)
    requires |e| == 32 && |a.text| == LFN_BUFFER && a.len == 0 && Live(e) && Hit(a, e, name)
    ensures Passes(Named(Name83(name)), e)
  {
    hide Name83, SameName;
  }

  /** Without long names the search finds the first live slot with the 8.3 name, which is also the
      first one the update loop meets. */
  lemma {:induction false} SearchShort(slots: seq<Slot>, k: nat, a: Acc, name: seq<nat>, r: int)
    requires IsDir(slots) && NoLong(slots) && k <= |slots| && |a.text| == LFN_BUFFER && a.len == 0
    requires r == Search(slots, k, a, name) && r >= 0
    requires forall i :: 0 <= i < k ==> !Passes(Named(Name83(name)), slots[i])
    ensures First(slots, Named(Name83(name)), r)
    decreases |slots| - k
  {
    SearchBegins(slots, k, a, name);
    SearchStep(slots, k, a, name);
    hide Search, Hit, Name83, LongStep, Passes;
    if r == k && Live(slots[k]) && Hit(a, slots[k], name) {
      IsNamed(a, slots[k], name);
    } else {
      NotNamed(a, slots[k], name);
      SearchShort(slots, k + 1, Passed(a, slots[k]), name, r);
    }
  }

  lemma {:induction false} SearchBegins(slots: seq<Slot>, k: nat, a: Acc, name: seq<nat>)
    requires IsDir(slots) && k <= |slots| && |a.text| == LFN_BUFFER
    requires Search(slots, k, a, name) >= 0
    ensures k < |slots| && slots[k][0] != 0
  {
  }

  /** A name that the search misses has no live slot with its 8.3 form before the end mark, so the
      first vacant slot comes before any slot of that name. */
  lemma {:induction false} SearchMiss(slots: seq<Slot>, a: Acc, name: seq<nat>, v: nat)
    requires IsDir(slots) && v < |slots| && |a.text| == LFN_BUFFER
    requires Search(slots, 0, a, name) == -1 && First(slots, Vacant, v)
    ensures forall i :: 0 <= i < v ==> !Passes(Named(Name83(name)), slots[i])
  {
    forall i | 0 <= i < v ensures Taken(slots[i]) { assert !Passes(Vacant, slots[i]); }
    hide Search, Name83;
    MissFrom(slots, 0, a, name, v);
  }

  ghost predicate Taken(e: Slot) { |e| == 32 && e[0] != 0 && e[0] != DELETED }

  lemma {:induction false} MissFrom(slots: seq<Slot>, k: nat, a: Acc, name: seq<nat>, v: nat)
    requires IsDir(slots) && k <= v < |slots| && |a.text| == LFN_BUFFER && Search(slots, k, a, name) == -1
    requires forall i :: 0 <= i < v ==> Taken(slots[i])
    ensures forall i :: k <= i < v ==> !Passes(Named(Name83(name)), slots[i])
    decreases v - k
  {
    hide Search, Hit, Name83, LongStep, Live, Passes, Passed;
    if k < v {
      SearchStep(slots, k, a, name);
      NotNamed(a, slots[k], name);
      MissFrom(slots, k + 1, Passed(a, slots[k]), name, v);
    }
  }

  // ---- long names ------------------------------------------------------------------------------------

  /** Slots `m..r` are long-name slots in use. */
  ghost predicate LongRun(slots: seq<Slot>, m: nat, r: nat)
    requires IsDir(slots)
  {
    m <= r <= |slots| && forall i :: m <= i < r ==> slots[i][0] != 0 && slots[i][0] != DELETED && slots[i][11] == LONG
  }

  /** What those slots add to the accumulator. */
  ghost function Gathered(a: Acc, slots: seq<Slot>, m: nat, r: nat): (b: Acc)
    requires IsDir(slots) && m <= r <= |slots| && |a.text| == LFN_BUFFER
    ensures |b.text| == LFN_BUFFER
  {
    if m == r then a else LongStep(Gathered(a, slots, m, r - 1), slots[r - 1])
  }

  /** The accumulator holds what the long-name slots directly before `k` say, gathered from nothing. */
  ghost predicate Direct(slots: seq<Slot>, k: nat, a: Acc)
    requires IsDir(slots) && k <= |slots|
  {
    a.len == 0 || exists m: nat, b: Acc :: From(slots, m, k, b, a)
  }

  ghost predicate From(slots: seq<Slot>, m: nat, k: nat, b: Acc, a: Acc)
    requires IsDir(slots) && k <= |slots|
  {
    m < k && LongRun(slots, m, k) && |b.text| == LFN_BUFFER && b.len == 0 && a == Gathered(b, slots, m, k)
  }

  lemma {:induction false} DirectStep(slots: seq<Slot>, k: nat, a: Acc)
    requires IsDir(slots) && k < |slots| && |a.text| == LFN_BUFFER && slots[k][0] != 0 && Direct(slots, k, a)
    ensures Direct(slots, k + 1, Passed(a, slots[k]))
  {
    hide LongStep;
    if slots[k][0] != DELETED && slots[k][11] == LONG {
      if a.len == 0 {
        assert Gathered(a, slots, k, k) == a;
        assert From(slots, k, k + 1, a, Passed(a, slots[k]));
      } else {
        var m: nat, b: Acc :| From(slots, m, k, b, a);
        assert From(slots, m, k + 1, b, Passed(a, slots[k]));
      }
    }
  }

  /** A slot that is found under a long name, not under its short one, is found by the long-name slots directly
      before it and no others. */
  lemma {:induction false} LongHit(slots: seq<Slot>, k: nat, a: Acc, name: seq<nat>)
    requires IsDir(slots) && k <= |slots| && |a.text| == LFN_BUFFER && Direct(slots, k, a)
    requires Search(slots, k, a, name) >= 0 && slots[Search(slots, k, a, name)][..11] != Name83(name)
    ensures var r := Search(slots, k, a, name);
            exists m: nat, b: Acc ::
              && m < r && LongRun(slots, m, r) && |b.text| == LFN_BUFFER && b.len == 0
              && var g := Gathered(b, slots, m, r); 0 < g.len <= LFN_BUFFER && SameName(g.text[..g.len], name)
    decreases |slots| - k
  {
    SearchBegins(slots, k, a, name);
    SearchStep(slots, k, a, name);
    hide Search, Name83, LongStep, SameName, Gathered, LongRun;
    if Live(slots[k]) && Hit(a, slots[k], name) {
      var m: nat, b: Acc :| From(slots, m, k, b, a);
    } else {
      DirectStep(slots, k, a);
      LongHit(slots, k + 1, Passed(a, slots[k]), name);
    }
  }

  /** The same of a lookup. */
  lemma {:induction false} LongHitDirect(slots: seq<Slot>, junk: seq<nat>, name: seq<nat>)
    requires IsDir(slots) && |junk| == LFN_BUFFER && Lookup(slots, junk, name) >= 0
    requires slots[Lookup(slots, junk, name)][..11] != Name83(name)
    ensures var r := Lookup(slots, junk, name);
            exists m: nat, b: Acc ::
              && m < r && LongRun(slots, m, r) && |b.text| == LFN_BUFFER && b.len == 0
              && var g := Gathered(b, slots, m, r); 0 < g.len <= LFN_BUFFER && SameName(g.text[..g.len], name)
  {
    hide Search, Name83, Gathered;
    LongHit(slots, 0, Acc(junk, 0, 0), name);
  }
}
