/** Long names: the reader's accumulator undoes the on-disk encoding. */
module Lfn {
  import opened FatDisk
  import opened FatDir

  ghost predicate LongName(s: seq<nat>) { 1 <= |s| <= 255 && forall i :: 0 <= i < |s| ==> 0 < s[i] < 0x80 }

  /** Number of slots a name takes, thirteen characters each. */
  function Count(s: seq<nat>): nat { (|s| + 12) / 13 }

  /** The 16-bit unit stored for character `i`: the text, then one zero, then fillers. */
  function Stored16(s: seq<nat>, i: nat): nat {
    if i < |s| then s[i] else if i == |s| then 0 else 0xFFFF
  }

  /** Slot number `q` of the name; the last one is stored first and carries the `0x40` mark. */
  ghost predicate IsLongSlot(e: Slot, s: seq<nat>, q: nat) {
    && |e| == 32 && e[11] == LONG && 1 <= q <= Count(s)
    && e[0] == q + (if q == Count(s) then 0x40 else 0)
    && forall k: nat :: k < 13 ==> Unit(e, k) == Stored16(s, (q - 1) * 13 + k)
  }

  /** Slots `b..` are the encoding of `s`, in descending order. */
  ghost predicate Encodes(slots: seq<Slot>, b: nat, s: seq<nat>) {
    && b + Count(s) <= |slots|
    && forall j: nat :: b <= j < b + Count(s) ==> IsLongSlot(slots[j], s, b + Count(s) - j)
  }

  ghost predicate Tail(a: Acc, s: seq<nat>, from: nat) {
    forall i :: from <= i < |s| && i < |a.text| ==> a.text[i] == s[i]
  }

  /** The rest of a long-name slot whose characters are those of `s` from `pos` on; `last` is the slot with
      the end of the name, which is met first. */
  lemma {:induction false} CopySlot(a: Acc, e: Slot, s: seq<nat>, pos: nat, last: bool, k: nat)
    requires LongName(s) && |e| == 32 && forall j: nat :: j < 13 ==> Unit(e, j) == Stored16(s, pos + j)
    requires |a.text| == LFN_BUFFER && k <= 13 && pos + 13 < LFN_BUFFER && pos < |s| && (last ==> |s| <= pos + 13)
    requires Tail(a, s, pos + 13) && Between(a, s, pos, pos + k)
    requires if last then a.len == (if k == 0 then 0 else pos + k) && pos + k <= |s| else a.len == |s| >= pos + 13
    ensures var r := Copied(a, e, pos, k); Tail(r, s, pos) && r.len == |s|
    decreases 13 - k
  {
    hide Unit;
    if k < 13 && pos + k < |s| {
      assert Unit(e, k) == Stored16(s, pos + k) == s[pos + k];
      var len := if pos + k + 1 > a.len then pos + k + 1 else a.len;
      var a' := a.(text := a.text[pos + k := Unit(e, k) % 0x100], len := len);
      CopySlot(a', e, s, pos, last, k + 1);
    } else {
      assert k < 13 ==> Unit(e, k) == Stored16(s, pos + k);
    }
  }

  ghost predicate Between(a: Acc, s: seq<nat>, from: nat, to: nat) {
    forall i :: from <= i < to && i < |s| && i < |a.text| ==> a.text[i] == s[i]
  }

  lemma CountFacts(s: seq<nat>)
    requires LongName(s)
    ensures 1 <= Count(s) <= 20 && (Count(s) - 1) * 13 < |s| <= Count(s) * 13
  {
  }

  lemma MarkFacts(e: Slot, s: seq<nat>, q: nat)
    requires LongName(s) && IsLongSlot(e, s, q)
    ensures Number(e) == q && (Marked(e) <==> q == Count(s)) && e[0] != 0 && e[0] != DELETED && e[11] == LONG
  {
    CountFacts(s);
    hide Count, Unit;
  }

  lemma {:induction false} StepSlot(a: Acc, e: Slot, s: seq<nat>, q: nat)
    requires LongName(s) && IsLongSlot(e, s, q) && |a.text| == LFN_BUFFER
    requires q < Count(s) ==> a.due == q && a.len == |s| && Tail(a, s, q * 13)
    ensures var r := LongStep(a, e); r.due == q - 1 && r.len == |s| && Tail(r, s, (q - 1) * 13)
  {
    var start := if q == Count(s) then a.(len := 0, due := q) else a;
    CountFacts(s);
    MarkFacts(e, s, q);
    hide Unit, Count, Stored16, Copied, IsLongSlot, Number, Marked, Tail, LongName;
    CopyNth(start, e, s, q);
  }

  lemma {:induction false} CopyNth(a: Acc, e: Slot, s: seq<nat>, q: nat)
    requires LongName(s) && IsLongSlot(e, s, q) && |a.text| == LFN_BUFFER
    requires if q == Count(s) then a.len == 0 else a.len == |s| && Tail(a, s, q * 13)
    ensures (q - 1) * 13 + 13 < LFN_BUFFER
    ensures var r := Copied(a, e, (q - 1) * 13, 0); r.len == |s| && Tail(r, s, (q - 1) * 13)
  {
    CountFacts(s);
    hide Unit, Count, Stored16, Copied;
    CopySlot(a, e, s, (q - 1) * 13, q == Count(s), 0);
  }

  lemma Whole(a: Acc, s: seq<nat>)
    requires LongName(s) && |a.text| == LFN_BUFFER && a.len == |s| && Tail(a, s, 0)
    ensures a.text[..a.len] == s
  {
  }

  lemma NthSlot(slots: seq<Slot>, b: nat, s: seq<nat>, q: nat)
    requires Encodes(slots, b, s) && 1 <= q <= Count(s)
    ensures b + Count(s) <= |slots| && IsLongSlot(slots[b + Count(s) - q], s, q)
  {
    hide Count, IsLongSlot;
    var j := b + Count(s) - q;
    assert IsLongSlot(slots[j], s, b + Count(s) - j);
  }

  lemma SearchLong(slots: seq<Slot>, k: nat, a: Acc, query: seq<nat>)
    requires IsDir(slots) && k < |slots| && |a.text| == LFN_BUFFER
    requires slots[k][0] != 0 && slots[k][0] != DELETED && slots[k][11] == LONG
    ensures Search(slots, k, a, query) == Search(slots, k + 1, LongStep(a, slots[k]), query)
  {
  }

  /** From slot number `q` down to 1. */
  lemma {:induction false} Assemble(slots: seq<Slot>, b: nat, s: seq<nat>, q: nat, a: Acc, query: seq<nat>)
    returns (r: Acc)
    requires IsDir(slots) && LongName(s) && Encodes(slots, b, s) && q <= Count(s) && |a.text| == LFN_BUFFER
    requires q < Count(s) ==> a.due == q && a.len == |s| && Tail(a, s, q * 13)
    ensures |r.text| == LFN_BUFFER && r.len == |s| && r.text[..r.len] == s
    ensures Search(slots, b + Count(s) - q, a, query) == Search(slots, b + Count(s), r, query)
    decreases q
  {
    hide LongStep, Count, IsLongSlot, Number, Marked, Search, Encodes, Tail, LongName;
    if q == 0 {
      r := a;
      CountFacts(s);
      Whole(a, s);
    } else {
      var a' := AssembleOne(slots, b, s, q, a, query);
      r := Assemble(slots, b, s, q - 1, a', query);
    }
  }

  /** Slot number `q`. */
  lemma {:induction false} AssembleOne(slots: seq<Slot>, b: nat, s: seq<nat>, q: nat, a: Acc,
                                       query: seq<nat>) returns (r: Acc)
    requires IsDir(slots) && LongName(s) && Encodes(slots, b, s) && 1 <= q <= Count(s) && |a.text| == LFN_BUFFER
    requires q < Count(s) ==> a.due == q && a.len == |s| && Tail(a, s, q * 13)
    ensures |r.text| == LFN_BUFFER && r.due == q - 1 && r.len == |s| && Tail(r, s, (q - 1) * 13)
    ensures b + Count(s) <= |slots|
    ensures Search(slots, b + Count(s) - q, a, query) == Search(slots, b + Count(s) - (q - 1), r, query)
  {
    hide LongStep, Count, IsLongSlot, Number, Marked, Search, Encodes, Tail, LongName;
    NthSlot(slots, b, s, q);
    var k: nat := b + Count(s) - q;
    var e := slots[k];
    StepSlot(a, e, s, q);
    MarkFacts(e, s, q);
    SearchLong(slots, k, a, query);
    r := LongStep(a, e);
    assert k + 1 == b + Count(s) - (q - 1);
  }

  /** A long name stored before a live short slot: the lookup reaches that slot with exactly the name
      assembled, and stops there if and only if the query equals it up to ASCII case (or equals the
      short name). What was assembled before and what the buffer held do not matter. */
  lemma LongLookup(slots: seq<Slot>, b: nat, s: seq<nat>, a: Acc, query: seq<nat>) returns (r: Acc)
    requires IsDir(slots) && LongName(s) && Encodes(slots, b, s) && b + Count(s) < |slots| && |a.text| == LFN_BUFFER
    requires var e := slots[b + Count(s)]; e[0] != 0 && e[0] != DELETED && e[11] != LONG
    ensures |r.text| == LFN_BUFFER && r.len == |s| && r.text[..r.len] == s
    ensures Search(slots, b, a, query) == b + Count(s) <==>
            SameName(s, query) || slots[b + Count(s)][..11] == Name83(query)
    ensures Search(slots, b, a, query) != b + Count(s) ==>
              Search(slots, b, a, query) == Search(slots, b + Count(s) + 1, r.(len := 0), query)
  {
    hide LongStep, Unit, Count, Stored16, Encodes, Name83, SameName;
    r := Assemble(slots, b, s, Count(s), a, query);
  }

  /** Byte `b` of slot number `q`: characters at their offsets, the mark, and zero elsewhere. */
  function LongByte(s: seq<nat>, q: nat, b: nat): nat
    requires q >= 1 && b < 32
  {
    var base := (q - 1) * 13;
    if b == 0 then q + (if q == Count(s) then 0x40 else 0)
    else if b == 11 then LONG
    else if b == 12 || b == 13 || b == 26 || b == 27 then 0
    else if b < 11 then Half(Stored16(s, base + (b - 1) / 2), (b - 1) % 2)
    else if b < 26 then Half(Stored16(s, base + 5 + (b - 14) / 2), b % 2)
    else Half(Stored16(s, base + 11 + (b - 28) / 2), b % 2)
  }

  function Half(u: nat, i: nat): nat { if i == 0 then u % 0x100 else u / 0x100 }

  function LongSlot(s: seq<nat>, q: nat): (r: Slot)
    requires q >= 1
    ensures |r| == 32 && forall b :: 0 <= b < 32 ==> r[b] == LongByte(s, q, b)
  {
    seq(32, (b: nat) requires b < 32 => LongByte(s, q, b))
  }

  /** The slots a writer stores for a long name, last part first. */
  function Encode(s: seq<nat>): (r: seq<Slot>)
    ensures |r| == Count(s) && IsDir(r)
  {
    seq(Count(s), (j: nat) requires j < Count(s) => LongSlot(s, Count(s) - j))
  }

  lemma {:induction false} EncodeUnit(s: seq<nat>, q: nat, e: Slot, k: nat)
    requires LongName(s) && 1 <= q <= Count(s) && |e| == 32 && k < 13
    requires forall b :: 0 <= b < 32 ==> e[b] == LongByte(s, q, b)
    ensures Unit(e, k) == Stored16(s, (q - 1) * 13 + k)
  {
    var b := CharAt(k);
    UnitBytes(s, q, k, b);
    hide LongByte, Count, Stored16;
    assert e[b] == LongByte(s, q, b) && e[b + 1] == LongByte(s, q, b + 1);
  }

  /** The two bytes of character `k`. */
  lemma {:induction false} UnitBytes(s: seq<nat>, q: nat, k: nat, b: nat)
    requires q >= 1 && k < 13 && b == CharAt(k)
    ensures LongByte(s, q, b) + 0x100 * LongByte(s, q, b + 1) == Stored16(s, (q - 1) * 13 + k)
  {
    hide Stored16, Count;
    var u := Stored16(s, (q - 1) * 13 + k);
    assert LongByte(s, q, b) == Half(u, 0) && LongByte(s, q, b + 1) == Half(u, 1);
  }

  lemma {:induction false} EncodeEncodes(s: seq<nat>, slots: seq<Slot>)
    requires LongName(s) && Encode(s) <= slots
    ensures Encodes(slots, 0, s)
  {
    forall j: nat | j < Count(s) ensures IsLongSlot(slots[j], s, Count(s) - j) {
      var e := Encode(s)[j];
      assert slots[j] == e == LongSlot(s, Count(s) - j);
      assert e[0] == LongByte(s, Count(s) - j, 0) && e[11] == LongByte(s, Count(s) - j, 11);
      forall k: nat | k < 13 ensures Unit(e, k) == Stored16(s, (Count(s) - j - 1) * 13 + k) {
        EncodeUnit(s, Count(s) - j, e, k);
      }
    }
  }

  /** Storing a long name before a live short slot and looking it up: found at that slot if and only if
      the query is the stored name up to ASCII case, or the slot's short name. */
  lemma LongRoundTrip(s: seq<nat>, short: Slot, junk: seq<nat>, query: seq<nat>)
    requires LongName(s) && |short| == 32 && short[0] != 0 && short[0] != DELETED && short[11] != LONG
    requires |junk| == LFN_BUFFER
    ensures Lookup(Encode(s) + [short], junk, query) ==
            if SameName(s, query) || short[..11] == Name83(query) then Count(s) else -1
  {
    var slots := Encode(s) + [short];
    EncodeEncodes(s, slots);
    hide Encode, Encodes, LongStep, SameName, Name83, Count;
    var r := LongLookup(slots, 0, s, Acc(junk, 0, 0), query);
  }
}
