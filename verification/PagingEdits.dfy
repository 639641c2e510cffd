/** The page-table edits the kernel makes, as functions on physical memory, and what
    each does to translations. */
module PagingEdits {
  import opened Arithmetic
  import opened Paging

  /** Stores word `w` at index `i` of table `p`. */
  ghost function Put(mem: Mem, p: nat, i: nat, w: nat): Mem
    requires IsTable(mem, p) && i < 512
  {
    var words: seq<nat> := mem[p];
    var words': seq<nat> := words[i := w];
    mem[p := words']
  }

  /** Fills a fresh page with `words` and points entry `i` of table `p` at it. */
  ghost function Install(mem: Mem, p: nat, i: nat, t: nat, words: seq<nat>): Mem
    requires IsTable(mem, p) && i < 512 && |words| == 512
  {
    Put(mem, p, i, TableWord(t))[t := words]
  }

  ghost predicate Installable(mem: Mem, lv: map<nat, nat>, p: nat, i: nat, t: nat, words: seq<nat>) {
    && Leveled(mem, lv) && p in mem && lv[p] >= 2 && i < 512
    && !Descends(mem[p][i], lv[p])
    && t !in mem && PageAligned(t) && |words| == 512
    && forall j :: 0 <= j < 512 ==> !Descends(words[j], lv[p] - 1)
  }

  lemma {:induction false} InstallLeveled(mem: Mem, lv: map<nat, nat>, p: nat, i: nat, t: nat, words: seq<nat>)
    requires Installable(mem, lv, p, i, t, words)
    ensures Leveled(Install(mem, p, i, t, words), lv[t := lv[p] - 1])
    ensures Edit(mem, Install(mem, p, i, t, words), p, i)
  {
    var mem', lv' := Install(mem, p, i, t, words), lv[t := lv[p] - 1];
    TableWordFacts(t);
    forall q, j | q in mem' && 0 <= j < 512 ensures EntryOk(lv', lv'[q], mem'[q][j]) {
      if q != t && (q, j) != (p, i) {
        assert mem'[q][j] == mem[q][j];
        assert EntryOk(lv, lv[q], mem[q][j]);
      }
    }
  }

  /** Through the new entry, an address sees what the new table says. */
  lemma InstallBelow(mem: Mem, lv: map<nat, nat>, p: nat, i: nat, t: nat, words: seq<nat>, va: nat)
    requires Installable(mem, lv, p, i, t, words) && Index(va, lv[p]) == i
    ensures var k := lv[p];
            var w := words[Index(va, k - 1)];
            Walk(Install(mem, p, i, t, words), p, k, va) == if Present(w) then Leaf(w, k - 1, va) else Unmapped
  {
    var mem' := Install(mem, p, i, t, words);
    TableWordFacts(t);
    assert Entry(mem', p, lv[p], va) == TableWord(t);
    assert IsTable(mem', t);
  }

  /** An edit that means the same to the table it touches means the same to every
      address through every root. */
  lemma InstallSame(mem: Mem, lv: map<nat, nat>, p: nat, i: nat, t: nat, words: seq<nat>, root: nat, va: nat)
    requires Installable(mem, lv, p, i, t, words) && root in mem
    requires Index(va, lv[p]) == i ==> Walk(Install(mem, p, i, t, words), p, lv[p], va) == Walk(mem, p, lv[p], va)
    ensures Walk(Install(mem, p, i, t, words), root, lv[root], va) == Walk(mem, root, lv[root], va)
  {
    InstallLeveled(mem, lv, p, i, t, words);
    EditWalk(mem, Install(mem, p, i, t, words), lv, lv[t := lv[p] - 1], root, lv[root], va, p, i);
  }

  // ---- splitting a 2 MB page -------------------------------------------------------------------

  /** Entry `j` of the table that replaces a 2 MB entry: same flags without the size bit. */
  function SplitWord(w: nat, j: nat): nat {
    w / 0x20_0000 * 0x20_0000 + j * 0x1000 + WithoutSize(w % 0x200)
  }

  /** `flags & ~0x80` */
  function WithoutSize(flags: nat): nat {
    if flags / 0x80 % 2 == 1 then flags - 0x80 else flags
  }

  function SplitWords(w: nat): (s: seq<nat>)
    ensures |s| == 512
  {
    seq(512, j requires 0 <= j < 512 => SplitWord(w, j))
  }

  lemma SplitParts(w: nat, j: nat)
    requires Huge(w) && j < 512
    ensures var q, f := w / 0x20_0000, w % 0x200 - 0x80;
            0 <= f < 0x180 && SplitWord(w, j) == q * 0x20_0000 + j * 0x1000 + f
  {
    ModShift(w / 0x200 * 2, w % 0x200 / 0x80, 2);
    ModUnique(w, 0x80, w / 0x200 * 4 + w % 0x200 / 0x80, w % 0x80);
  }

  lemma LowFlags(x: nat, y: nat)
    requires x % 0x80 == y % 0x80
    ensures Present(x) == Present(y) && Writable(x) == Writable(y) && User(x) == User(y)
  {
    FlagsOf(x / 0x80, x % 0x80);
    FlagsOf(y / 0x80, y % 0x80);
  }

  lemma FlagsOf(a: nat, r: nat)
    requires r < 0x80
    ensures var x := a * 0x80 + r;
            x % 2 == r % 2 && x / 2 % 2 == r / 2 % 2 && x / 4 % 2 == r / 4 % 2
  {
    var x := a * 0x80 + r;
    ModUnique(x, 2, a * 0x40 + r / 2, r % 2);
    ModUnique(x, 4, a * 0x20 + r / 4, r % 4);
    ModShift(a * 0x20, r / 2, 2);
    ModShift(a * 0x10, r / 4, 2);
  }

  lemma SplitFlags(w: nat, j: nat)
    requires Huge(w) && j < 512
    ensures Present(SplitWord(w, j)) == Present(w)
    ensures Writable(SplitWord(w, j)) == Writable(w) && User(SplitWord(w, j)) == User(w)
  {
    var q, f := w / 0x20_0000, w % 0x200 - 0x80;
    SplitParts(w, j);
    ModShift(q * 0x4000 + j * 0x20, f, 0x80);
    ModShift(w / 0x200 * 4 + 1, f, 0x80);
    LowFlags(SplitWord(w, j), w);
  }

  lemma {:induction false} SplitAddress(w: nat, j: nat)
    requires Huge(w) && j < 512
    ensures FrameBits(SplitWord(w, j)) == HugeBits(w) + j * 0x1000
    ensures NoExec(SplitWord(w, j)) == NoExec(w)
  {
    var q, f := w / 0x20_0000, w % 0x200 - 0x80;
    SplitParts(w, j);
    var e := SplitWord(w, j);
    ModUnique(e, 0x1000, q * 0x200 + j, f);
    var h, m := q / 0x8000_0000, q % 0x8000_0000;
    ModUnique(q * 0x200 + j, 0x100_0000_0000, h, m * 0x200 + j);
    HighBit(q, j * 0x1000 + f);
    HighBit(q, w % 0x20_0000);
  }

  lemma HighBit(q: nat, r: nat)
    requires r < 0x20_0000
    ensures (q * 0x20_0000 + r) / 0x8000_0000_0000_0000 == q / 0x400_0000_0000
  {
    var h, m := q / 0x400_0000_0000, q % 0x400_0000_0000;
    ModUnique(q * 0x20_0000 + r, 0x8000_0000_0000_0000, h, m * 0x20_0000 + r);
  }

  /** Each address keeps its physical address and rights across the split. */
  lemma SplitLeaf(w: nat, va: nat)
    requires Huge(w)
    ensures Leaf(SplitWords(w)[Index(va, 1)], 1, va) == Leaf(w, 2, va)
  {
    var j := Index(va, 1);
    SplitFlags(w, j);
    SplitAddress(w, j);
    OffsetParts(va);
    hide SplitWord, FrameBits, HugeBits, Writable, User, NoExec, Index;
    assert SplitWords(w)[j] == SplitWord(w, j);
  }

  lemma OffsetParts(va: nat)
    ensures va % 0x20_0000 == Index(va, 1) * 0x1000 + va % 0x1000
  {
    ModUnique(va, 0x20_0000, va / 0x1000 / 512, Index(va, 1) * 0x1000 + va % 0x1000);
  }

  /** Splitting preserves meaning: every address, through every root, translates as before. */
  lemma SplitPreserves(mem: Mem, lv: map<nat, nat>, p: nat, i: nat, t: nat, root: nat, va: nat)
    requires Leveled(mem, lv) && p in mem && lv[p] == 2 && i < 512
    requires Present(mem[p][i]) && Huge(mem[p][i]) && t !in mem && PageAligned(t) && root in mem
    ensures Walk(Install(mem, p, i, t, SplitWords(mem[p][i])), root, lv[root], va) == Walk(mem, root, lv[root], va)
  {
    var w := mem[p][i];
    if Index(va, 2) == i {
      InstallBelow(mem, lv, p, i, t, SplitWords(w), va);
      SplitLeaf(w, va);
      SplitFlags(w, Index(va, 1));
    }
    InstallSame(mem, lv, p, i, t, SplitWords(w), root, va);
  }

  /** Pointing an absent entry at an empty table changes no translation. */
  lemma EmptyPreserves(mem: Mem, lv: map<nat, nat>, p: nat, i: nat, t: nat, root: nat, va: nat)
    requires Leveled(mem, lv) && p in mem && lv[p] >= 2 && i < 512
    requires !Present(mem[p][i]) && t !in mem && PageAligned(t) && root in mem
    ensures Walk(Install(mem, p, i, t, Zeros()), root, lv[root], va) == Walk(mem, root, lv[root], va)
  {
    if Index(va, lv[p]) == i {
      InstallBelow(mem, lv, p, i, t, Zeros(), va);
    }
    InstallSame(mem, lv, p, i, t, Zeros(), root, va);
  }

  // ---- the tree shape is kept ----------------------------------------------------------------

  /** A walk that reaches `p` reaches below it what the walk from `p` reaches. */
  lemma {:induction false} ReachVia(mem: Mem, t: nat, l: nat, va: nat, k: nat, j: nat)
    requires j <= k && Reach(mem, t, l, va, k).Some?
    ensures var p := Reach(mem, t, l, va, k).value.0;
            && k <= l
            && (Reach(mem, t, l, va, j).Some? <==> Reach(mem, p, k, va, j).Some?)
            && (Reach(mem, p, k, va, j).Some? ==> Reach(mem, t, l, va, j).value.0 == Reach(mem, p, k, va, j).value.0)
            && (Reach(mem, p, k, va, j).Some? ==>
                  Reach(mem, t, l, va, j).value.1 ==
                  Both(Reach(mem, t, l, va, k).value.1, Reach(mem, p, k, va, j).value.1))
    decreases l
  {
    if l < k {
      ReachAbove'(mem, t, l, va, k);
    } else if l > k {
      ReachVia(mem, FrameBits(Entry(mem, t, l, va)), l - 1, va, k, j);
    }
  }

  /** After an installation a walk reaches an old table where it did before, or the new one. */
  lemma {:induction false} InstallReach(mem: Mem, lv: map<nat, nat>, p: nat, i: nat, t: nat, words: seq<nat>, root: nat,
                                        va: nat, j: nat)
    requires Installable(mem, lv, p, i, t, words) && root in mem && 1 <= j
    ensures var mem' := Install(mem, p, i, t, words);
            var x := Reach(mem', root, lv[root], va, j);
            x.Some? ==>
              || (Reach(mem, root, lv[root], va, j).Some? &&
                  Reach(mem, root, lv[root], va, j).value.0 == x.value.0 != t)
              || (x.value.0 == t && j == lv[p] - 1 && Hits(mem, root, lv[root], va, p, lv[p], i))
  {
    var mem', k := Install(mem, p, i, t, words), lv[p];
    InstallLeveled(mem, lv, p, i, t, words);
    if Hits(mem, root, lv[root], va, p, k, i) {
      if j >= k {
        EditReach(mem, mem', lv, root, lv[root], va, p, i, j);
        ReachOld(mem, lv, root, lv[root], va, j);
      } else {
        EditReach(mem, mem', lv, root, lv[root], va, p, i, k);
        ReachVia(mem', root, lv[root], va, k, j);
        TableWordFacts(t);
        assert Entry(mem', p, k, va) == TableWord(t);
        assert IsTable(mem', t) && IsTable(mem', p);
      }
    } else {
      forall x | x in Reads(mem, root, lv[root], va) ensures Agree(mem, mem', x) {
        ReadsHits(mem, lv, root, lv[root], va, x.0, x.1);
      }
      WalkFrame(mem, mem', lv, root, lv[root], va);
      ReachOld(mem, lv, root, lv[root], va, j);
    }
  }

  lemma ReachOld(mem: Mem, lv: map<nat, nat>, t: nat, l: nat, va: nat, k: nat)
    requires Leveled(mem, lv) && t in mem && lv[t] == l
    ensures Reach(mem, t, l, va, k).Some? ==> Reach(mem, t, l, va, k).value.0 in mem
  {
    if Reach(mem, t, l, va, k).Some? { WalkVia(mem, lv, t, l, va, k); }
  }

  /** In a tree, the addresses whose walk reads one word are one aligned region. */
  lemma HitsRegion(mem: Mem, root: nat, p: nat, k: nat, i: nat, a: nat, b: nat)
    requires Tree(mem, root) && 1 <= k <= 4 && a < VA_LIMIT && b < VA_LIMIT
    requires Hits(mem, root, 4, a, p, k, i) && Hits(mem, root, 4, b, p, k, i)
    ensures a / Span(k) == b / Span(k)
  {
    assert SameTable(mem, root, k, a, b);
    assert a / Span(k + 1) == b / Span(k + 1);
    SpanStep(a, k);
    SpanStep(b, k);
  }

  lemma SpanStep(a: nat, k: nat)
    requires 1 <= k <= 4 && a < VA_LIMIT
    ensures a / Span(k) == a / Span(k + 1) * 512 + Index(a, k)
  {
  }

  lemma {:induction false} InstallTree(mem: Mem, lv: map<nat, nat>, p: nat, i: nat, t: nat, words: seq<nat>, root: nat)
    requires Installable(mem, lv, p, i, t, words) && root in mem && lv[root] == 4 && Tree(mem, root)
    ensures Tree(Install(mem, p, i, t, words), root)
  {
    var mem' := Install(mem, p, i, t, words);
    forall k: nat, a: nat, b: nat | SameTable(mem', root, k, a, b) && a < VA_LIMIT && b < VA_LIMIT
      ensures a / Span(k + 1) == b / Span(k + 1)
    {
      InstallReach(mem, lv, p, i, t, words, root, a, k);
      InstallReach(mem, lv, p, i, t, words, root, b, k);
      if Reach(mem', root, 4, a, k).value.0 == t {
        HitsRegion(mem, root, p, k + 1, i, a, b);
      } else {
        assert SameTable(mem, root, k, a, b);
      }
    }
  }

  // ---- overwriting one word ---------------------------------------------------------------------

  /** The new word leads nowhere, or where the old one led. */
  ghost predicate Tame(mem: Mem, lv: map<nat, nat>, p: nat, i: nat, w: nat) {
    && Leveled(mem, lv) && p in mem && i < 512
    && (Descends(w, lv[p]) ==>
          Descends(mem[p][i], lv[p]) && FrameBits(w) == FrameBits(mem[p][i]) && w < 0x10_0000_0000_0000)
  }

  lemma PutLeveled(mem: Mem, lv: map<nat, nat>, p: nat, i: nat, w: nat)
    requires Tame(mem, lv, p, i, w)
    ensures Leveled(Put(mem, p, i, w), lv) && Edit(mem, Put(mem, p, i, w), p, i)
  {
    var mem' := Put(mem, p, i, w);
    forall q, j | q in mem' && 0 <= j < 512 ensures EntryOk(lv, lv[q], mem'[q][j]) {
      assert EntryOk(lv, lv[q], mem[q][j]);
    }
  }

  lemma {:induction false} PutReach(mem: Mem, lv: map<nat, nat>, p: nat, i: nat, w: nat, t: nat, l: nat, va: nat,
                                    j: nat)
    requires Tame(mem, lv, p, i, w) && t in mem && lv[t] == l
    ensures var x := Reach(Put(mem, p, i, w), t, l, va, j);
            x.Some? ==> Reach(mem, t, l, va, j).Some? && Reach(mem, t, l, va, j).value.0 == x.value.0
    decreases l
  {
    var mem' := Put(mem, p, i, w);
    var old_w, new_w := Entry(mem, t, l, va), Entry(mem', t, l, va);
    assert EntryOk(lv, l, old_w);
    if l != j && Descends(new_w, l) {
      PutReach(mem, lv, p, i, w, FrameBits(old_w), l - 1, va, j);
    }
  }

  lemma PutTree(mem: Mem, lv: map<nat, nat>, p: nat, i: nat, w: nat, root: nat)
    requires Tame(mem, lv, p, i, w) && root in mem && lv[root] == 4 && Tree(mem, root)
    ensures Tree(Put(mem, p, i, w), root)
  {
    var mem' := Put(mem, p, i, w);
    forall k: nat, a: nat, b: nat | SameTable(mem', root, k, a, b) && a < VA_LIMIT && b < VA_LIMIT
      ensures a / Span(k + 1) == b / Span(k + 1)
    {
      PutReach(mem, lv, p, i, w, root, 4, a, k);
      PutReach(mem, lv, p, i, w, root, 4, b, k);
      assert SameTable(mem, root, k, a, b);
    }
  }

  /** In a tree, overwriting the word that translates `va0` at level `k` leaves every
      address outside that level's region alone. */
  lemma PutElsewhere(mem: Mem, lv: map<nat, nat>, p: nat, i: nat, w: nat, root: nat, va0: nat, va: nat)
    requires Tame(mem, lv, p, i, w) && root in mem && lv[root] == 4 && Tree(mem, root)
    requires va0 < VA_LIMIT && va < VA_LIMIT && Hits(mem, root, 4, va0, p, lv[p], i)
    requires va / Span(lv[p]) != va0 / Span(lv[p])
    ensures Walk(Put(mem, p, i, w), root, 4, va) == Walk(mem, root, 4, va)
  {
    PutLeveled(mem, lv, p, i, w);
    if Hits(mem, root, 4, va, p, lv[p], i) {
      HitsRegion(mem, root, p, lv[p], i, va0, va);
    }
    EditWalk(mem, Put(mem, p, i, w), lv, lv, root, 4, va, p, i);
  }

  // ---- what the upper levels allow ------------------------------------------------------------------

  /** The rights that the entries on the way down leave, as far as the way goes; what is missing takes none. */
  ghost function Allowed(mem: Mem, t: nat, l: nat, va: nat): Rights
    decreases l
  {
    if l == 0 || !IsTable(mem, t) || !Descends(Entry(mem, t, l, va), l) then Rights(true, true, false)
    else Both(RightsOf(Entry(mem, t, l, va)), Allowed(mem, FrameBits(Entry(mem, t, l, va)), l - 1, va))
  }

  /** Where there is a page table these are the rights collected above it. */
  lemma {:induction false} AllowedReach(mem: Mem, t: nat, l: nat, va: nat)
    requires Reach(mem, t, l, va, 1).Some?
    ensures Allowed(mem, t, l, va) == Reach(mem, t, l, va, 1).value.1
    decreases l
  {
    hide RightsOf, FrameBits;
    if l > 1 { AllowedReach(mem, FrameBits(Entry(mem, t, l, va)), l - 1, va); }
  }

  /** An edit that allows as much as before where it is made does so everywhere. */
  lemma {:induction false} AllowedEdit(mem: Mem, mem': Mem, lv: map<nat, nat>, t: nat, l: nat, va: nat, p: nat, i: nat)
    requires Leveled(mem, lv) && t in mem && lv[t] == l && p in mem && Edit(mem, mem', p, i) && IsTable(mem', p)
    requires Index(va, lv[p]) == i ==> Allowed(mem', p, lv[p], va) == Allowed(mem, p, lv[p], va)
    ensures Allowed(mem', t, l, va) == Allowed(mem, t, l, va)
    decreases l
  {
    if (t, Index(va, l)) != (p, i) {
      assert Agree(mem, mem', (t, Index(va, l)));
      var w := Entry(mem, t, l, va);
      assert EntryOk(lv, l, w);
      hide RightsOf, FrameBits, Index;
      if Descends(w, l) { AllowedEdit(mem, mem', lv, FrameBits(w), l - 1, va, p, i); }
    }
  }

  /** A new table takes no right. */
  lemma {:induction false} InstallAllowed(mem: Mem, lv: map<nat, nat>, p: nat, i: nat, t: nat, words: seq<nat>,
                                          root: nat, va: nat)
    requires Installable(mem, lv, p, i, t, words) && root in mem
    ensures Allowed(Install(mem, p, i, t, words), root, lv[root], va) == Allowed(mem, root, lv[root], va)
  {
    var mem' := Install(mem, p, i, t, words);
    InstallLeveled(mem, lv, p, i, t, words);
    TableWordFacts(t);
    hide RightsOf, FrameBits, TableWord, Present, Huge;
    if Index(va, lv[p]) == i {
      assert Entry(mem', p, lv[p], va) == TableWord(t) && IsTable(mem', t) && mem'[t] == words;
    }
    AllowedEdit(mem, mem', lv, root, lv[root], va, p, i);
  }

  /** A page-table entry takes none either: its rights are its own. */
  lemma {:induction false} PutAllowed(mem: Mem, lv: map<nat, nat>, p: nat, i: nat, w: nat, root: nat, va: nat)
    requires Tame(mem, lv, p, i, w) && root in mem && lv[p] == 1
    ensures Allowed(Put(mem, p, i, w), root, lv[root], va) == Allowed(mem, root, lv[root], va)
  {
    PutLeveled(mem, lv, p, i, w);
    AllowedEdit(mem, Put(mem, p, i, w), lv, root, lv[root], va, p, i);
  }

  // ---- single words the kernel stores -------------------------------------------------------------

  /** `w | 0x04` */
  function SetUser(w: nat): nat { if User(w) then w else w + 4 }

  lemma {:induction false} SetUserFacts(w: nat)
    ensures var e := SetUser(w);
            && User(e) && Present(e) == Present(w) && Writable(e) == Writable(w) && Huge(e) == Huge(w)
            && NoExec(e) == NoExec(w) && FrameBits(e) == FrameBits(w) && HugeBits(e) == HugeBits(w)
            && (w < 0x10_0000_0000_0000 ==> e < 0x10_0000_0000_0000)
  {
    hide FrameBits, HugeBits, NoExec, Huge, Present, Writable, User;
    var k, r := w / 8, w % 8;
    assert w == k * 8 + r;
    Word8(k, r);
    Word8(k, if r >= 4 then r else r + 4);
  }

  /** Everything but the low three bits depends on `w / 8` only. */
  lemma {:induction false} Word8(k: nat, r: nat)
    requires r < 8
    ensures var w := k * 8 + r;
            && Present(w) == (r % 2 == 1) && Writable(w) == (r / 2 % 2 == 1) && User(w) == (r >= 4)
            && Huge(w) == Huge(k * 8) && NoExec(w) == NoExec(k * 8)
            && FrameBits(w) == FrameBits(k * 8) && HugeBits(w) == HugeBits(k * 8)
            && (w < 0x10_0000_0000_0000 <==> k < 0x2_0000_0000_0000)
  {
    var w := k * 8 + r;
    ModUnique(w, 2, k * 4 + r / 2, r % 2);
    ModUnique(w, 4, k * 2 + r / 4, r % 4);
    ModShift(k * 2, r / 2, 2);
    ModShift(k, r / 4, 2);
    Div8(k, r, 0x10);
    Div8(k, 0, 0x10);
    Div8(k, r, 0x200);
    Div8(k, 0, 0x200);
    Div8(k, r, 0x4_0000);
    Div8(k, 0, 0x4_0000);
    Div8(k, r, 0x1000_0000_0000_0000);
    Div8(k, 0, 0x1000_0000_0000_0000);
  }

  lemma Div8(k: nat, r: nat, m: nat)
    requires r < 8 && m > 0
    ensures (k * 8 + r) / (8 * m) == k / m
  {
    var q, d := k / m, k % m;
    assert k * 8 + r == q * (8 * m) + (d * 8 + r);
    ModUnique(k * 8 + r, 8 * m, q, d * 8 + r);
  }

  /** `(phys & ~0x1FFFFF) | 0x87` */
  function HugeWord(phys: nat): nat { phys / 0x20_0000 * 0x20_0000 + 0x87 }

  lemma {:induction false} HugeWordFacts(phys: nat)
    ensures var w := HugeWord(phys);
            && Present(w) && Writable(w) && User(w) && Huge(w)
            && (phys < 0x10_0000_0000_0000 ==> HugeBits(w) == phys - phys % 0x20_0000 && !NoExec(w))
  {
    var q := phys / 0x20_0000;
    ModUnique(HugeWord(phys), 0x80, q * 0x4000 + 1, 7);
    ModShift(q * 0x2000, 1, 2);
    Word8(q * 0x4_0000 + 0x10, 7);
    ModUnique(HugeWord(phys), 0x20_0000, q, 0x87);
    HighBit(q, 0x87);
  }

  /** `w & ~0x04` */
  function ClearUser(w: nat): nat { if User(w) then w - 4 else w }

  lemma {:induction false} ClearUserFacts(w: nat)
    ensures var e := ClearUser(w);
            && !User(e) && Present(e) == Present(w) && Writable(e) == Writable(w) && Huge(e) == Huge(w)
            && NoExec(e) == NoExec(w) && HugeBits(e) == HugeBits(w)
  {
    hide FrameBits, HugeBits, NoExec, Huge, Present, Writable, User;
    var k, r := w / 8, w % 8;
    assert w == k * 8 + r;
    Word8(k, r);
    Word8(k, if r >= 4 then r - 4 else r);
  }

  /** In a tree, overwriting the directory entry for `va0` changes what its 2 MB region
      sees to what the walk from the new entry says, and nothing else. */
  lemma PutPde(mem: Mem, lv: map<nat, nat>, pd: nat, w: nat, root: nat, va0: nat, va: nat)
    requires Tame(mem, lv, pd, Index(va0, 2), w) && lv[pd] == 2
    requires root in mem && lv[root] == 4 && Tree(mem, root) && va0 < VA_LIMIT && va < VA_LIMIT
    requires Hits(mem, root, 4, va0, pd, 2, Index(va0, 2))
    ensures var mem' := Put(mem, pd, Index(va0, 2), w);
            && (va / 0x20_0000 != va0 / 0x20_0000 ==> Walk(mem', root, 4, va) == Walk(mem, root, 4, va))
            && (Hits(mem, root, 4, va, pd, 2, Index(va0, 2)) ==>
                  var r := Reach(mem, root, 4, va, 2).value.1;
                  && Walk(mem, root, 4, va) == Through(r, Walk(mem, pd, 2, va))
                  && Walk(mem', root, 4, va) == Through(r, Walk(mem', pd, 2, va)))
  {
    var i := Index(va0, 2);
    if va / 0x20_0000 != va0 / 0x20_0000 { PutElsewhere(mem, lv, pd, i, w, root, va0, va); }
    PutLeveled(mem, lv, pd, i, w);
    EditWalk(mem, Put(mem, pd, i, w), lv, lv, root, 4, va, pd, i);
  }
}
