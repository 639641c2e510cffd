/** The stack a new process starts on, and the reader the ABI prescribes for it. */
module InitialStack {
  import opened MachineWords
  import opened Options
  import opened ByteMemory

  const MAX_ARGS: nat := 8

  // ---- the reader: sections 3.4.1 and 3.4.3 of the System V AMD64 ABI ------------------------------------

  ghost predicate ByteIs(m: Bytes, a: nat, s: seq<nat>, i: nat) { i < |s| && a + i in m && m[a + i] == s[i] }

  /** The bytes from `a` on are `s`. */
  ghost predicate Holds(m: Bytes, a: nat, s: seq<nat>) { forall i: nat :: i < |s| ==> ByteIs(m, a, s, i) }

  ghost predicate Readable(m: Bytes, a: nat) {
    a in m && a + 1 in m && a + 2 in m && a + 3 in m && a + 4 in m && a + 5 in m && a + 6 in m && a + 7 in m
  }

  /** The little-endian word at `a`. */
  ghost function ReadWord(m: Bytes, a: nat): nat
    requires Readable(m, a)
  {
    Num([m[a], m[a + 1], m[a + 2], m[a + 3], m[a + 4], m[a + 5], m[a + 6], m[a + 7]])
  }

  ghost predicate WordAt(m: Bytes, a: nat, w: nat) { Readable(m, a) && ReadWord(m, a) == w }

  ghost predicate Text(s: seq<nat>) { forall i :: 0 <= i < |s| ==> 0 < s[i] < 0x100 }

  /** The zero-terminated string at `a`. */
  ghost predicate StringAt(m: Bytes, a: nat, s: seq<nat>) { Text(s) && Holds(m, a, s + [0]) }

  lemma {:induction false} StringUnique(m: Bytes, a: nat, s: seq<nat>, t: seq<nat>)
    requires StringAt(m, a, s) && StringAt(m, a, t)
    ensures s == t
  {
    NotLonger(m, a, s, t);
    NotLonger(m, a, t, s);
    var u, v := s + [0], t + [0];
    forall i: nat | i < |s| ensures s[i] == t[i] { assert ByteIs(m, a, u, i) && ByteIs(m, a, v, i); }
  }

  lemma {:induction false} NotLonger(m: Bytes, a: nat, s: seq<nat>, t: seq<nat>)
    requires StringAt(m, a, s) && StringAt(m, a, t)
    ensures |s| <= |t|
  {
    var u, v := s + [0], t + [0];
    assert ByteIs(m, a, v, |t|);
    assert |t| <= |s| ==> ByteIs(m, a, u, |t|);
  }

  /** The word at `a` points to the string `s`. */
  ghost predicate PointsTo(m: Bytes, a: nat, s: seq<nat>) {
    Readable(m, a) && ReadWord(m, a) != 0 && StringAt(m, ReadWord(m, a), s)
  }

  /** What a program finds at `rsp`: the argument count, pointers to the arguments and a null; pointers to
      the environment and a null; then type-value pairs up to the null type. */
  ghost predicate AbiReads(m: Bytes, rsp: nat, args: seq<seq<nat>>, env: seq<seq<nat>>, aux: seq<(nat, nat)>) {
    && WordAt(m, rsp, |args|)
    && VectorAt(m, rsp + 8, args)
    && VectorAt(m, rsp + 16 + 8 * |args|, env)
    && AuxAt(m, rsp + 24 + 8 * |args| + 8 * |env|, aux)
  }

  /** Pointers to the strings, then a null. */
  ghost predicate VectorAt(m: Bytes, a: nat, v: seq<seq<nat>>) {
    (forall i: nat :: i < |v| ==> PointsTo(m, a + 8 * i, v[i])) && WordAt(m, a + 8 * |v|, 0)
  }

  /** Pairs, then a null type. */
  ghost predicate AuxAt(m: Bytes, a: nat, aux: seq<(nat, nat)>) {
    (forall i: nat :: i < |aux| ==> PairAt(m, a + 16 * i, aux[i])) && WordAt(m, a + 16 * |aux|, 0)
  }

  ghost predicate PairAt(m: Bytes, a: nat, p: (nat, nat)) { p.0 != 0 && WordAt(m, a, p.0) && WordAt(m, a + 8, p.1) }

  /** There is one reading. */
  lemma {:induction false} AbiUnique(m: Bytes, rsp: nat, args: seq<seq<nat>>, env: seq<seq<nat>>, aux: seq<(nat, nat)>,
                                     args': seq<seq<nat>>, env': seq<seq<nat>>, aux': seq<(nat, nat)>)
    requires AbiReads(m, rsp, args, env, aux) && AbiReads(m, rsp, args', env', aux')
    ensures args == args' && env == env' && aux == aux'
  {
    hide Num, ReadWord, VectorAt, AuxAt;
    VectorUnique(m, rsp + 8, args, args');
    VectorUnique(m, rsp + 16 + 8 * |args|, env, env');
    AuxUnique(m, rsp + 24 + 8 * |args| + 8 * |env|, aux, aux');
  }

  lemma {:induction false} VectorUnique(m: Bytes, a: nat, v: seq<seq<nat>>, w: seq<seq<nat>>)
    requires VectorAt(m, a, v) && VectorAt(m, a, w)
    ensures v == w
  {
    hide StringAt, ReadWord, Readable;
    assert |v| < |w| ==> PointsTo(m, a + 8 * |v|, w[|v|]);
    assert |w| < |v| ==> PointsTo(m, a + 8 * |w|, v[|w|]);
    forall i: nat | i < |v| ensures v[i] == w[i] {
      assert PointsTo(m, a + 8 * i, v[i]) && PointsTo(m, a + 8 * i, w[i]);
      StringUnique(m, ReadWord(m, a + 8 * i), v[i], w[i]);
    }
  }

  lemma {:induction false} AuxUnique(m: Bytes, a: nat, v: seq<(nat, nat)>, w: seq<(nat, nat)>)
    requires AuxAt(m, a, v) && AuxAt(m, a, w)
    ensures v == w
  {
    hide ReadWord, Readable;
    assert |v| < |w| ==> PairAt(m, a + 16 * |v|, w[|v|]);
    assert |w| < |v| ==> PairAt(m, a + 16 * |w|, v[|w|]);
    forall i: nat | i < |v| ensures v[i] == w[i] {
      assert PairAt(m, a + 16 * i, v[i]) && PairAt(m, a + 16 * i, w[i]);
    }
  }

  // ---- words in a row ----------------------------------------------------------------------------------------

  ghost function Flat(ws: seq<nat>): (r: seq<nat>)
    ensures |r| == 8 * |ws|
  {
    if ws == [] then [] else Le(ws[0], 8) + Flat(ws[1..])
  }

  ghost predicate Words(ws: seq<nat>) { forall i :: 0 <= i < |ws| ==> ws[i] < W64 }

  lemma {:induction false} ReadLe(m: Bytes, a: nat, w: nat)
    requires Holds(m, a, Le(w, 8)) && w < W64
    ensures WordAt(m, a, w)
  {
    var b := Le(w, 8);
    Powers();
    NumLe(w, 8);
    hide Num, Le, Power;
    assert ByteIs(m, a, b, 0) && ByteIs(m, a, b, 1) && ByteIs(m, a, b, 2) && ByteIs(m, a, b, 3);
    assert ByteIs(m, a, b, 4) && ByteIs(m, a, b, 5) && ByteIs(m, a, b, 6) && ByteIs(m, a, b, 7);
    assert b == [m[a], m[a + 1], m[a + 2], m[a + 3], m[a + 4], m[a + 5], m[a + 6], m[a + 7]];
  }

  /** The `k`-th word of a row stored at `a`. */
  lemma {:induction false} FlatAt(m: Bytes, a: nat, ws: seq<nat>, tail: seq<nat>, k: nat, b: nat)
    requires Holds(m, a, Flat(ws) + tail) && Words(ws) && k < |ws| && b == a + 8 * k
    ensures WordAt(m, b, ws[k])
    decreases k
  {
    var c, rest := Le(ws[0], 8), Flat(ws[1..]) + tail;
    assert Flat(ws) + tail == c + rest;
    HoldsParts(m, a, c, rest);
    hide Le, Flat;
    if k == 0 {
      ReadLe(m, a, ws[0]);
    } else {
      FlatAt(m, a + 8, ws[1..], tail, k - 1, b);
    }
  }

  lemma {:induction false} HoldsParts(m: Bytes, a: nat, s: seq<nat>, t: seq<nat>)
    ensures Holds(m, a, s + t) <==> Holds(m, a, s) && Holds(m, a + |s|, t)
  {
    var u := s + t;
    if Holds(m, a, u) {
      forall i: nat | i < |s| ensures ByteIs(m, a, s, i) { assert ByteIs(m, a, u, i); }
      var b := a + |s|;
      forall i: nat | i < |t| ensures ByteIs(m, b, t, i) { assert ByteIs(m, a, u, |s| + i); }
    }
    if Holds(m, a, s) && Holds(m, a + |s|, t) {
      forall i: nat | i < |u| ensures ByteIs(m, a, u, i) {
        if i < |s| { assert ByteIs(m, a, s, i); } else { assert ByteIs(m, a + |s|, t, i - |s|); }
      }
    }
  }

  // ---- pushing --------------------------------------------------------------------------------------------------

  /** Only addresses in `lo..hi` changed. */
  ghost predicate Outside(m: Bytes, m': Bytes, lo: nat, hi: nat) {
    forall a: nat :: !(lo <= a < hi) ==> (a in m' <==> a in m) && (a in m ==> m'[a] == m[a])
  }

  lemma {:induction false} OverlayHolds(m: Bytes, sp: nat, s: seq<nat>, rest: seq<nat>)
    requires Holds(m, sp + |s|, rest)
    ensures Holds(Overlay(m, sp, s), sp, s + rest) && Outside(m, Overlay(m, sp, s), sp, sp + |s|)
  {
    var r := Overlay(m, sp, s);
    hide Overlay;
    assert Holds(r, sp, s);
    var b := sp + |s|;
    forall i: nat | i < |rest| ensures ByteIs(r, b, rest, i) { assert ByteIs(m, b, rest, i); }
    HoldsParts(r, sp, s, rest);
  }

  /** Stores `s` just below `sp`. */
  method PushBytes(ram: Ram, sp: nat, s: seq<nat>, ghost rest: seq<nat>) returns (sp': nat)
    requires |s| <= sp && Holds(ram.bytes, sp, rest)
    modifies ram
    ensures sp' == sp - |s| && Holds(ram.bytes, sp', s + rest) && Outside(old(ram.bytes), ram.bytes, sp', sp)
  {
    sp' := sp - |s|;
    OverlayHolds(ram.bytes, sp', s, rest);
    hide Overlay, Holds, Outside;
    ram.Copy(sp', s);
  }

  /** `*--sp = w` above a row of words. */
  method PushWord(ram: Ram, sp: nat, w: nat, ghost ws: seq<nat>, ghost tail: seq<nat>) returns (sp': nat)
    requires 8 <= sp && w < W64 && Holds(ram.bytes, sp, Flat(ws) + tail)
    modifies ram
    ensures sp' == sp - 8 && Holds(ram.bytes, sp', Flat([w] + ws) + tail) && Outside(old(ram.bytes), ram.bytes, sp', sp)
  {
    assert ([w] + ws)[1..] == ws;
    assert Flat([w] + ws) + tail == Le(w, 8) + (Flat(ws) + tail);
    hide Flat, Holds, Outside, Le;
    sp' := PushBytes(ram, sp, Le(w, 8), Flat(ws) + tail);
  }

  // ---- the argument strings -----------------------------------------------------------------------------------

  /** Argument `i`; a missing vector or pointer counts as the empty string. */
  function ArgText(argv: Option<seq<Option<seq<nat>>>>, i: nat): seq<nat> {
    if argv.Some? && i < |argv.value| && argv.value[i].Some? then argv.value[i].value else []
  }

  /** Bytes taken by arguments `i..n` with their terminators. */
  ghost function TextRoom(argv: Option<seq<Option<seq<nat>>>>, i: nat, n: nat): nat
    requires i <= n
    decreases n - i
  {
    if i == n then 0 else |ArgText(argv, i)| + 1 + TextRoom(argv, i + 1, n)
  }

  ghost predicate ArgsOk(argv: Option<seq<Option<seq<nat>>>>, n: nat) {
    n <= MAX_ARGS && forall i: nat :: i < n ==> Text(ArgText(argv, i))
  }

  /** Pointer `j` leads to argument `j`, which ends where the next one starts. */
  ghost predicate Placed(m: Bytes, ptrs: seq<nat>, argv: Option<seq<Option<seq<nat>>>>, n: nat, lo: nat, top: nat,
                         j: nat)
  {
    && j < n <= |ptrs| && lo <= ptrs[j] && 0 < ptrs[j] < W64 && StringAt(m, ptrs[j], ArgText(argv, j))
    && ptrs[j] + |ArgText(argv, j)| + 1 == if j + 1 < n then ptrs[j + 1] else top
  }

  lemma {:induction false} StringKept(m: Bytes, m': Bytes, lo: nat, hi: nat, p: nat, s: seq<nat>)
    requires StringAt(m, p, s) && Outside(m, m', lo, hi) && hi <= p
    ensures StringAt(m', p, s)
  {
    var u := s + [0];
    forall i: nat | i < |u| ensures ByteIs(m', p, u, i) { assert ByteIs(m, p, u, i); }
  }

  /** The strings, last one first, each ending where the one before starts. */
  method PushStrings(ram: Ram, top: nat, argv: Option<seq<Option<seq<nat>>>>, argc: nat, ptrs: array<nat>)
    returns (sp: nat, ghost tail: seq<nat>)
    requires ArgsOk(argv, argc) && ptrs.Length == MAX_ARGS && TextRoom(argv, 0, argc) < top < W64
    modifies ram, ptrs
    ensures sp == top - TextRoom(argv, 0, argc) && Holds(ram.bytes, sp, tail) && |tail| == top - sp
    ensures forall j: nat :: j < argc ==> Placed(ram.bytes, ptrs[..], argv, argc, sp, top, j)
    ensures Outside(old(ram.bytes), ram.bytes, sp, top)
  {
    sp, tail := top, [];
    var i: nat := argc;
    while i > 0
      invariant i <= argc && sp == top - TextRoom(argv, i, argc) && TextRoom(argv, i, argc) <= TextRoom(argv, 0, argc)
      invariant Holds(ram.bytes, sp, tail) && |tail| == top - sp && Outside(old(ram.bytes), ram.bytes, sp, top)
      invariant forall j: nat :: i <= j < argc ==> Placed(ram.bytes, ptrs[..], argv, argc, sp, top, j)
      invariant i < argc ==> ptrs[i] == sp
    {
      i := i - 1;
      RoomMono(argv, i, argc);
      sp, tail := PushString(ram, sp, argv, argc, i, ptrs, tail, top, old(ram.bytes));
    }
  }

  lemma {:induction false} RoomMono(argv: Option<seq<Option<seq<nat>>>>, i: nat, n: nat)
    requires i <= n
    ensures TextRoom(argv, i, n) <= TextRoom(argv, 0, n)
    decreases i
  {
    if i > 0 { RoomMono(argv, i - 1, n); }
  }

  method PushString(ram: Ram, sp: nat, argv: Option<seq<Option<seq<nat>>>>, ghost argc: nat, i: nat, ptrs: array<nat>,
                    ghost tail: seq<nat>, ghost top: nat, ghost m0: Bytes)
    returns (sp': nat, ghost tail': seq<nat>)
    requires ArgsOk(argv, argc) && i < argc && ptrs.Length == MAX_ARGS && |ArgText(argv, i)| + 1 < sp <= top < W64
    requires Holds(ram.bytes, sp, tail) && |tail| == top - sp && Outside(m0, ram.bytes, sp, top)
    requires forall j: nat :: i < j < argc ==> Placed(ram.bytes, ptrs[..], argv, argc, sp, top, j)
    requires if i + 1 < argc then ptrs[i + 1] == sp else sp == top
    modifies ram, ptrs
    ensures sp' == sp - |ArgText(argv, i)| - 1 && ptrs[i] == sp'
    ensures Holds(ram.bytes, sp', tail') && |tail'| == top - sp' && Outside(m0, ram.bytes, sp', top)
    ensures forall j: nat :: i <= j < argc ==> Placed(ram.bytes, ptrs[..], argv, argc, sp', top, j)
  {
    var s := ArgText(argv, i);
    hide Holds, ArgText;
    sp' := PushBytes(ram, sp, s + [0], tail);
    tail' := s + [0] + tail;
    HoldsParts(ram.bytes, sp', s + [0], tail);
    ptrs[i] := sp';
    forall j: nat | i < j < argc ensures Placed(ram.bytes, ptrs[..], argv, argc, sp', top, j) {
      assert Placed(old(ram.bytes), old(ptrs[..]), argv, argc, sp, top, j);
      StringKept(old(ram.bytes), ram.bytes, sp', sp, ptrs[j], ArgText(argv, j));
    }
  }

  // ---- the words ---------------------------------------------------------------------------------------------

  const RANDOM0: nat := 0xBAAD_F00D_BEEF_CACE
  const RANDOM1: nat := 0xDEAD_BEEF_CAFE_BABE

  /** The intended auxiliary vector: AT_RANDOM, AT_BASE, AT_PAGESZ, AT_SECURE and, when there are program
      headers, AT_PHNUM, AT_PHENT, AT_PHDR. */
  ghost function Auxv(phdr: nat, phent: nat, phnum: nat, base: nat, random: nat): seq<(nat, nat)> {
    [(15, random), (7, base), (6, 0x1000), (23, 0)] + (if phnum != 0 then [(5, phnum), (4, phent), (3, phdr)] else [])
  }

  ghost function PairWords(aux: seq<(nat, nat)>): (r: seq<nat>)
    ensures |r| == 2 * |aux|
  {
    if aux == [] then [] else [aux[0].0, aux[0].1] + PairWords(aux[1..])
  }

  lemma {:induction false} PairWordsAt(aux: seq<(nat, nat)>, i: nat)
    requires i < |aux|
    ensures PairWords(aux)[2 * i] == aux[i].0 && PairWords(aux)[2 * i + 1] == aux[i].1
    decreases i
  {
    if i > 0 { PairWordsAt(aux[1..], i - 1); }
  }

  /** A stack under construction: memory `m` differs from `m0` in `sp..top` only, and holds the pairs `aux`,
      the null pair and then `tail` from `sp` on. */
  ghost predicate Pairs(m0: Bytes, m: Bytes, sp: nat, top: nat, aux: seq<(nat, nat)>, tail: seq<nat>) {
    sp <= top && Outside(m0, m, sp, top) && Holds(m, sp, Flat(PairWords(aux) + [0, 0]) + tail)
  }

  lemma {:induction false} OutsideTrans(m0: Bytes, m: Bytes, m': Bytes, lo: nat, mid: nat, top: nat)
    requires Outside(m0, m, mid, top) && Outside(m, m', lo, mid) && lo <= mid <= top
    ensures Outside(m0, m', lo, top)
  {
  }

  /** Pushes a pair below the pairs already there. */
  method PushPair(ram: Ram, sp: nat, kind: nat, value: nat, ghost aux: seq<(nat, nat)>, ghost tail: seq<nat>,
                  ghost m0: Bytes, ghost top: nat) returns (sp': nat)
    requires 16 <= sp && kind < W64 && value < W64 && Pairs(m0, ram.bytes, sp, top, aux, tail)
    modifies ram
    ensures sp' == sp - 16 && Pairs(m0, ram.bytes, sp', top, [(kind, value)] + aux, tail)
  {
    ghost var ws := PairWords(aux) + [0, 0];
    assert ([(kind, value)] + aux)[1..] == aux;
    assert [kind] + ([value] + ws) == PairWords([(kind, value)] + aux) + [0, 0];
    hide Flat, Holds, PairWords, Outside;
    sp' := PushWord(ram, sp, value, ws, tail);
    OutsideTrans(m0, old(ram.bytes), ram.bytes, sp', sp, top);
    ghost var m := ram.bytes;
    sp' := PushWord(ram, sp', kind, [value] + ws, tail);
    OutsideTrans(m0, m, ram.bytes, sp', sp - 8, top);
  }

  method PushNullPair(ram: Ram, sp: nat, ghost tail: seq<nat>, ghost m0: Bytes, ghost top: nat) returns (sp': nat)
    requires 16 <= sp <= top && Holds(ram.bytes, sp, tail) && Outside(m0, ram.bytes, sp, top)
    modifies ram
    ensures sp' == sp - 16 && Pairs(m0, ram.bytes, sp', top, [], tail)
  {
    assert Flat([]) + tail == tail && [0] + [0] == [0, 0] && PairWords([]) + [0, 0] == [0, 0] && [0] + [] == [0];
    hide Flat, Holds, PairWords, Outside;
    sp' := PushWord(ram, sp, 0, [], tail);
    OutsideTrans(m0, old(ram.bytes), ram.bytes, sp', sp, top);
    ghost var m := ram.bytes;
    sp' := PushWord(ram, sp', 0, [0], tail);
    OutsideTrans(m0, m, ram.bytes, sp', sp - 8, top);
  }

  ghost function HeaderPairs(phdr: nat, phent: nat, phnum: nat): seq<(nat, nat)> {
    if phnum != 0 then [(5, phnum)] + ([(4, phent)] + ([(3, phdr)] + [])) else []
  }

  method PushAux(ram: Ram, sp: nat, phdr: nat, phent: nat, phnum: nat, base: nat, random: nat, ghost tail: seq<nat>,
                 ghost m0: Bytes, ghost top: nat)
    returns (sp': nat)
    requires 128 <= sp <= top && phdr < W64 && phent < W64 && phnum < W64 && base < W64 && random < W64
    requires Holds(ram.bytes, sp, tail) && Outside(m0, ram.bytes, sp, top)
    modifies ram
    ensures var aux := Auxv(phdr, phent, phnum, base, random);
            sp' == sp - 16 * |aux| - 16 && Pairs(m0, ram.bytes, sp', top, aux, tail)
  {
    ghost var a := HeaderPairs(phdr, phent, phnum);
    ghost var b := [(23, 0)] + a;
    ghost var c := [(6, 0x1000)] + b;
    ghost var d := [(7, base)] + c;
    assert [(15, random)] + d == Auxv(phdr, phent, phnum, base, random);
    hide Pairs, Holds, Outside;
    sp' := PushNullPair(ram, sp, tail, m0, top);
    if phnum != 0 {
      sp' := PushPair(ram, sp', 3, phdr, [], tail, m0, top);
      sp' := PushPair(ram, sp', 4, phent, [(3, phdr)] + [], tail, m0, top);
      sp' := PushPair(ram, sp', 5, phnum, [(4, phent)] + ([(3, phdr)] + []), tail, m0, top);
    }
    hide Auxv, HeaderPairs;
    sp' := PushPair(ram, sp', 23, 0, a, tail, m0, top);
    sp' := PushPair(ram, sp', 6, 0x1000, b, tail, m0, top);
    sp' := PushPair(ram, sp', 7, base, c, tail, m0, top);
    sp' := PushPair(ram, sp', 15, random, d, tail, m0, top);
  }

  // ---- the whole stack ---------------------------------------------------------------------------------------

  ghost predicate Row(m0: Bytes, m: Bytes, sp: nat, top: nat, ws: seq<nat>, tail: seq<nat>) {
    sp <= top && Outside(m0, m, sp, top) && Holds(m, sp, Flat(ws) + tail)
  }

  method PushRow(ram: Ram, sp: nat, w: nat, ghost ws: seq<nat>, ghost tail: seq<nat>, ghost m0: Bytes, ghost top: nat)
    returns (sp': nat)
    requires 8 <= sp && w < W64 && Row(m0, ram.bytes, sp, top, ws, tail)
    modifies ram
    ensures sp' == sp - 8 && Row(m0, ram.bytes, sp', top, [w] + ws, tail)
  {
    hide Flat, Holds, Outside;
    sp' := PushWord(ram, sp, w, ws, tail);
    OutsideTrans(m0, old(ram.bytes), ram.bytes, sp', sp, top);
  }

  /** The argument pointers and their count, above a row of words. */
  method PushPointers(ram: Ram, sp: nat, ptrs: array<nat>, argc: nat, ghost ws: seq<nat>, ghost tail: seq<nat>,
                      ghost m0: Bytes, ghost top: nat)
    returns (sp': nat)
    requires argc <= ptrs.Length && 8 * argc + 8 <= sp && argc < W64 && Row(m0, ram.bytes, sp, top, ws, tail)
    requires forall j :: 0 <= j < argc ==> ptrs[j] < W64
    modifies ram
    ensures sp' == sp - 8 * argc - 8 && Row(m0, ram.bytes, sp', top, [argc] + (ptrs[..argc] + ws), tail)
  {
    var i: nat := argc;
    sp' := sp;
    assert ptrs[argc..argc] + ws == ws;
    hide Row;
    while i > 0
      invariant i <= argc && sp' == sp - 8 * (argc - i)
      invariant Row(m0, ram.bytes, sp', top, ptrs[i..argc] + ws, tail)
    {
      i := i - 1;
      assert [ptrs[i]] + (ptrs[i + 1..argc] + ws) == ptrs[i..argc] + ws;
      sp' := PushRow(ram, sp', ptrs[i], ptrs[i + 1..argc] + ws, tail, m0, top);
    }
    assert ptrs[0..argc] == ptrs[..argc];
    sp' := PushRow(ram, sp', argc, ptrs[..argc] + ws, tail, m0, top);
  }

  /** The words of a finished stack. */
  ghost function StackWords(ptrs: seq<nat>, aux: seq<(nat, nat)>): (r: seq<nat>)
    ensures |r| == |ptrs| + 5 + 2 * |aux|
  {
    [|ptrs|] + (ptrs + ([0] + ([0] + (PairWords(aux) + [0, 0]))))
  }

  ghost predicate AuxOk(aux: seq<(nat, nat)>) {
    forall i :: 0 <= i < |aux| ==> 0 < aux[i].0 < W64 && aux[i].1 < W64
  }

  lemma {:induction false} PairWordsOk(aux: seq<(nat, nat)>)
    requires AuxOk(aux)
    ensures Words(PairWords(aux))
    decreases |aux|
  {
    if aux != [] { PairWordsOk(aux[1..]); }
  }

  lemma {:induction false} FlatConcat(u: seq<nat>, v: seq<nat>)
    ensures Flat(u + v) == Flat(u) + Flat(v)
    decreases |u|
  {
    if u == [] {
      assert u + v == v;
    } else {
      assert (u + v)[1..] == u[1..] + v;
      FlatConcat(u[1..], v);
    }
  }

  /** A row read in two parts. */
  lemma {:induction false} RowSplit(m: Bytes, a: nat, u: seq<nat>, v: seq<nat>, tail: seq<nat>)
    requires Holds(m, a, Flat(u + v) + tail)
    ensures Holds(m, a, Flat(u) + (Flat(v) + tail)) && Holds(m, a + 8 * |u|, Flat(v) + tail)
  {
    FlatConcat(u, v);
    hide Flat, Holds;
    assert Flat(u + v) + tail == Flat(u) + (Flat(v) + tail);
    HoldsParts(m, a, Flat(u), Flat(v) + tail);
  }

  lemma {:induction false} DecodePointer(m: Bytes, a: nat, ptrs: seq<nat>, tail: seq<nat>, i: nat, s: seq<nat>)
    requires Holds(m, a, Flat(ptrs) + tail) && Words(ptrs) && i < |ptrs| && ptrs[i] != 0 && StringAt(m, ptrs[i], s)
    ensures PointsTo(m, a + 8 * i, s)
  {
    hide Flat, Holds, StringAt, Words, Num;
    FlatAt(m, a, ptrs, tail, i, a + 8 * i);
  }

  lemma {:induction false} DecodeNull(m: Bytes, a: nat, tail: seq<nat>)
    requires Holds(m, a, Flat([0]) + tail)
    ensures WordAt(m, a, 0)
  {
    hide Holds, Flat, Num;
    FlatAt(m, a, [0], tail, 0, a);
  }

  lemma {:induction false} DecodePair(m: Bytes, a: nat, aux: seq<(nat, nat)>, tail: seq<nat>, i: nat, b: nat)
    requires Holds(m, a, Flat(PairWords(aux)) + tail) && AuxOk(aux) && i < |aux| && b == a + 16 * i
    ensures PairAt(m, b, aux[i])
  {
    assert aux[i].0 != 0;
    hide Flat, Holds, Words, PairWords, Num, ReadWord, AuxOk, Readable;
    PairWordsOk(aux);
    PairWordsAt(aux, i);
    FlatAt(m, a, PairWords(aux), tail, 2 * i, b);
    FlatAt(m, a, PairWords(aux), tail, 2 * i + 1, b + 8);
  }

  lemma {:induction false} DecodeAux(m: Bytes, a: nat, aux: seq<(nat, nat)>, tail: seq<nat>)
    requires Holds(m, a, Flat(PairWords(aux) + [0, 0]) + tail) && AuxOk(aux)
    ensures AuxAt(m, a, aux)
  {
    hide Flat, Holds, PairWords, AuxOk, Num, ReadWord;
    RowSplit(m, a, PairWords(aux), [0, 0], tail);
    assert [0, 0] == [0] + [0];
    RowSplit(m, a + 16 * |aux|, [0], [0], tail);
    DecodeNull(m, a + 16 * |aux|, Flat([0]) + tail);
    forall i: nat | i < |aux| ensures PairAt(m, a + 16 * i, aux[i]) {
      DecodePair(m, a, aux, Flat([0, 0]) + tail, i, a + 16 * i);
    }
  }

  /** A null-terminated row of pointers, and the row after it. */
  lemma {:induction false} DecodeVector(m: Bytes, a: nat, ptrs: seq<nat>, v: seq<seq<nat>>, w: seq<nat>, tail: seq<nat>,
                                        b: nat)
    requires Holds(m, a, Flat(ptrs + ([0] + w)) + tail) && |v| == |ptrs| && Words(ptrs) && b == a + 8 * |v| + 8
    requires forall i: nat :: i < |ptrs| ==> 0 < ptrs[i] && StringAt(m, ptrs[i], v[i])
    ensures VectorAt(m, a, v) && Holds(m, b, Flat(w) + tail)
  {
    hide Flat, Holds, StringAt, Words, ReadWord, Readable;
    RowSplit(m, a, ptrs, [0] + w, tail);
    RowSplit(m, a + 8 * |v|, [0], w, tail);
    DecodeNull(m, a + 8 * |v|, Flat(w) + tail);
    forall i: nat | i < |v| ensures PointsTo(m, a + 8 * i, v[i]) {
      DecodePointer(m, a, ptrs, Flat([0] + w) + tail, i, v[i]);
    }
  }

  /** The reader finds what the words say. */
  lemma {:induction false} Decode(m: Bytes, rsp: nat, ptrs: seq<nat>, args: seq<seq<nat>>, aux: seq<(nat, nat)>,
                                  tail: seq<nat>)
    requires Holds(m, rsp, Flat(StackWords(ptrs, aux)) + tail) && AuxOk(aux) && |args| == |ptrs| < W64
    requires forall i: nat :: i < |ptrs| ==> 0 < ptrs[i] < W64 && StringAt(m, ptrs[i], args[i])
    ensures AbiReads(m, rsp, args, [], aux)
  {
    var n := |ptrs|;
    var p := PairWords(aux) + [0, 0];
    assert Words(ptrs) && Words([n]) && Words([]);
    assert [] + ([0] + p) == [0] + p;
    hide Flat, Holds, StringAt, PairWords, Words, AuxOk, ReadWord, Readable, VectorAt, AuxAt;
    RowSplit(m, rsp, [n], ptrs + ([0] + ([0] + p)), tail);
    FlatAt(m, rsp, [n], Flat(ptrs + ([0] + ([0] + p))) + tail, 0, rsp);
    DecodeVector(m, rsp + 8, ptrs, args, [0] + p, tail, rsp + 16 + 8 * n);
    DecodeVector(m, rsp + 16 + 8 * n, [], [], p, tail, rsp + 24 + 8 * n);
    DecodeAux(m, rsp + 24 + 8 * n, aux, tail);
  }

  /** The first `n` arguments. */
  ghost function Args(argv: Option<seq<Option<seq<nat>>>>, n: nat): (r: seq<seq<nat>>)
    ensures |r| == n && forall i: nat :: i < n ==> r[i] == ArgText(argv, i)
  {
    seq(n, (i: nat) => ArgText(argv, i))
  }

  ghost predicate AllPlaced(m: Bytes, ptrs: seq<nat>, argv: Option<seq<Option<seq<nat>>>>, n: nat, lo: nat, top: nat) {
    |ptrs| >= n && forall j: nat :: j < n ==> Placed(m, ptrs, argv, n, lo, top, j)
  }

  lemma {:induction false} PlacedKept(m: Bytes, m': Bytes, ptrs: seq<nat>, argv: Option<seq<Option<seq<nat>>>>, n: nat,
                                      lo: nat, top: nat, rsp: nat)
    requires AllPlaced(m, ptrs, argv, n, lo, top) && Outside(m, m', rsp, lo)
    ensures AllPlaced(m', ptrs, argv, n, lo, top)
  {
    forall j: nat | j < n ensures Placed(m', ptrs, argv, n, lo, top, j) {
      assert Placed(m, ptrs, argv, n, lo, top, j);
      StringKept(m, m', rsp, lo, ptrs[j], ArgText(argv, j));
    }
  }

  function RandomBytes(): (r: seq<nat>)
    ensures |r| == 16
  {
    Le(RANDOM0, 8) + Le(RANDOM1, 8)
  }

  /** Everything below the strings. */
  method PushTable(ram: Ram, sp: nat, phdr: nat, phent: nat, phnum: nat, base: nat, ptrs: array<nat>, n: nat,
                   ghost tail: seq<nat>)
    returns (rsp: nat, random: nat)
    requires n <= ptrs.Length && n <= MAX_ARGS && (forall j :: 0 <= j < n ==> ptrs[j] < W64)
    requires phdr < W64 && phent < W64 && phnum < W64 && base < W64 && 232 <= sp < W64 && Holds(ram.bytes, sp, tail)
    modifies ram
    ensures random == sp - 16
    ensures var aux := Auxv(phdr, phent, phnum, base, random);
            && Row(old(ram.bytes), ram.bytes, rsp, sp, StackWords(ptrs[..n], aux), RandomBytes() + tail)
            && rsp == random - 8 * (n + 5 + 2 * |aux|)
  {
    random := PushBytes(ram, sp, RandomBytes(), tail);
    ghost var m, t := old(ram.bytes), RandomBytes() + tail;
    hide RandomBytes, Holds, Outside;
    rsp := PushAux(ram, random, phdr, phent, phnum, base, random, t, m, sp);
    ghost var aux := Auxv(phdr, phent, phnum, base, random);
    ghost var p := PairWords(aux) + [0, 0];
    assert Row(m, ram.bytes, rsp, sp, p, t);
    hide Row, Pairs, PairWords, Flat;
    rsp := PushRow(ram, rsp, 0, p, t, m, sp);
    rsp := PushRow(ram, rsp, 0, [0] + p, t, m, sp);
    if n > 0 {
      rsp := PushPointers(ram, rsp, ptrs, n, [0] + ([0] + p), t, m, sp);
    } else {
      rsp := PushRow(ram, rsp, 0, [0] + ([0] + p), t, m, sp);
      assert ptrs[..0] + ([0] + ([0] + p)) == [0] + ([0] + p);
    }
  }

  lemma {:induction false} AuxvOk(phdr: nat, phent: nat, phnum: nat, base: nat, random: nat)
    requires phdr < W64 && phent < W64 && phnum < W64 && base < W64 && random < W64
    ensures AuxOk(Auxv(phdr, phent, phnum, base, random)) && |Auxv(phdr, phent, phnum, base, random)| <= 7
  {
  }

  /** `setup_linux_user_stack` with an empty environment: the reader that starts at the returned pointer
      finds exactly the arguments, no environment and the intended auxiliary vector; the random bytes and
      the argument strings all lie above the words, one after the other. */
  method SetupStack(ram: Ram, top: nat, phdr: nat, phent: nat, phnum: nat, base: nat,
                    argv: Option<seq<Option<seq<nat>>>>, argc: nat)
    returns (rsp: nat, ghost ptrs: seq<nat>, ghost random: nat)
    requires ArgsOk(argv, argc) && (argv.Some? ==> |argv.value| == argc)
    requires phdr < W64 && phent < W64 && phnum < W64 && base < W64
    requires TextRoom(argv, 0, argc) + 232 <= top < W64
    modifies ram
    ensures var n := if argv.Some? then argc else 0;
            var aux := Auxv(phdr, phent, phnum, base, random);
            && AbiReads(ram.bytes, rsp, Args(argv, n), [], aux)
            && rsp + 8 * (n + 5 + 2 * |aux|) == random && Holds(ram.bytes, random, RandomBytes())
            && AllPlaced(ram.bytes, ptrs, argv, argc, random + 16, top)
    ensures Outside(old(ram.bytes), ram.bytes, rsp, top)
  {
    var table := new nat[MAX_ARGS];
    var sp, r;
    ghost var tail;
    hide Holds, Outside, ArgText, RandomBytes;
    sp, tail := PushStrings(ram, top, argv, argc, table);
    ptrs := table[..];
    ghost var m1 := ram.bytes;
    assert AllPlaced(m1, ptrs, argv, argc, sp, top);
    var n := if argv.Some? then argc else 0;
    assert forall j :: 0 <= j < n ==> Placed(m1, ptrs, argv, argc, sp, top, j) && table[j] == ptrs[j];
    rsp, r := PushTable(ram, sp, phdr, phent, phnum, base, table, n, tail);
    random := r;
    Finish(old(ram.bytes), m1, ram.bytes, rsp, sp, top, ptrs, argv, argc, n, phdr, phent, phnum, base, random, tail);
  }

  lemma {:induction false} Finish(m0: Bytes, m1: Bytes, m: Bytes, rsp: nat, sp: nat, top: nat, ptrs: seq<nat>,
                                  argv: Option<seq<Option<seq<nat>>>>, argc: nat, n: nat, phdr: nat, phent: nat,
                                  phnum: nat, base: nat, random: nat, tail: seq<nat>)
    requires n <= argc <= |ptrs| && argc <= MAX_ARGS && phdr < W64 && phent < W64 && phnum < W64 && base < W64
    requires sp <= top < W64 && Outside(m0, m1, sp, top) && AllPlaced(m1, ptrs, argv, argc, sp, top)
    requires sp == random + 16
    requires var aux := Auxv(phdr, phent, phnum, base, random);
             && Row(m1, m, rsp, sp, StackWords(ptrs[..n], aux), RandomBytes() + tail)
             && rsp == random - 8 * (n + 5 + 2 * |aux|)
    ensures AbiReads(m, rsp, Args(argv, n), [], Auxv(phdr, phent, phnum, base, random))
    ensures Holds(m, random, RandomBytes()) && AllPlaced(m, ptrs, argv, argc, sp, top) && Outside(m0, m, rsp, top)
  {
    var aux := Auxv(phdr, phent, phnum, base, random);
    var ws := StackWords(ptrs[..n], aux);
    AuxvOk(phdr, phent, phnum, base, random);
    hide Holds, Outside, Flat, RandomBytes, Auxv, AuxOk, AbiReads, ArgText, StackWords;
    PlacedKept(m1, m, ptrs, argv, argc, sp, top, rsp);
    OutsideTrans(m0, m1, m, rsp, sp, top);
    HoldsParts(m, rsp, Flat(ws), RandomBytes() + tail);
    HoldsParts(m, random, RandomBytes(), tail);
    forall i: nat | i < n ensures 0 < ptrs[..n][i] < W64 && StringAt(m, ptrs[..n][i], Args(argv, n)[i]) {
      assert Placed(m, ptrs, argv, argc, sp, top, i);
    }
    Decode(m, rsp, ptrs[..n], Args(argv, n), aux, RandomBytes() + tail);
  }
}
