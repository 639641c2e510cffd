/** The Mach-O packer and the loader that must undo it. */
module MachO {
  import opened MachineWords
  import opened Sequences
  import opened ByteMemory

  const MH_MAGIC: nat := 0xFEED_FACF
  const MH_CIGAM: nat := 0xCFFA_EDFE
  const FAT_MAGIC: nat := 0xCAFE_BABE
  const FAT_CIGAM: nat := 0xBEBA_FECA
  const LC_SEGMENT: nat := 0x19
  const LC_MAIN: nat := 0x8000_0028
  const LC_UNIXTHREAD: nat := 0x05
  const BASE: nat := 0x1000_0000

  // ---- the packer ---------------------------------------------------------------------------------

  function Identity(): (r: seq<nat>)
    ensures |r| == 16 && Octets(r)
  {
    Le(MH_MAGIC, 4) + Le(0x0100_0007, 4) + Le(0x8000_0003, 4) + Le(2, 4)
  }

  function Counts(): (r: seq<nat>)
    ensures |r| == 16 && Octets(r)
  {
    Le(2, 4) + Le(96, 4) + Le(0x20_0085, 4) + Le(0, 4)
  }

  function Header(): (r: seq<nat>)
    ensures |r| == 32 && Octets(r)
  {
    Identity() + Counts()
  }

  /** `__TEXT` and ten zero bytes. */
  function SegName(): (r: seq<nat>)
    ensures |r| == 16 && Octets(r)
  {
    [0x5F, 0x5F, 0x54, 0x45, 0x58, 0x54, 0, 0, 0, 0, 0, 0, 0, 0, 0, 0]
  }

  /** Address and size in memory, offset and size in the file. */
  function Extent(size: nat): (r: seq<nat>)
    ensures |r| == 32 && Octets(r)
  {
    Le(BASE, 8) + Le(size, 8) + Le(128, 8) + Le(size, 8)
  }

  function Protection(): (r: seq<nat>)
    ensures |r| == 16 && Octets(r)
  {
    Le(7, 4) + Le(5, 4) + Le(0, 4) + Le(0, 4)
  }

  function TextCommand(size: nat): (r: seq<nat>)
    ensures |r| == 72 && Octets(r)
  {
    Le(LC_SEGMENT, 4) + Le(72, 4) + SegName() + Extent(size) + Protection()
  }

  function MainCommand(entry: nat): (r: seq<nat>)
    ensures |r| == 24 && Octets(r)
  {
    Le(LC_MAIN, 4) + Le(24, 4) + Le(entry, 8) + Le(0, 8)
  }

  function Pack(code: seq<nat>, entry: nat): (r: seq<nat>)
    ensures |r| == 128 + |code| && r[128..] == code
  {
    Header() + TextCommand(|code|) + MainCommand(entry) + code
  }

  lemma PackParts(code: seq<nat>, entry: nat)
    ensures var d := Pack(code, entry);
            d[0..32] == Header() && d[32..104] == TextCommand(|code|) && d[104..128] == MainCommand(entry)
  {
    hide Header, TextCommand, MainCommand;
  }

  lemma PackHeader(code: seq<nat>, entry: nat)
    ensures var d := Pack(code, entry); Word(d, 0, 4) == MH_MAGIC && Word(d, 16, 4) == 2
  {
    hide Num, Pack, Header, TextCommand, MainCommand, Le, Power, Word;
    var d := Pack(code, entry);
    Powers();
    PackParts(code, entry);
    HeaderParts();
    PartAt(d, 0, Header(), 0, 4, MH_MAGIC);
    PartAt(d, 0, Header(), 16, 4, 2);
  }

  lemma HeaderParts()
    ensures Header()[0..4] == Le(MH_MAGIC, 4) && Header()[16..20] == Le(2, 4)
  {
    hide Le;
  }

  lemma PackText(code: seq<nat>, entry: nat)
    requires |code| < W64
    ensures var d := Pack(code, entry);
            && Word(d, 32, 4) == LC_SEGMENT && Word(d, 36, 4) == 72
            && Word(d, 56, 8) == BASE && Word(d, 64, 8) == |code| && Word(d, 72, 8) == 128 && Word(d, 80, 8) == |code|
  {
    hide Num, Pack, Header, TextCommand, MainCommand, Le, Power, Word;
    var d, t := Pack(code, entry), TextCommand(|code|);
    Powers();
    PackParts(code, entry);
    TextParts(|code|);
    PartAt(d, 32, t, 0, 4, LC_SEGMENT);
    PartAt(d, 32, t, 4, 4, 72);
    PartAt(d, 32, t, 24, 8, BASE);
    PartAt(d, 32, t, 32, 8, |code|);
    PartAt(d, 32, t, 40, 8, 128);
    PartAt(d, 32, t, 48, 8, |code|);
  }

  lemma TextParts(size: nat)
    ensures var t := TextCommand(size);
            && t[0..4] == Le(LC_SEGMENT, 4) && t[4..8] == Le(72, 4) && t[24..32] == Le(BASE, 8)
            && t[32..40] == Le(size, 8) && t[40..48] == Le(128, 8) && t[48..56] == Le(size, 8)
  {
    hide Le, SegName, Protection;
    var t, x := TextCommand(size), Extent(size);
    assert t[24..56] == x;
    assert t[24..32] == x[0..8] && t[32..40] == x[8..16] && t[40..48] == x[16..24] && t[48..56] == x[24..32];
  }

  /** A number stored inside a part of the file. */
  lemma PartAt(d: seq<nat>, o: nat, t: seq<nat>, i: nat, n: nat, v: nat)
    requires o + |t| <= |d| && d[o..o + |t|] == t && i + n <= |t| && t[i..i + n] == Le(v, n) && v < Power(n)
    ensures Word(d, o + i, n) == v
  {
    var x, y := d[o + i..o + i + n], t[i..i + n];
    forall k | 0 <= k < n ensures x[k] == y[k] { assert t[i + k] == d[o..o + |t|][i + k]; }
    assert x == y;
    AtLe(d, o + i, n, v);
  }

  lemma PackMain(code: seq<nat>, entry: nat)
    requires entry < W64
    ensures var d := Pack(code, entry);
            Word(d, 104, 4) == LC_MAIN && Word(d, 108, 4) == 24 && Word(d, 112, 8) == entry
  {
    hide Num, Pack, Header, TextCommand, MainCommand, Le, Power, Word;
    var d, t := Pack(code, entry), MainCommand(entry);
    Powers();
    PackParts(code, entry);
    MainParts(entry);
    PartAt(d, 104, t, 0, 4, LC_MAIN);
    PartAt(d, 104, t, 4, 4, 24);
    PartAt(d, 104, t, 8, 8, entry);
  }

  lemma MainParts(entry: nat)
    ensures var t := MainCommand(entry); t[0..4] == Le(LC_MAIN, 4) && t[4..8] == Le(24, 4) && t[8..16] == Le(entry, 8)
  {
    hide Le;
  }

  // ---- the loader --------------------------------------------------------------------------------------

  /** Memory, the first segment's address, the slide, and the entry point found so far. */
  datatype Loading = Loading(bytes: Bytes, base: nat, slide: nat, entry: nat)

  /** `(end + 0x1BFFF) & ~0xFFF` */
  function ExtraEnd(end: nat): nat { Wrap(Wrap(end + 0x1BFFF) / 0x1000 * 0x1000) }

  /** The command at `off` lies in the file, and so does what it points to. */
  ghost predicate CommandFits(data: seq<nat>, off: nat) {
    && off + 8 <= |data|
    && (Word(data, off, 4) == LC_SEGMENT ==>
          off + 72 <= |data| && Word(data, off + 40, 8) + Word(data, off + 48, 8) <= |data| &&
          Word(data, off + 24, 8) + Word(data, off + 48, 8) <= W64 &&
          Word(data, off + 24, 8) + Word(data, off + 32, 8) + 0x1BFFF < W64)
    && (Word(data, off, 4) == LC_MAIN ==> off + 24 <= |data|)
    && (Word(data, off, 4) == LC_UNIXTHREAD ==> off + 56 <= |data|)
  }

  ghost predicate Fits(data: seq<nat>, off: nat, n: nat)
    decreases n
  {
    n > 0 ==> CommandFits(data, off) && Fits(data, off + Word(data, off + 4, 4), n - 1)
  }

  ghost function Segment(m: Bytes, dst: nat, vmsize: nat, file: seq<nat>): Bytes {
    var m1 := Overlay(m, dst, file);
    var m2 := Overlay(m1, dst + |file|, ZeroBytes(if |file| < vmsize then vmsize - |file| else 0));
    var end := dst + vmsize;
    Overlay(m2, end, ZeroBytes(if end < ExtraEnd(end) then ExtraEnd(end) - end else 0))
  }

  ghost function Command(data: seq<nat>, off: nat, s: Loading): Loading
    requires CommandFits(data, off)
  {
    var cmd := Word(data, off, 4);
    if cmd == LC_SEGMENT then
      var vmaddr, vmsize, fileoff, filesize := Word(data, off + 24, 8), Word(data, off + 32, 8), Word(data, off + 40,
                                                    8), Word(data, off + 48, 8);
      if filesize == 0 then s
      else
        var s1 := if s.base == 0 then s.(base := vmaddr, slide := vmaddr) else s;
        s1.(bytes := Segment(s.bytes, Wrap(vmaddr - s1.base + s1.slide), vmsize, data[fileoff..fileoff + filesize]))
    else if cmd == LC_MAIN then s.(entry := Wrap(s.slide + Word(data, off + 8, 8)))
    else if cmd == LC_UNIXTHREAD then
      var e := Word(data, off + 48, 8);
      s.(entry := if s.base != 0 then Wrap(e - s.base + s.slide) else e)
    else s
  }

  ghost function Commands(data: seq<nat>, off: nat, n: nat, s: Loading): Loading
    requires Fits(data, off, n)
    decreases n
  {
    if n == 0 then s else Commands(data, off + Word(data, off + 4, 4), n - 1, Command(data, off, s))
  }

  method LoadSegment(ram: Ram, dst: nat, vmsize: nat, file: seq<nat>)
    requires dst + vmsize + 0x1BFFF < W64
    modifies ram
    ensures ram.bytes == Segment(old(ram.bytes), dst, vmsize, file)
  {
    hide Overlay, ExtraEnd, ZeroBytes;
    ram.Copy(dst, file);
    ram.Clear(dst + |file|, dst + vmsize);
    var end := dst + vmsize;
    ram.Clear(end, ExtraEnd(end));
  }

  method LoadCommand(ram: Ram, data: seq<nat>, off: nat, base: nat, slide: nat, entry: nat)
    returns (base': nat, slide': nat, entry': nat)
    requires Octets(data) && CommandFits(data, off) && base == slide < W64
    modifies ram
    ensures base' == slide' < W64
    ensures Loading(ram.bytes, base', slide', entry') == Command(data, off, Loading(old(ram.bytes), base, slide, entry))
  {
    base', slide', entry' := base, slide, entry;
    hide Num, Segment;
    var cmd := Word(data, off, 4);
    if cmd == LC_SEGMENT {
      AtBound(data, off + 24, 8);
      Powers();
      var vmaddr, vmsize := Word(data, off + 24, 8), Word(data, off + 32, 8);
      var fileoff, filesize := Word(data, off + 40, 8), Word(data, off + 48, 8);
      if filesize > 0 {
        if base' == 0 { base', slide' := vmaddr, vmaddr; }
        LoadSegment(ram, Wrap(vmaddr - base' + slide'), vmsize, data[fileoff..fileoff + filesize]);
      }
    } else if cmd == LC_MAIN {
      entry' := Wrap(slide' + Word(data, off + 8, 8));
    } else if cmd == LC_UNIXTHREAD {
      var e := Word(data, off + 48, 8);
      entry' := if base' != 0 then Wrap(e - base' + slide') else e;
    }
  }

  lemma AtBound(data: seq<nat>, off: nat, n: nat)
    requires off + n <= |data| && Octets(data)
    ensures Word(data, off, n) < Power(n)
  {
    NumBound(data[off..off + n]);
  }

  predicate IsMachO(data: seq<nat>)
    requires |data| >= 32
  {
    Word(data, 0, 4) == MH_MAGIC || Word(data, 0, 4) == MH_CIGAM
  }

  /** `mach_o_load`: 0 for a foreign file; otherwise the commands are carried out in order. */
  method Load(ram: Ram, data: seq<nat>) returns (entry: nat)
    requires Octets(data) && |data| >= 32 && (IsMachO(data) ==> Fits(data, 32, Word(data, 16, 4)))
    modifies ram
    ensures if !IsMachO(data) then entry == 0 && ram.bytes == old(ram.bytes)
            else var r := Commands(data, 32, Word(data, 16, 4), Loading(old(ram.bytes), 0, 0, 0));
                 entry == r.entry && ram.bytes == r.bytes
  {
    var magic := Word(data, 0, 4);
    if magic == FAT_MAGIC || magic == FAT_CIGAM { return 0; }
    if magic != MH_MAGIC && magic != MH_CIGAM { return 0; }
    var off: nat, base: nat, slide: nat, i: nat := 32, 0, 0, 0;
    entry := 0;
    var n := Word(data, 16, 4);
    hide Num, Command, CommandFits;
    while i < n
      invariant i <= n && Fits(data, off, n - i) && base == slide < W64
      invariant Commands(data, 32, n, Loading(old(ram.bytes), 0, 0, 0)) ==
                Commands(data, off, n - i, Loading(ram.bytes, base, slide, entry))
    {
      base, slide, entry := LoadCommand(ram, data, off, base, slide, entry);
      off := off + Word(data, off + 4, 4);
      i := i + 1;
    }
  }

  // ---- what memory holds after any load ----------------------------------------------------------------------

  /** Where command `k` lies. */
  ghost function Offset(data: seq<nat>, off: nat, n: nat, k: nat): (r: nat)
    requires Fits(data, off, n) && k < n
    ensures CommandFits(data, r)
    decreases n
  {
    if k == 0 then off else Offset(data, off + Word(data, off + 4, 4), n - 1, k - 1)
  }

  lemma NextOffset(data: seq<nat>, off: nat, n: nat, j: nat)
    requires Fits(data, off, n) && j + 1 < n
    ensures Offset(data, off, n, j + 1) == Offset(data, off + Word(data, off + 4, 4), n - 1, j)
  {
  }

  /** A segment with a file part covers its file bytes, its size in memory and the slack behind that, where it was
      linked to lie. */
  ghost predicate Touches(data: seq<nat>, off: nat, a: nat)
    requires CommandFits(data, off)
  {
    && Word(data, off, 4) == LC_SEGMENT && Word(data, off + 48, 8) > 0
    && var vmaddr := Word(data, off + 24, 8);
       vmaddr <= a && (a < vmaddr + Word(data, off + 48, 8) || a < ExtraEnd(vmaddr + Word(data, off + 32, 8)))
  }

  /** The byte it has for `a`: of the file, unless `a` lies past the segment and in the slack or past the file part. */
  ghost function Shown(data: seq<nat>, off: nat, a: nat): nat
    requires CommandFits(data, off) && Touches(data, off, a)
  {
    var vmaddr, size := Word(data, off + 24, 8), Word(data, off + 48, 8);
    var end := vmaddr + Word(data, off + 32, 8);
    if a >= vmaddr + size || end <= a < ExtraEnd(end) then 0 else data[Word(data, off + 40, 8) + a - vmaddr]
  }

  ghost predicate SameAt(m: Bytes, m': Bytes, a: nat) {
    (a in m' <==> a in m) && (a in m ==> m'[a] == m[a])
  }

  /** One command: base and slide cancel out, so that a segment lands where it was linked. */
  lemma {:induction false} CommandAt(data: seq<nat>, off: nat, s: Loading, a: nat)
    requires Octets(data) && CommandFits(data, off) && s.base == s.slide < W64
    ensures var s' := Command(data, off, s);
            && s'.base == s'.slide < W64
            && if Touches(data, off, a) then a in s'.bytes && s'.bytes[a] == Shown(data, off, a)
               else SameAt(s.bytes, s'.bytes, a)
  {
    hide Num, ExtraEnd, Overlay, ZeroBytes, Word, Segment;
    if Word(data, off, 4) == LC_SEGMENT && Word(data, off + 48, 8) > 0 {
      AtBound(data, off + 24, 8);
      Powers();
      var vmaddr, vmsize := Word(data, off + 24, 8), Word(data, off + 32, 8);
      var fileoff, filesize := Word(data, off + 40, 8), Word(data, off + 48, 8);
      ExtraFacts(vmaddr + vmsize);
      SegmentAt(s.bytes, vmaddr, vmsize, data[fileoff..fileoff + filesize], a);
    }
  }

  lemma {:induction false} SegmentAt(m: Bytes, dst: nat, vmsize: nat, file: seq<nat>, a: nat)
    requires dst + vmsize + 0x1BFFF < W64
    ensures var m', end := Segment(m, dst, vmsize, file), dst + vmsize;
            if dst <= a && (a < dst + |file| || a < ExtraEnd(end)) then
              a in m' && m'[a] == if a >= dst + |file| || end <= a < ExtraEnd(end) then 0 else file[a - dst]
            else SameAt(m, m', a)
  {
    hide ExtraEnd, Overlay, Num, Le;
    ExtraFacts(dst + vmsize);
    var m1 := Overlay(m, dst, file);
    var m2 := Overlay(m1, dst + |file|, ZeroBytes(if |file| < vmsize then vmsize - |file| else 0));
    assert dst + |file| <= a < dst + vmsize ==> a in m2 && m2[a] == 0;
    assert a < dst + |file| ==> SameAt(m1, m2, a);
  }

  /** No command from the `k`-th on covers `a`. */
  ghost predicate LeftAlone(data: seq<nat>, off: nat, n: nat, k: nat, a: nat)
    requires Fits(data, off, n)
  {
    forall j: nat :: k <= j < n ==> !Touches(data, Offset(data, off, n, j), a)
  }

  lemma {:induction false} AloneAfter(data: seq<nat>, off: nat, n: nat, k: nat, a: nat)
    requires n > 0 && Fits(data, off, n) && LeftAlone(data, off, n, k + 1, a)
    ensures LeftAlone(data, off + Word(data, off + 4, 4), n - 1, k, a)
  {
    hide Word, Touches;
    var next, rest: nat := off + Word(data, off + 4, 4), n - 1;
    forall j: nat | k <= j < rest ensures !Touches(data, Offset(data, next, rest, j), a) {
      NextOffset(data, off, n, j);
      assert !Touches(data, Offset(data, off, n, j + 1), a);
    }
  }

  /** After any load an address holds what the last segment that covers it has for it. */
  lemma {:induction false} LastWriter(data: seq<nat>, off: nat, n: nat, s: Loading, k: nat, a: nat)
    requires Octets(data) && Fits(data, off, n) && s.base == s.slide < W64
    requires k < n && Touches(data, Offset(data, off, n, k), a) && LeftAlone(data, off, n, k + 1, a)
    ensures var m := Commands(data, off, n, s).bytes; a in m && m[a] == Shown(data, Offset(data, off, n, k), a)
    decreases n
  {
    hide Num, Word, Command, Touches, Shown, Octets, LeftAlone;
    CommandAt(data, off, s, a);
    AloneAfter(data, off, n, k, a);
    var next, s' := off + Word(data, off + 4, 4), Command(data, off, s);
    if k == 0 {
      Untouched(data, next, n - 1, s', a);
    } else {
      NextOffset(data, off, n, k - 1);
      LastWriter(data, next, n - 1, s', k - 1, a);
    }
  }

  /** An address that no segment covers is as it was. */
  lemma {:induction false} Untouched(data: seq<nat>, off: nat, n: nat, s: Loading, a: nat)
    requires Octets(data) && Fits(data, off, n) && s.base == s.slide < W64 && LeftAlone(data, off, n, 0, a)
    ensures SameAt(s.bytes, Commands(data, off, n, s).bytes, a)
    decreases n
  {
    hide Num, Word, Command, Touches, Octets, LeftAlone;
    if n > 0 {
      CommandAt(data, off, s, a);
      FirstAlone(data, off, n, a);
      AloneAfter(data, off, n, 0, a);
      Untouched(data, off + Word(data, off + 4, 4), n - 1, Command(data, off, s), a);
    }
  }

  lemma {:induction false} FirstAlone(data: seq<nat>, off: nat, n: nat, a: nat)
    requires n > 0 && Fits(data, off, n) && LeftAlone(data, off, n, 0, a)
    ensures !Touches(data, off, a) && LeftAlone(data, off, n, 1, a)
  {
    assert !Touches(data, Offset(data, off, n, 0), a);
  }

  // ---- pack, then load -----------------------------------------------------------------------------------

  ghost predicate Packable(code: seq<nat>, entry: nat)
  {
    0 < |code| < 0x1_0000_0000 - 128 && Octets(code) && entry < W64
  }

  lemma {:induction false} PackFits(code: seq<nat>, entry: nat)
    requires Packable(code, entry)
    ensures var d := Pack(code, entry);
            Word(d, 16, 4) == 2 && CommandFits(d, 32) && CommandFits(d, 104) && Fits(d, 32, 2)
  {
    PackHeader(code, entry);
    PackText(code, entry);
    PackMain(code, entry);
    hide Num, Pack, Word;
    var d := Pack(code, entry);
    assert Fits(d, 128, 0);
    assert Fits(d, 104, 1);
  }

  /** The loader's end result on a packed file. */
  lemma {:induction false} PackedCommands(code: seq<nat>, entry: nat, m: Bytes)
    requires Packable(code, entry) && Fits(Pack(code, entry), 32, 2)
    ensures Commands(Pack(code, entry), 32, 2, Loading(m, 0, 0, 0)) ==
            Loading(Segment(m, BASE, |code|, code), BASE, BASE, Wrap(BASE + entry))
  {
    var d := Pack(code, entry);
    var s1 := Loading(Segment(m, BASE, |code|, code), BASE, BASE, 0);
    PackFits(code, entry);
    TextEffect(code, entry, m);
    MainEffect(code, entry, s1);
    PackText(code, entry);
    PackMain(code, entry);
    hide Num, Pack, Word, Segment, Command, CommandFits;
    var s2 := Command(d, 104, s1);
    assert Commands(d, 128, 0, s2) == s2;
    assert Commands(d, 104, 1, s1) == s2;
  }

  lemma {:induction false} TextEffect(code: seq<nat>, entry: nat, m: Bytes)
    requires Packable(code, entry) && CommandFits(Pack(code, entry), 32)
    ensures Command(Pack(code, entry), 32, Loading(m, 0, 0, 0)) == Loading(Segment(m, BASE, |code|, code), BASE, BASE,
                    0)
  {
    PackText(code, entry);
    var d := Pack(code, entry);
    assert d[128..128 + |code|] == d[128..] == code;
    assert Wrap(BASE - BASE + BASE) == BASE;
    hide Num, Pack, Word, Segment, Wrap;
  }

  lemma {:induction false} MainEffect(code: seq<nat>, entry: nat, s: Loading)
    requires Packable(code, entry) && CommandFits(Pack(code, entry), 104)
    ensures Command(Pack(code, entry), 104, s) == s.(entry := Wrap(s.slide + entry))
  {
    hide Num, Pack, Word, Segment, Wrap, CommandFits, Octets;
    PackMain(code, entry);
    var d := Pack(code, entry);
    assert Word(d, 104, 4) == LC_MAIN && Word(d, 104 + 8, 8) == entry;
  }

  /** The code at its address, zeros to the rounded end, everything else as it was. */
  ghost predicate Loaded(m: Bytes, m': Bytes, code: seq<nat>) {
    var end := BASE + |code|;
    && (forall i :: 0 <= i < |code| ==> BASE + i in m' && m'[BASE + i] == code[i])
    && (forall a: nat :: end <= a < ExtraEnd(end) ==> a in m' && m'[a] == 0)
    && (forall a: nat :: a < BASE || ExtraEnd(end) <= a ==> (a in m' <==> a in m) && (a in m ==> m'[a] == m[a]))
  }

  lemma ExtraFacts(end: nat)
    requires end + 0x1BFFF < W64
    ensures end + 0x1B000 <= ExtraEnd(end) <= end + 0x1BFFF && ExtraEnd(end) % 0x1000 == 0
  {
  }

  lemma SegmentLoaded(code: seq<nat>, m: Bytes)
    requires 0 < |code| < 0x1_0000_0000 - 128
    ensures Loaded(m, Segment(m, BASE, |code|, code), code)
  {
    ExtraFacts(BASE + |code|);
    hide ExtraEnd, Overlay, ZeroBytes;
  }

  /** Loading what was packed leaves the code in place and returns its entry point. */
  method PackThenLoad(ram: Ram, code: seq<nat>, entry: nat) returns (e: nat)
    requires Packable(code, entry)
    modifies ram
    ensures e == Wrap(BASE + entry) && Loaded(old(ram.bytes), ram.bytes, code)
  {
    PackFits(code, entry);
    PackedCommands(code, entry, ram.bytes);
    PackHeader(code, entry);
    PackOctets(code, entry);
    SegmentLoaded(code, ram.bytes);
    hide Num, Pack, Word, Segment, Loaded, Fits, Commands;
    e := Load(ram, Pack(code, entry));
  }

  lemma PackOctets(code: seq<nat>, entry: nat)
    requires Octets(code)
    ensures Octets(Pack(code, entry))
  {
    hide Header, TextCommand, MainCommand;
  }
}
