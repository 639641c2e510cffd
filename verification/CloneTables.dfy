/** Cloning the identity-mapped tables for a new address space, and why work on the clone
    below 1 GB cannot be seen through the original. */
module CloneTables {
  import opened Options
  import opened Arithmetic
  import opened Frames
  import opened Tiling
  import opened Buddy
  import BuddyState
  import opened Paging
  import opened PagingEdits
  import opened PageTables

  const GIGABYTE: nat := 0x4000_0000

  /** 2 MB entries without their U/S bit; everything else absent. */
  function ClonePd(words: seq<nat>): (s: seq<nat>)
    requires |words| == 512
    ensures |s| == 512
  {
    seq(512, i requires 0 <= i < 512 => if Huge(words[i]) then ClearUser(words[i]) else 0)
  }

  /** A top-level table whose first entry leads to `t`. */
  function CloneTop(words: seq<nat>, t: nat): (s: seq<nat>)
    requires |words| == 512
    ensures |s| == 512
  {
    Stored(words, 0, TableWord(t))
  }

  /** The directory that maps the first gigabyte. */
  ghost predicate LowTables(mem: Mem, lv: map<nat, nat>, root: nat, pdp: nat, pd: nat) {
    && Leveled(mem, lv) && root in mem && lv[root] == 4
    && Present(mem[root][0]) && pdp == FrameBits(mem[root][0])
    && pdp in mem && lv[pdp] == 3
    && Present(mem[pdp][0]) && pd == FrameBits(mem[pdp][0])
    && pd in mem && lv[pd] == 2
  }

  ghost predicate FreshTables(mem: Mem, a: nat, b: nat, c: nat) {
    && a !in mem && b !in mem && c !in mem && a != b && b != c && a != c
    && PageAligned(a) && PageAligned(b) && PageAligned(c)
  }

  ghost function Cloned(mem: Mem, root: nat, pdp: nat, pd: nat, root': nat, pdp': nat, pd': nat): Mem
    requires IsTable(mem, root) && IsTable(mem, pdp) && IsTable(mem, pd)
  {
    mem[pd' := ClonePd(mem[pd])][pdp' := CloneTop(mem[pdp], pd')][root' := CloneTop(mem[root], pdp')]
  }

  ghost function ClonedLevels(lv: map<nat, nat>, root': nat, pdp': nat, pd': nat): map<nat, nat> {
    lv[pd' := 2][pdp' := 3][root' := 4]
  }

  lemma {:induction false} CloneLeveled(mem: Mem, lv: map<nat, nat>, root: nat, pdp: nat, pd: nat, root': nat,
                                        pdp': nat, pd': nat)
    requires LowTables(mem, lv, root, pdp, pd) && FreshTables(mem, root', pdp', pd')
    ensures Leveled(Cloned(mem, root, pdp, pd, root', pdp', pd'), ClonedLevels(lv, root', pdp', pd'))
  {
    var mem', lv' := Cloned(mem, root, pdp, pd, root', pdp', pd'), ClonedLevels(lv, root', pdp', pd');
    TableWordFacts(pd');
    TableWordFacts(pdp');
    forall t, i | t in mem' && 0 <= i < 512 ensures EntryOk(lv', lv'[t], mem'[t][i]) {
      if t == pd' {
        ClearUserFacts(mem[pd][i]);
      } else if t == pdp' {
        assert EntryOk(lv, 3, mem[pdp][i]);
      } else if t == root' {
        assert EntryOk(lv, 4, mem[root][i]);
      } else {
        assert EntryOk(lv, lv[t], mem[t][i]);
      }
    }
  }

  lemma LowIndex(va: nat)
    requires va < VA_LIMIT
    ensures va < GIGABYTE <==> Index(va, 4) == 0 && Index(va, 3) == 0
  {
  }

  /** Cloning leaves every old table as it was. */
  lemma CloneKeeps(mem: Mem, lv: map<nat, nat>, root: nat, pdp: nat, pd: nat, root': nat, pdp': nat, pd': nat, t: nat,
                   va: nat)
    requires LowTables(mem, lv, root, pdp, pd) && FreshTables(mem, root', pdp', pd') && t in mem
    ensures var mem' := Cloned(mem, root, pdp, pd, root', pdp', pd');
            && Walk(mem', t, lv[t], va) == Walk(mem, t, lv[t], va)
            && Reads(mem', t, lv[t], va) == Reads(mem, t, lv[t], va)
            && forall k :: Reach(mem', t, lv[t], va, k) == Reach(mem, t, lv[t], va, k)
  {
    var mem' := Cloned(mem, root, pdp, pd, root', pdp', pd');
    forall x | x in Reads(mem, t, lv[t], va) ensures Agree(mem, mem', x) {
      ReadsHits(mem, lv, t, lv[t], va, x.0, x.1);
    }
    WalkFrame(mem, mem', lv, t, lv[t], va);
  }

  /** Below 1 GB the clone sees the original's 2 MB pages without the U/S right and
      nothing else; R/W and NX are those of the directory entry itself. */
  lemma {:induction false} CloneTranslation(mem: Mem, lv: map<nat, nat>, root: nat, pdp: nat, pd: nat, root': nat,
                                            pdp': nat, pd': nat, va: nat)
    requires LowTables(mem, lv, root, pdp, pd) && FreshTables(mem, root', pdp', pd') && va < GIGABYTE
    ensures var w := mem[pd][Index(va, 2)];
            var upper := Both(RightsOf(mem[root][0]), RightsOf(mem[pdp][0]));
            var c := Walk(Cloned(mem, root, pdp, pd, root', pdp', pd'), root', 4, va);
            && (Present(w) && Huge(w) ==>
                  && c == Leaf(w, 2, va).(us := false)
                  && Walk(mem, root, 4, va) == Through(upper, Leaf(w, 2, va)))
            && (!(Present(w) && Huge(w)) ==> c == Unmapped)
  {
    var mem', lv' := Cloned(mem, root, pdp, pd, root', pdp', pd'), ClonedLevels(lv, root', pdp', pd');
    LowIndex(va);
    var i := Index(va, 2);
    var w := mem[pd][i];
    TableWordFacts(pd');
    TableWordFacts(pdp');
    ClearUserFacts(w);
    assert Entry(mem', root', 4, va) == TableWord(pdp');
    assert Entry(mem', pdp', 3, va) == TableWord(pd');
    assert Entry(mem', pd', 2, va) == if Huge(w) then ClearUser(w) else 0;
    assert Walk(mem', root', 4, va) == Walk(mem', pdp', 3, va) == Walk(mem', pd', 2, va) by {
      ThroughAll(Walk(mem', pdp', 3, va));
      ThroughAll(Walk(mem', pd', 2, va));
    }
    assert Entry(mem, root, 4, va) == mem[root][0] && Entry(mem, pdp, 3, va) == mem[pdp][0];
    ThroughBoth(RightsOf(mem[root][0]), RightsOf(mem[pdp][0]), Walk(mem, pd, 2, va));
  }

  lemma {:induction false} CloneHigh(mem: Mem, lv: map<nat, nat>, root: nat, pdp: nat, pd: nat, root': nat, pdp': nat,
                                     pd': nat, va: nat)
    requires LowTables(mem, lv, root, pdp, pd) && FreshTables(mem, root', pdp', pd') && GIGABYTE <= va < VA_LIMIT
    ensures HighView(mem, root, Walk(mem, root, 4, va),
                     Walk(Cloned(mem, root, pdp, pd, root', pdp', pd'), root', 4, va), va)
  {
    var mem' := Cloned(mem, root, pdp, pd, root', pdp', pd');
    LowIndex(va);
    TableWordFacts(pdp');
    if Index(va, 4) != 0 {
      TailWalk(mem, lv, root, pdp, pd, root', pdp', pd', root, 4, va);
      assert Entry(mem', root', 4, va) == Entry(mem, root, 4, va);
    } else {
      TailWalk(mem, lv, root, pdp, pd, root', pdp', pd', pdp, 3, va);
      hide FrameBits, RightsOf, TableWord, Present, Huge;
      assert Entry(mem', root', 4, va) == TableWord(pdp') && Entry(mem, root, 4, va) == mem[root][0];
      assert Entry(mem', pdp', 3, va) == Entry(mem, pdp, 3, va);
      assert Walk(mem', pdp', 3, va) == Walk(mem, pdp, 3, va);
      ThroughAll(Walk(mem', pdp', 3, va));
      assert Reach(mem, root, 4, va, 3) == Some((pdp, Both(RightsOf(mem[root][0]), Rights(true, true, false))));
    }
  }

  /** Past an entry copied from old table `t`, the clone translates as the original does. */
  lemma {:induction false} TailWalk(mem: Mem, lv: map<nat, nat>, root: nat, pdp: nat, pd: nat, root': nat, pdp': nat,
                                    pd': nat, t: nat, l: nat, va: nat)
    requires LowTables(mem, lv, root, pdp, pd) && FreshTables(mem, root', pdp', pd') && t in mem && lv[t] == l >= 3
    ensures var mem' := Cloned(mem, root, pdp, pd, root', pdp', pd');
            var w := Entry(mem, t, l, va);
            Descends(w, l) ==> Walk(mem', FrameBits(w), l - 1, va) == Walk(mem, FrameBits(w), l - 1, va)
  {
    var w := Entry(mem, t, l, va);
    assert EntryOk(lv, l, w);
    if Descends(w, l) { CloneKeeps(mem, lv, root, pdp, pd, root', pdp', pd', FrameBits(w), va); }
  }

  /** Nothing above the clone's directory takes a right. */
  lemma {:induction false} CloneOpen(mem: Mem, lv: map<nat, nat>, root: nat, pdp: nat, pd: nat, root': nat, pdp': nat,
                                     pd': nat, va: nat)
    requires LowTables(mem, lv, root, pdp, pd) && FreshTables(mem, root', pdp', pd') && va < GIGABYTE
    ensures Reach(Cloned(mem, root, pdp, pd, root', pdp', pd'), root', 4, va, 2) ==
            Some((pd', Rights(true, true, false)))
  {
    var mem' := Cloned(mem, root, pdp, pd, root', pdp', pd');
    LowIndex(va);
    TableWordFacts(pdp');
    TableWordFacts(pd');
    hide FrameBits, RightsOf, TableWord, Present, Huge;
    assert Entry(mem', root', 4, va) == TableWord(pdp') && Entry(mem', pdp', 3, va) == TableWord(pd');
    assert IsTable(mem', root') && IsTable(mem', pdp') && IsTable(mem', pd');
  }

  lemma ThroughAll(m: Mapping)
    ensures Through(Rights(true, true, false), m) == m
  {
  }

  lemma ThroughBoth(a: Rights, b: Rights, m: Mapping)
    ensures Through(a, Through(b, m)) == Through(Both(a, b), m)
  {
  }

  /** The clone's tables are the three new ones or tables the original reaches at the
      same addresses. */
  lemma {:induction false} CloneReach(mem: Mem, lv: map<nat, nat>, root: nat, pdp: nat, pd: nat, root': nat, pdp': nat,
                                      pd': nat, va: nat, k: nat)
    requires LowTables(mem, lv, root, pdp, pd) && FreshTables(mem, root', pdp', pd') && va < VA_LIMIT && 1 <= k <= 4
    ensures var x := Reach(Cloned(mem, root, pdp, pd, root', pdp', pd'), root', 4, va, k);
            x.Some? ==>
              || (k == 4 && x.value.0 == root')
              || (k == 3 && x.value.0 == pdp' && Index(va, 4) == 0)
              || (k == 2 && x.value.0 == pd' && va < GIGABYTE)
              || (x.value.0 in mem && Reach(mem, root, 4, va, k).Some? &&
                  Reach(mem, root, 4, va, k).value.0 == x.value.0)
  {
    var mem' := Cloned(mem, root, pdp, pd, root', pdp', pd');
    TableWordFacts(pd');
    TableWordFacts(pdp');
    LowIndex(va);
    ReachOld(mem, lv, root, 4, va, k);
    if Index(va, 4) != 0 {
      TailReach(mem, lv, root, pdp, pd, root', pdp', pd', root, 4, va, k);
    } else if Index(va, 3) != 0 {
      assert Entry(mem', root', 4, va) == TableWord(pdp');
      TailReach(mem, lv, root, pdp, pd, root', pdp', pd', pdp, 3, va, k);
    } else {
      assert Entry(mem', root', 4, va) == TableWord(pdp') && Entry(mem', pdp', 3, va) == TableWord(pd');
      ClearUserFacts(mem[pd][Index(va, 2)]);
    }
  }

  /** Past an entry copied from old table `t`, the clone reaches what the original does. */
  lemma {:induction false} TailReach(mem: Mem, lv: map<nat, nat>, root: nat, pdp: nat, pd: nat, root': nat, pdp': nat,
                                     pd': nat, t: nat, l: nat, va: nat, k: nat)
    requires LowTables(mem, lv, root, pdp, pd) && FreshTables(mem, root', pdp', pd') && t in mem && lv[t] == l >= 3
    ensures var mem' := Cloned(mem, root, pdp, pd, root', pdp', pd');
            var w := Entry(mem, t, l, va);
            Descends(w, l) ==>
              && FrameBits(w) in mem
              && Reach(mem', FrameBits(w), l - 1, va, k) == Reach(mem, FrameBits(w), l - 1, va, k)
  {
    var w := Entry(mem, t, l, va);
    assert EntryOk(lv, l, w);
    if Descends(w, l) {
      CloneKeeps(mem, lv, root, pdp, pd, root', pdp', pd', FrameBits(w), va);
    }
  }

  lemma CloneTree(mem: Mem, lv: map<nat, nat>, root: nat, pdp: nat, pd: nat, root': nat, pdp': nat, pd': nat)
    requires LowTables(mem, lv, root, pdp, pd) && FreshTables(mem, root', pdp', pd') && Tree(mem, root)
    ensures Tree(Cloned(mem, root, pdp, pd, root', pdp', pd'), root')
  {
    var mem' := Cloned(mem, root, pdp, pd, root', pdp', pd');
    forall k: nat, a: nat, b: nat | SameTable(mem', root', k, a, b) && a < VA_LIMIT && b < VA_LIMIT
      ensures a / Span(k + 1) == b / Span(k + 1)
    {
      CloneSame(mem, lv, root, pdp, pd, root', pdp', pd', k, a, b);
    }
  }

  lemma CloneSame(mem: Mem, lv: map<nat, nat>, root: nat, pdp: nat, pd: nat, root': nat, pdp': nat, pd': nat, k: nat,
                  a: nat, b: nat)
    requires LowTables(mem, lv, root, pdp, pd) && FreshTables(mem, root', pdp', pd') && Tree(mem, root)
    requires SameTable(Cloned(mem, root, pdp, pd, root', pdp', pd'), root', k, a, b) && a < VA_LIMIT && b < VA_LIMIT
    ensures a / Span(k + 1) == b / Span(k + 1)
  {
    var mem' := Cloned(mem, root, pdp, pd, root', pdp', pd');
    hide Reach, Leveled;
    CloneReach(mem, lv, root, pdp, pd, root', pdp', pd', a, k);
    CloneReach(mem, lv, root, pdp, pd, root', pdp', pd', b, k);
    if Reach(mem', root', 4, a, k).value.0 in mem {
      assert SameTable(mem, root, k, a, b);
    } else {
      SmallPrefix(a, k);
      SmallPrefix(b, k);
    }
  }

  lemma SmallPrefix(a: nat, k: nat)
    requires a < VA_LIMIT && 2 <= k <= 4 && (k == 3 ==> Index(a, 4) == 0) && (k == 2 ==> a < GIGABYTE)
    ensures a / Span(k + 1) == 0
  {
  }

  // ---- isolation -----------------------------------------------------------------------------

  /** The tables that translate addresses below 1 GB through `root` all belong to `priv`. */
  ghost predicate Private(mem: Mem, lv: map<nat, nat>, root: nat, pdp: nat, pd: nat, priv: set<nat>) {
    && LowTables(mem, lv, root, pdp, pd)
    && root in priv && pdp in priv && pd in priv && priv <= mem.Keys
    && forall j :: 0 <= j < 512 && Descends(mem[pd][j], 2) ==> FrameBits(mem[pd][j]) in priv
  }

  /** No translation through `root` reads a table in `priv`. */
  ghost predicate Unseen(mem: Mem, lv: map<nat, nat>, root: nat, priv: set<nat>) {
    && root in mem && root in lv && lv[root] == 4
    && forall va: nat, x :: x in Reads(mem, root, 4, va) ==> x.0 !in priv
  }

  lemma LowReach(mem: Mem, lv: map<nat, nat>, root: nat, pdp: nat, pd: nat, va: nat)
    requires LowTables(mem, lv, root, pdp, pd) && va < GIGABYTE
    ensures Reach(mem, root, 4, va, 2).Some? && Reach(mem, root, 4, va, 2).value.0 == pd
  {
    LowIndex(va);
    assert Entry(mem, root, 4, va) == mem[root][0] && Entry(mem, pdp, 3, va) == mem[pdp][0];
  }

  /** An operation local to a private directory entry leaves every translation through an
      unrelated root as it was, and the tables stay apart. */
  lemma {:induction false} LocalIsolated(mem: Mem, lv: map<nat, nat>, mem': Mem, lv': map<nat, nat>, root: nat,
                                         pdp: nat, pd: nat, priv: set<nat>, other: nat, va: nat)
    requires Private(mem, lv, root, pdp, pd, priv) && Unseen(mem, lv, other, priv) && va < GIGABYTE
    requires LocalTo(mem, mem', root, va) && Leveled(mem', lv')
    requires forall t :: t in mem ==> t in lv' && lv'[t] == lv[t]
    ensures forall a: nat :: Walk(mem', other, 4, a) == Walk(mem, other, 4, a)
    ensures var priv' := priv + (mem'.Keys - mem.Keys);
            Private(mem', lv', root, pdp, pd, priv') && Unseen(mem', lv', other, priv')
  {
    LowReach(mem, lv, root, pdp, pd, va);
    var priv' := priv + (mem'.Keys - mem.Keys);
    forall t | t in mem && t !in priv ensures t in mem' && mem'[t] == mem[t] { }
    forall a: nat
      ensures Walk(mem', other, 4, a) == Walk(mem, other, 4, a)
      ensures forall x :: x in Reads(mem', other, 4, a) ==> x.0 !in priv'
    {
      UnseenFrame(mem, mem', lv, other, priv, a);
    }
    PrivateKept(mem, lv, mem', lv', root, pdp, pd, priv, va);
  }

  lemma UnseenFrame(mem: Mem, mem': Mem, lv: map<nat, nat>, other: nat, priv: set<nat>, a: nat)
    requires Leveled(mem, lv) && Unseen(mem, lv, other, priv)
    requires forall t :: t in mem && t !in priv ==> t in mem' && mem'[t] == mem[t]
    ensures Walk(mem', other, 4, a) == Walk(mem, other, 4, a)
    ensures forall x :: x in Reads(mem', other, 4, a) ==> x.0 !in priv + (mem'.Keys - mem.Keys)
  {
    forall x | x in Reads(mem, other, 4, a) ensures Agree(mem, mem', x) && x.0 in mem {
      ReadsHits(mem, lv, other, 4, a, x.0, x.1);
    }
    WalkFrame(mem, mem', lv, other, 4, a);
  }

  lemma {:induction false} PrivateKept(mem: Mem, lv: map<nat, nat>, mem': Mem, lv': map<nat, nat>, root: nat, pdp: nat,
                                       pd: nat, priv: set<nat>, va: nat)
    requires Private(mem, lv, root, pdp, pd, priv) && va < GIGABYTE
    requires Reach(mem, root, 4, va, 2).Some? && Reach(mem, root, 4, va, 2).value.0 == pd
    requires LocalTo(mem, mem', root, va) && Leveled(mem', lv')
    requires forall t :: t in mem ==> t in lv' && lv'[t] == lv[t]
    ensures Private(mem', lv', root, pdp, pd, priv + (mem'.Keys - mem.Keys))
  {
    assert EntryOk(lv, 2, mem[pd][Index(va, 2)]);
    assert mem'[root] == mem[root] && mem'[pdp] == mem[pdp];
    forall j | 0 <= j < 512 && Descends(mem'[pd][j], 2)
      ensures FrameBits(mem'[pd][j]) in priv + (mem'.Keys - mem.Keys)
    {
      assert NoNewLink(mem, mem[pd][j], mem'[pd][j]);
      assert EntryOk(lv', 2, mem'[pd][j]);
    }
  }

  // ---- the routines ------------------------------------------------------------------------------

  method CopyPd(words: seq<nat>) returns (out: seq<nat>)
    requires |words| == 512
    ensures out == ClonePd(words)
  {
    var t := new nat[512];
    for i := 0 to 512
      invariant forall j :: 0 <= j < i ==> t[j] == if Huge(words[j]) then ClearUser(words[j]) else 0
    {
      t[i] := if Huge(words[i]) then ClearUser(words[i]) else 0;
    }
    out := t[..];
  }

  method CopyTop(words: seq<nat>, first: nat) returns (out: seq<nat>)
    requires |words| == 512
    ensures out == CloneTop(words, first)
  {
    var t := new nat[512];
    t[0] := TableWord(first);
    for i := 1 to 512
      invariant t[0] == TableWord(first) && forall j :: 1 <= j < i ==> t[j] == words[j]
    {
      t[i] := words[i];
    }
    out := t[..];
  }

  /** Three fresh tables give a new root; nothing changes through any old table. */
  method CloneIdentity(m: PageMemory, cur: nat) returns (root: nat, ghost pdp: nat, ghost pd: nat)
    requires m.Valid() && m.Root(cur) && Tree(m.tables, cur)
    requires Present(m.tables[cur][0]) && Present(m.tables[FrameBits(m.tables[cur][0])][0])
    modifies m.Repr()
    ensures m.Valid()
    ensures root == 0 ==> m.tables == old(m.tables) && m.level == old(m.level) && m.NoFrame()
    ensures root != 0 ==> ClonedFrom(old(m.tables), old(m.level), m.tables, m.level, cur, root, pdp, pd)
  {
    hide BuddyState.Inv, NoHand, Reach, Walk, Tree, Leveled, LowTables, FreshTables, ClonedFrom, RunAvailable;
    pdp, pd := 0, 0;
    var ok, root', pdp', pd' := ThreePages(m);
    if !ok { return 0, 0, 0; }
    OldLow(m.tables, m.level, cur);
    var oldPdp := Ptr(m.tables[cur][0]);
    var oldPd := Ptr(m.tables[oldPdp][0]);
    ghost var mem, lv := m.tables, m.level;
    CloneAll(mem, lv, cur, oldPdp, oldPd, root', pdp', pd');
    CloneLeveled(mem, lv, cur, oldPdp, oldPd, root', pdp', pd');
    var pdWords := CopyPd(m.tables[oldPd]);
    var pdpWords := CopyTop(m.tables[oldPdp], pd');
    var rootWords := CopyTop(m.tables[cur], pdp');
    m.tables := m.tables[pd' := pdWords][pdp' := pdpWords][root' := rootWords];
    m.level := ClonedLevels(lv, root', pdp', pd');
    root, pdp, pd := root', pdp', pd';
  }

  /** Pages for the directory, the directory-pointer table and the root, in that order. */
  method ThreePages(m: PageMemory) returns (ok: bool, root: nat, pdp: nat, pd: nat)
    requires m.Valid()
    modifies m.buddy.Repr()
    ensures m.Valid() && (!ok ==> m.NoFrame())
    ensures ok ==> FreshTables(m.tables, root, pdp, pd) && root != 0
    ensures ok ==> HeapPage(root) && HeapPage(pdp) && HeapPage(pd)
    ensures ok ==> {FrameOf(root), FrameOf(pdp), FrameOf(pd)} <= m.buddy.Live().Keys
  {
    hide BuddyState.Inv, NoHand, Leveled, RunAvailable;
    ok, root, pdp := false, 0, 0;
    pd := m.NewPage();
    if pd == 0 { return; }
    pdp := m.NewPage();
    if pdp == 0 { return; }
    root := m.NewPage();
    ok := root != 0;
  }

  /** What the caller gets: the clone's view below 1 GB, tables of its own for it, and all
      old translations as they were. */
  ghost predicate ClonedFrom(mem: Mem, lv: map<nat, nat>, mem': Mem, lv': map<nat, nat>, cur: nat, root: nat, pdp: nat,
                             pd: nat)
  {
    && cur in mem && cur in lv && SameMeaning(mem, lv, mem', lv') && Tree(mem', root)
    && Private(mem', lv', root, pdp, pd, {root, pdp, pd})
    && Unseen(mem', lv', cur, {root, pdp, pd})
    && CloneViews(mem, mem', cur, root, pd)
  }

  ghost predicate CloneViews(mem: Mem, mem': Mem, cur: nat, root: nat, pd: nat) {
    && (forall va: nat :: va < GIGABYTE ==> CloneView(mem, cur, Walk(mem, cur, 4, va), Walk(mem', root, 4, va), va))
    && (forall va: nat :: va < GIGABYTE ==> Reach(mem', root, 4, va, 2) == Some((pd, Rights(true, true, false))))
    && forall va: nat :: GIGABYTE <= va < VA_LIMIT ==>
         HighView(mem, cur, Walk(mem, cur, 4, va), Walk(mem', root, 4, va), va)
  }

  /** Through the clone: the 2 MB page the original maps, with the directory entry's own rights minus U/S;
      otherwise nothing. */
  ghost predicate CloneView(mem: Mem, cur: nat, m: Mapping, c: Mapping, va: nat) {
    if HugeEntry(mem, cur, va) && m.Mapped? then
      var w := Entry(mem, Reach(mem, cur, 4, va, 2).value.0, 2, va);
      c == Mapped(m.pa, Writable(w), false, NoExec(w))
    else c == Unmapped
  }

  /** From 1 GB on the clone shares the original's tables: it sees what the original sees, in the first 512 GB
      without the limits of the top-level entry. */
  ghost predicate HighView(mem: Mem, cur: nat, m: Mapping, c: Mapping, va: nat) {
    if Index(va, 4) != 0 then c == m
    else Reach(mem, cur, 4, va, 3).Some? && m == Through(Reach(mem, cur, 4, va, 3).value.1, c)
  }

  lemma OldLow(mem: Mem, lv: map<nat, nat>, cur: nat)
    requires Leveled(mem, lv) && cur in mem && lv[cur] == 4 && Present(mem[cur][0])
    requires FrameBits(mem[cur][0]) in mem ==> Present(mem[FrameBits(mem[cur][0])][0])
    ensures var pdp := Ptr(mem[cur][0]);
            && IsTable(mem, pdp) && IsTable(mem, cur)
            && var pd := Ptr(mem[pdp][0]);
            IsTable(mem, pd) && LowTables(mem, lv, cur, pdp, pd)
  {
    assert EntryOk(lv, 4, mem[cur][0]);
    PtrIsFrame(mem[cur][0]);
    var pdp := Ptr(mem[cur][0]);
    assert EntryOk(lv, 3, mem[pdp][0]);
    PtrIsFrame(mem[pdp][0]);
  }

  lemma {:induction false} CloneAll(mem: Mem, lv: map<nat, nat>, cur: nat, pdp: nat, pd: nat, root': nat, pdp': nat,
                                    pd': nat)
    requires LowTables(mem, lv, cur, pdp, pd) && FreshTables(mem, root', pdp', pd') && Tree(mem, cur)
    ensures ClonedFrom(mem, lv, Cloned(mem, cur, pdp, pd, root', pdp', pd'), ClonedLevels(lv, root', pdp', pd'), cur,
                       root', pdp', pd')
  {
    var mem', lv' := Cloned(mem, cur, pdp, pd, root', pdp', pd'), ClonedLevels(lv, root', pdp', pd');
    forall t, va: nat | t in mem
      ensures Walk(mem', t, lv[t], va) == Walk(mem, t, lv[t], va)
      ensures Reads(mem', t, lv[t], va) == Reads(mem, t, lv[t], va)
    {
      CloneKeeps(mem, lv, cur, pdp, pd, root', pdp', pd', t, va);
    }
    CloneTree(mem, lv, cur, pdp, pd, root', pdp', pd');
    ClonePrivate(mem, lv, cur, pdp, pd, root', pdp', pd');
    forall va: nat, x | x in Reads(mem', cur, 4, va) ensures x.0 !in {root', pdp', pd'} {
      assert x in Reads(mem, cur, 4, va);
      ReadsHits(mem, lv, cur, 4, va, x.0, x.1);
    }
    CloneSeen(mem, lv, cur, pdp, pd, root', pdp', pd');
  }

  lemma {:induction false} CloneSeen(mem: Mem, lv: map<nat, nat>, cur: nat, pdp: nat, pd: nat, root': nat, pdp': nat,
                                     pd': nat)
    requires LowTables(mem, lv, cur, pdp, pd) && FreshTables(mem, root', pdp', pd')
    ensures CloneViews(mem, Cloned(mem, cur, pdp, pd, root', pdp', pd'), cur, root', pd')
  {
    var mem' := Cloned(mem, cur, pdp, pd, root', pdp', pd');
    hide Walk, Cloned, FreshTables, HighView;
    forall va: nat | va < GIGABYTE ensures CloneView(mem, cur, Walk(mem, cur, 4, va), Walk(mem', root', 4, va), va) {
      CloneTranslation(mem, lv, cur, pdp, pd, root', pdp', pd', va);
      LowRights(mem, lv, cur, pdp, pd, va);
    }
    forall va: nat | va < GIGABYTE ensures Reach(mem', root', 4, va, 2) == Some((pd', Rights(true, true, false))) {
      CloneOpen(mem, lv, cur, pdp, pd, root', pdp', pd', va);
    }
    forall va: nat | GIGABYTE <= va < VA_LIMIT
      ensures HighView(mem, cur, Walk(mem, cur, 4, va), Walk(mem', root', 4, va), va)
    {
      CloneHigh(mem, lv, cur, pdp, pd, root', pdp', pd', va);
    }
  }

  lemma LowRights(mem: Mem, lv: map<nat, nat>, root: nat, pdp: nat, pd: nat, va: nat)
    requires LowTables(mem, lv, root, pdp, pd) && va < GIGABYTE
    ensures Reach(mem, root, 4, va, 2) == Some((pd, Both(RightsOf(mem[root][0]), RightsOf(mem[pdp][0]))))
    ensures Walk(mem, root, 4, va).Mapped? && HugeEntry(mem, root, va) ==> Present(mem[pd][Index(va, 2)])
  {
    LowIndex(va);
    assert Entry(mem, root, 4, va) == mem[root][0] && Entry(mem, pdp, 3, va) == mem[pdp][0];
    WalkVia(mem, lv, root, 4, va, 2);
  }

  lemma {:induction false} ClonePrivate(mem: Mem, lv: map<nat, nat>, cur: nat, pdp: nat, pd: nat, root': nat, pdp': nat,
                                        pd': nat)
    requires LowTables(mem, lv, cur, pdp, pd) && FreshTables(mem, root', pdp', pd')
    ensures Private(Cloned(mem, cur, pdp, pd, root', pdp', pd'), ClonedLevels(lv, root', pdp', pd'), root', pdp', pd',
                    {root', pdp', pd'})
  {
    var mem' := Cloned(mem, cur, pdp, pd, root', pdp', pd');
    CloneLeveled(mem, lv, cur, pdp, pd, root', pdp', pd');
    TableWordFacts(pd');
    TableWordFacts(pdp');
    forall j | 0 <= j < 512 ensures !Descends(mem'[pd'][j], 2) {
      ClearUserFacts(mem[pd][j]);
    }
  }

  datatype CloneOp = MapHuge(va: nat, phys: nat) | OpenHuge(va: nat) | SplitHuge(va: nat) | OpenPage(va: nat)

  ghost predicate LowOp(op: CloneOp) {
    op.va < GIGABYTE && (op.MapHuge? ==> op.phys < 0x10_0000_0000_0000)
  }

  /** Any sequence of operations on the clone below 1 GB: no translation through the
      original changes. */
  method RunOnClone(m: PageMemory, cur: nat, root: nat, ghost pdp: nat, ghost pd: nat, ops: seq<CloneOp>)
    requires m.Valid() && m.Root(root) && Tree(m.tables, root)
    requires Private(m.tables, m.level, root, pdp, pd, {root, pdp, pd})
    requires Unseen(m.tables, m.level, cur, {root, pdp, pd})
    requires forall i :: 0 <= i < |ops| ==> LowOp(ops[i])
    modifies m.Repr()
    ensures m.Valid()
    ensures forall va: nat :: Walk(m.tables, cur, 4, va) == old(Walk(m.tables, cur, 4, va))
  {
    hide BuddyState.Inv, NoHand, Reach, Walk, Tree, Private, Unseen, Leveled, LocalTo;
    ghost var priv := {root, pdp, pd};
    for i := 0 to |ops|
      invariant m.Valid() && m.Root(root) && Tree(m.tables, root)
      invariant Private(m.tables, m.level, root, pdp, pd, priv) && Unseen(m.tables, m.level, cur, priv)
      invariant forall va: nat :: Walk(m.tables, cur, 4, va) == old(Walk(m.tables, cur, 4, va))
    {
      priv := CloneStep(m, cur, root, pdp, pd, ops[i], priv);
    }
  }

  method CloneStep(m: PageMemory, cur: nat, root: nat, ghost pdp: nat, ghost pd: nat, op: CloneOp, ghost priv: set<nat>)
      returns (ghost priv': set<nat>)
    requires m.Valid() && m.Root(root) && Tree(m.tables, root) && LowOp(op)
    requires Private(m.tables, m.level, root, pdp, pd, priv) && Unseen(m.tables, m.level, cur, priv)
    modifies m.Repr()
    ensures m.Valid() && m.Root(root) && Tree(m.tables, root)
    ensures Private(m.tables, m.level, root, pdp, pd, priv') && Unseen(m.tables, m.level, cur, priv')
    ensures forall va: nat :: Walk(m.tables, cur, 4, va) == old(Walk(m.tables, cur, 4, va))
  {
    hide BuddyState.Inv, NoHand, Reach, Walk, Tree, Private, Unseen, Leveled, LocalTo, SameMeaning, TreesKept;
    ghost var mem, lv := m.tables, m.level;
    match op {
      case MapHuge(va, phys) => var _ := m.Map2M(root, va, phys);
      case OpenHuge(va) => var _ := m.AddUser(root, va);
      case SplitHuge(va) =>
        var _ := m.SplitPde(root, va);
        Meaning(mem, lv, m.tables, m.level, root);
        MeaningLevels(mem, lv, m.tables, m.level);
      case OpenPage(va) => var _ := m.AddUser4K(root, va);
    }
    LevelKeys(mem, lv);
    LocalIsolated(mem, lv, m.tables, m.level, root, pdp, pd, priv, cur, op.va);
    priv' := priv + (m.tables.Keys - mem.Keys);
  }
}
