/** `fat32_walk` enters the directories of a path one by one; `fat32_read_file` reads the file at its end. */
module FatWalk {
  import opened Options
  import opened FatDisk
  import opened FatChains
  import opened FatSectors
  import opened FatVolume
  import opened FatDir
  import opened FatScan
  import opened FatFiles
  import opened FatReadWrite
  import opened FatMkdir

  const SLASH: nat := 0x2F

  // ---- paths -------------------------------------------------------------------------------------------------

  /** The first slash is at `p`; `p` is the length when there is none. */
  ghost predicate FirstAt(s: seq<nat>, p: nat) {
    p <= |s| && (p < |s| ==> s[p] == SLASH) && forall i :: 0 <= i < p ==> s[i] != SLASH
  }

  /** The last slash is at `p`; `p` is -1 when there is none. */
  ghost predicate LastAt(s: seq<nat>, p: int) {
    -1 <= p < |s| && (p >= 0 ==> s[p] == SLASH) && forall i :: p < i < |s| ==> s[i] != SLASH
  }

  ghost function NextSlash(s: seq<nat>): (p: nat)
    ensures p <= |s|
  {
    if s == [] || s[0] == SLASH then 0 else 1 + NextSlash(s[1..])
  }

  /** What lies between the slashes. */
  ghost function Split(s: seq<nat>): (r: seq<seq<nat>>)
    ensures 0 < |r| <= |s| + 1
  {
    var p := NextSlash(s);
    if p == |s| then [s] else [s[..p]] + Split(s[p + 1..])
  }

  lemma {:induction false} SlashAt(s: seq<nat>, p: nat)
    ensures NextSlash(s) == p <==> FirstAt(s, p)
    decreases |s|
  {
    if s != [] && s[0] != SLASH {
      if p > 0 {
        SlashAt(s[1..], p - 1);
        assert forall i :: 1 <= i < |s| ==> s[i] == s[1..][i - 1];
      }
    }
  }

  lemma {:induction false} SplitConcat(a: seq<nat>, b: seq<nat>)
    ensures Split(a + [SLASH] + b) == Split(a) + Split(b)
    decreases |a|
  {
    var s, p := a + [SLASH] + b, NextSlash(a);
    SlashAt(a, p);
    hide Split, NextSlash;
    SplitHead(s, p);
    SplitHead(a, p);
    if p == |a| {
      assert s[..p] == a && s[p + 1..] == b;
    } else {
      SplitConcat(a[p + 1..], b);
      assert s[..p] == a[..p] && s[p + 1..] == a[p + 1..] + [SLASH] + b;
    }
  }

  lemma {:induction false} SplitHead(s: seq<nat>, p: nat)
    requires FirstAt(s, p)
    ensures Split(s) == if p == |s| then [s] else [s[..p]] + Split(s[p + 1..])
  {
    SlashAt(s, p);
  }

  /** The last slash parts the directories from the name. */
  lemma {:induction false} SplitLast(s: seq<nat>, p: nat)
    requires LastAt(s, p) && p >= 0
    ensures Split(s) == Split(s[..p]) + [s[p + 1..]]
  {
    assert s == s[..p] + [SLASH] + s[p + 1..];
    SplitConcat(s[..p], s[p + 1..]);
    SplitHead(s[p + 1..], |s| - p - 1);
  }

  function Cut(s: seq<nat>, n: nat): seq<nat> { if |s| <= n then s else s[..n] }

  ghost predicate Absolute(path: seq<nat>) { path != [] && path[0] == SLASH }

  /** The components of a path, as far as the 512-byte copy of it goes. */
  ghost function Parts(path: seq<nat>): (r: seq<seq<nat>>)
    ensures 0 < |r| <= 512
  {
    var p := Cut(path, 511);
    Split(if Absolute(p) then p[1..] else p)
  }

  /** The name looked up in the end, as far as its 256-byte buffer goes. */
  ghost function BaseName(path: seq<nat>): seq<nat> { Cut(Parts(path)[|Parts(path)| - 1], 255) }

  // ---- directories -------------------------------------------------------------------------------------------

  /** A volume with the directories that are reachable on it, by their first clusters. */
  datatype Tree = Tree(g: Geo, d: Disk, chains: set<seq<nat>>, dirs: map<nat, seq<nat>>, root: nat)

  /** Directory `c` is mounted, and every folder in it is the root or another directory. */
  ghost predicate DirOk(t: Tree, c: nat)
    requires c in t.dirs
  {
    var dir := t.dirs[c];
    && Mounted(t.g, t.d, t.chains, dir) && |dir| > 0 && dir[0] == c
    && forall k :: 0 <= k < |DirSlots(t.g, t.d, dir)| ==> FolderIn(t, DirSlots(t.g, t.d, dir)[k])
  }

  ghost predicate FolderIn(t: Tree, e: Slot)
    requires |e| == 32
  {
    Live(e) && IsFolder(e) ==> FirstCluster(e) == 0 || FirstCluster(e) in t.dirs
  }

  ghost predicate TreeOk(t: Tree) { t.root in t.dirs && forall c :: c in t.dirs ==> DirOk(t, c) }

  ghost function SlotsAt(t: Tree, c: nat): (r: seq<Slot>)
    requires TreeOk(t) && c in t.dirs
    ensures IsDir(r)
  {
    assert DirOk(t, c);
    DirSlots(t.g, t.d, t.dirs[c])
  }

  /** Where `fat32_change_dir` goes from directory `c`. */
  ghost function Enter(t: Tree, c: nat, junk: seq<nat>, name: seq<nat>): (r: Option<nat>)
    requires TreeOk(t) && c in t.dirs && |junk| == LFN_BUFFER
    ensures r.Some? ==> r.value in t.dirs
  {
    var k := Lookup(SlotsAt(t, c), junk, name);
    if k == -1 || !IsFolder(SlotsAt(t, c)[k]) then None
    else
      EnteredIn(t, c, junk, name);
      Some(if FirstCluster(SlotsAt(t, c)[k]) == 0 then t.root else FirstCluster(SlotsAt(t, c)[k]))
  }

  lemma {:induction false} EnteredIn(t: Tree, c: nat, junk: seq<nat>, name: seq<nat>)
    requires TreeOk(t) && c in t.dirs && |junk| == LFN_BUFFER
    ensures var k := Lookup(SlotsAt(t, c), junk, name);
            k >= 0 ==> FolderIn(t, SlotsAt(t, c)[k]) && Live(SlotsAt(t, c)[k])
  {
    assert DirOk(t, c);
    SearchLive(SlotsAt(t, c), 0, Acc(junk, 0, 0), name);
    hide Search, DirSlots, FolderIn;
  }

  /** One name buffer for each component. */
  ghost predicate Buffers(junk: seq<seq<nat>>) {
    |junk| >= 512 && forall i :: 0 <= i < |junk| ==> |junk[i]| == LFN_BUFFER
  }

  /** Entering the components in turn; empty ones and `.` stay. */
  ghost function Descend(t: Tree, c: nat, parts: seq<seq<nat>>, junk: seq<seq<nat>>, i: nat): (r: Option<nat>)
    requires TreeOk(t) && c in t.dirs && Buffers(junk) && i + |parts| <= |junk|
    ensures r.Some? ==> r.value in t.dirs
    decreases |parts|
  {
    if parts == [] then Some(c)
    else
      var e := if parts[0] == [] || parts[0] == [DOT] then Some(c) else Enter(t, c, junk[i], parts[0]);
      if e.None? then None else Descend(t, e.value, parts[1..], junk, i + 1)
  }

  /** The directory a path's file is looked up in, if the path gets there and names a file. */
  ghost function Target(t: Tree, cwd: nat, path: seq<nat>, junk: seq<seq<nat>>): (r: Option<nat>)
    requires TreeOk(t) && cwd in t.dirs && Buffers(junk)
    ensures r.Some? ==> r.value in t.dirs
  {
    var n := |Parts(path)| - 1;
    if path == [] || Parts(path)[n] == [] then None
    else Descend(t, if Absolute(path) then t.root else cwd, Parts(path)[..n], junk, 0)
  }

  /** Going through `a` and then `b` is going through both. */
  lemma {:induction false} DescendConcat(t: Tree, c: nat, a: seq<seq<nat>>, b: seq<seq<nat>>, junk: seq<seq<nat>>,
                                         i: nat)
    requires TreeOk(t) && c in t.dirs && Buffers(junk) && i + |a| + |b| <= |junk|
    ensures var e := Descend(t, c, a, junk, i);
            Descend(t, c, a + b, junk, i) == if e.None? then None else Descend(t, e.value, b, junk, i + |a|)
    decreases |a|
  {
    hide TreeOk, Enter;
    if a == [] {
      assert a + b == b;
    } else {
      assert (a + b)[1..] == a[1..] + b && (a + b)[0] == a[0];
      var e := if a[0] == [] || a[0] == [DOT] then Some(c) else Enter(t, c, junk[i], a[0]);
      if e.Some? { DescendConcat(t, e.value, a[1..], b, junk, i + 1); }
    }
  }

  /** The path `p/q` leads where `q` leads from the directory `p` names. */
  lemma {:induction false} ThroughDirectory(t: Tree, cwd: nat, p: seq<nat>, q: seq<nat>, junk: seq<seq<nat>>)
    requires TreeOk(t) && cwd in t.dirs && Buffers(junk) && |p| + 1 + |q| <= 511 && p != [] && !Absolute(p)
    ensures var e, n := Descend(t, cwd, Split(p), junk, 0), |Split(q)| - 1;
            Target(t, cwd, p + [SLASH] + q, junk) ==
              if Split(q)[n] == [] || e.None? then None else Descend(t, e.value, Split(q)[..n], junk, |Split(p)|)
  {
    hide TreeOk, Descend, Split;
    var path, a, b := p + [SLASH] + q, Split(p), Split(q);
    SplitConcat(p, q);
    assert path[0] == p[0] && Parts(path) == a + b;
    assert (a + b)[..|a + b| - 1] == a + b[..|b| - 1];
    DescendConcat(t, cwd, a, b[..|b| - 1], junk, 0);
  }

  /** An absolute path leads to the same place from everywhere: where the rest of it leads from the root. */
  lemma {:induction false} FromTheRoot(t: Tree, cwd: nat, q: seq<nat>, junk: seq<seq<nat>>)
    requires TreeOk(t) && cwd in t.dirs && Buffers(junk) && 0 < |q| <= 510 && !Absolute(q)
    ensures t.root in t.dirs && Target(t, cwd, [SLASH] + q, junk) == Target(t, t.root, q, junk)
    ensures BaseName([SLASH] + q) == BaseName(q)
  {
    hide TreeOk, Descend, Split, Buffers;
    DirRoot(t);
    assert ([SLASH] + q)[1..] == q;
    assert Parts([SLASH] + q) == Parts(q);
  }

  /** The name at the end of a path, if it fits its buffer. */
  lemma {:induction false} NameAtEnd(p: seq<nat>, q: seq<nat>)
    requires |p| + 1 + |q| <= 511 && |q| <= 255 && SLASH !in q && p != []
    ensures BaseName(p + [SLASH] + q) == q && (q != [] ==> BaseName(q) == q)
  {
    hide Split;
    var path := p + [SLASH] + q;
    SplitHead(q, |q|);
    if Absolute(p) {
      assert path[1..] == p[1..] + [SLASH] + q;
      SplitConcat(p[1..], q);
    } else {
      assert path[0] == p[0];
      SplitConcat(p, q);
    }
  }

  /** A freshly formatted volume is a tree of one directory. */
  lemma {:induction false} FreshTree(g: Geo, d: Disk, root: nat)
    requires DiskOk(g, d) && 2 <= root < g.Limit() && Fat(g, d)[root] >= EOC
    requires forall n, i :: 0 <= n < |d| && InCluster(g, root, n) && 0 <= i < 512 ==> d[n][i] == 0
    ensures TreeOk(Tree(g, d, {[root]}, map[root := [root]], root))
  {
    FreshVolume(g, d, root);
    FreshSlots(g, d, root);
    hide DirSlots, DiskOk, Fat, IsFolder, FirstCluster, Mounted, InCluster;
  }

  // ---- the walk ----------------------------------------------------------------------------------------------

  /** Position of the last slash, or -1. */
  method LastSlash(s: seq<nat>) returns (p: int)
    ensures LastAt(s, p)
  {
    p := -1;
    var i := 0;
    while i < |s|
      invariant i <= |s| && -1 <= p < i && (p >= 0 ==> s[p] == SLASH) && forall j :: p < j < i ==> s[j] != SLASH
    {
      if s[i] == SLASH { p := i; }
      i := i + 1;
    }
  }

  method FindSlash(s: seq<nat>, w: nat) returns (n: nat)
    requires w <= |s|
    ensures w <= n <= |s| && n - w == NextSlash(s[w..])
  {
    n := w;
    while n < |s| && s[n] != SLASH
      invariant w <= n <= |s| && forall i :: w <= i < n ==> s[i] != SLASH
    {
      n := n + 1;
    }
    SlashAt(s[w..], n - w);
  }

  ghost predicate Holding(v: Volume, t: Tree)
    reads v
  {
    t.g == v.g && t.d == v.disk && TreeOk(t) && v.cwd in t.dirs
  }

  /** `fat32_change_dir` for a name without slashes. */
  method ChangeDir(v: Volume, name: seq<nat>, root: nat, junk: seq<nat>, ghost t: Tree) returns (ok: bool)
    requires Holding(v, t) && root == t.root && IsName(name) && |junk| == LFN_BUFFER
    modifies v`cwd
    ensures Holding(v, t)
    ensures Enter(t, old(v.cwd), junk, name) == if ok then Some(v.cwd) else None
  {
    ghost var c := v.cwd;
    DirFacts(t, c);
    EnteredIn(t, c, junk, name);
    hide TreeOk, DirSlots, Lookup, FirstCluster, IsFolder, IsChain, Fat, DiskOk;
    var sector, entry;
    ghost var k;
    sector, entry, k := FindEntry(v, v.cwd, name, junk, t.dirs[c]);
    if sector == -1 || !IsFolder(entry) { return false; }
    v.cwd := if FirstCluster(entry) == 0 then root else FirstCluster(entry);
    ok := true;
  }

  lemma {:induction false} DirFacts(t: Tree, c: nat)
    requires TreeOk(t) && c in t.dirs
    ensures var dir := t.dirs[c];
            && Mounted(t.g, t.d, t.chains, dir) && |dir| > 0 && dir[0] == c && IsChain(Fat(t.g, t.d), dir)
            && t.root in t.dirs && SlotsAt(t, c) == DirSlots(t.g, t.d, dir)
  {
    assert DirOk(t, c);
    hide DirSlots, IsChain, Fat, DiskOk, FolderIn;
  }

  /** Enters the directories of `s` in turn. */
  method EnterAll(v: Volume, s: seq<nat>, root: nat, junk: seq<seq<nat>>, ghost t: Tree) returns (ok: bool)
    requires Holding(v, t) && root == t.root && IsName(s) && Buffers(junk) && |s| < 512
    modifies v`cwd
    ensures Holding(v, t)
    ensures Descend(t, old(v.cwd), Split(s), junk, 0) == if ok then Some(v.cwd) else None
  {
    hide TreeOk, Enter, NextSlash, Split, Descend;
    var w, i := 0, 0;
    ghost var c := v.cwd;
    assert s[0..] == s;
    while w < |s|
      invariant w <= |s| && i <= w && Holding(v, t)
      invariant Descend(t, c, Split(s), junk, 0) == Descend(t, v.cwd, Split(s[w..]), junk, i)
      decreases |s| - w
    {
      var n := FindSlash(s, w);
      SplitStep(s, w, n);
      DescendStep(t, v.cwd, Split(s[w..]), junk, i);
      var name := s[w..n];
      if name != [] && name != [DOT] {
        ok := ChangeDir(v, name, root, junk[i], t);
        if !ok { return false; }
      }
      i := i + 1;
      if n == |s| {
        NoParts(t, v.cwd, junk, i);
        return true;
      }
      w := n + 1;
    }
    assert s[w..] == [];
    StayHere(t, v.cwd, junk, i);
    ok := true;
  }

  lemma {:induction false} DescendStep(t: Tree, c: nat, parts: seq<seq<nat>>, junk: seq<seq<nat>>, i: nat)
    requires TreeOk(t) && c in t.dirs && Buffers(junk) && i + |parts| <= |junk| && parts != []
    ensures var e := if parts[0] == [] || parts[0] == [DOT] then Some(c) else Enter(t, c, junk[i], parts[0]);
            Descend(t, c, parts, junk, i) == if e.None? then None else Descend(t, e.value, parts[1..], junk, i + 1)
  {
    hide TreeOk, Enter;
  }

  lemma {:induction false} NoParts(t: Tree, c: nat, junk: seq<seq<nat>>, i: nat)
    requires TreeOk(t) && c in t.dirs && Buffers(junk) && i <= |junk|
    ensures Descend(t, c, [], junk, i) == Some(c)
  {
    hide TreeOk, Enter;
  }

  lemma {:induction false} StayHere(t: Tree, c: nat, junk: seq<seq<nat>>, i: nat)
    requires TreeOk(t) && c in t.dirs && Buffers(junk) && i + 1 <= |junk|
    ensures Descend(t, c, Split([]), junk, i) == Some(c)
  {
    hide TreeOk, Enter;
    SplitHead([], 0);
  }

  lemma {:induction false} SplitStep(s: seq<nat>, w: nat, n: nat)
    requires w <= n <= |s| && n - w == NextSlash(s[w..])
    ensures Split(s[w..])[0] == s[w..n]
    ensures Split(s[w..])[1..] == if n == |s| then [] else Split(s[n + 1..])
  {
    SlashAt(s[w..], n - w);
    hide Split, NextSlash;
    SplitHead(s[w..], n - w);
    assert s[w..][..n - w] == s[w..n];
    if n < |s| { assert s[w..][n - w + 1..] == s[n + 1..]; }
  }

  /** Leaves the working directory where the path's file is to be looked up. */
  method Walk(v: Volume, path: seq<nat>, root: nat, junk: seq<seq<nat>>, ghost t: Tree)
    returns (r: int, base: seq<nat>)
    requires Holding(v, t) && root == t.root && IsName(path) && Buffers(junk)
    modifies v`cwd
    ensures Holding(v, t) && r == if Target(t, old(v.cwd), path, junk).Some? then 0 else -1
    ensures r == 0 ==> Target(t, old(v.cwd), path, junk) == Some(v.cwd) && base == BaseName(path) && IsName(base)
  {
    hide TreeOk, Enter, Split, Descend, Target, BaseName, IsName, Cut, Buffers, Parts;
    base := [];
    if path == [] {
      NoTarget(t, v.cwd, junk);
      return -1, base;
    }
    DirRoot(t);
    var cur := StartAt(v, path, root);
    var last := LastSlash(cur);
    NamePart(cur, 0, if last >= 0 then last else 0);
    NamePart(cur, last + 1, |cur|);
    TargetAt(t, old(v.cwd), path, junk, v.cwd, cur, last);
    var file := cur;
    if last >= 0 {
      file := cur[last + 1..];
      var ok := EnterAll(v, cur[..last], root, junk, t);
      if !ok { return -1, base; }
    } else {
      NoParts(t, v.cwd, junk, 0);
    }
    if file == [] { return -1, base; }
    base := Cut(file, 255);
    NameCut(file, 255);
    r := 0;
  }

  /** An absolute path starts at the root. */
  method StartAt(v: Volume, path: seq<nat>, root: nat) returns (cur: seq<nat>)
    requires path != [] && IsName(path)
    modifies v`cwd
    ensures v.cwd == if path[0] == SLASH then root else old(v.cwd)
    ensures cur == if path[0] == SLASH then Cut(path, 511)[1..] else Cut(path, 511)
    ensures |cur| < 512 && IsName(cur)
  {
    cur := Cut(path, 511);
    if cur[0] == SLASH { v.cwd, cur := root, cur[1..]; }
  }

  lemma {:induction false} NamePart(s: seq<nat>, i: nat, j: nat)
    requires IsName(s) && i <= j <= |s|
    ensures IsName(s[i..j]) && (i == 0 ==> s[i..j] == s[..j]) && (j == |s| ==> s[i..j] == s[i..])
  {
  }

  lemma {:induction false} NameCut(s: seq<nat>, n: nat)
    requires IsName(s)
    ensures IsName(Cut(s, n))
  {
  }

  lemma {:induction false} DirRoot(t: Tree)
    requires TreeOk(t)
    ensures t.root in t.dirs
  {
  }

  lemma {:induction false} NoTarget(t: Tree, cwd: nat, junk: seq<seq<nat>>)
    requires TreeOk(t) && cwd in t.dirs && Buffers(junk)
    ensures Target(t, cwd, [], junk) == None
  {
    hide TreeOk, Descend, Parts;
  }

  /** The components before the slash at `p`. */
  ghost function Before(cur: seq<nat>, p: int): (r: seq<seq<nat>>)
    requires -1 <= p < |cur|
    ensures |r| <= |cur|
  {
    if p >= 0 then Split(cur[..p]) else []
  }

  /** The target seen from the last slash. */
  lemma {:induction false} TargetAt(t: Tree, cwd: nat, path: seq<nat>, junk: seq<seq<nat>>, start: nat, cur: seq<nat>,
                                    p: int)
    requires TreeOk(t) && cwd in t.dirs && Buffers(junk) && path != [] && |cur| < 512 && start in t.dirs
    requires start == if path[0] == SLASH then t.root else cwd
    requires cur == if path[0] == SLASH then Cut(path, 511)[1..] else Cut(path, 511)
    requires LastAt(cur, p)
    ensures BaseName(path) == Cut(cur[p + 1..], 255)
    ensures Target(t, cwd, path, junk) ==
            if cur[p + 1..] == [] then None else Descend(t, start, Before(cur, p), junk, 0)
  {
    hide TreeOk, Split, Descend, Parts, Cut, Buffers;
    PartsOf(path, cur);
    PartsAt(cur, p);
  }

  lemma {:induction false} PartsOf(path: seq<nat>, cur: seq<nat>)
    requires path != [] && cur == (if path[0] == SLASH then Cut(path, 511)[1..] else Cut(path, 511))
    ensures Parts(path) == Split(cur)
  {
    hide Split;
  }

  /** The components seen from the last slash. */
  lemma {:induction false} PartsAt(cur: seq<nat>, p: int)
    requires LastAt(cur, p)
    ensures var n := |Split(cur)| - 1;
            && Split(cur)[n] == cur[p + 1..] && Split(cur)[..n] == Before(cur, p)
  {
    hide Split;
    if p >= 0 {
      SplitLast(cur, p);
    } else {
      SplitHead(cur, |cur|);
    }
  }

  // ---- reading through a path --------------------------------------------------------------------------------

  /** Reading up to `size` bytes of the file a path leads to. */
  ghost predicate PathReads(t: Tree, cwd: nat, path: seq<nat>, junk: seq<seq<nat>>, junk2: seq<nat>, size: nat, r: int,
                            out: seq<nat>)
    requires TreeOk(t) && cwd in t.dirs && Buffers(junk) && |junk2| == LFN_BUFFER
  {
    var c := Target(t, cwd, path, junk);
    if c.None? then r == -1 && out == []
    else
      assert DirOk(t, c.value);
      Reads(t.g, t.d, t.dirs[c.value], junk2, BaseName(path), size, r, out)
  }

  /** `fat32_read_file`: the file the path leads to is read, and the working directory is the same afterwards. */
  method ReadPath(v: Volume, path: seq<nat>, root: nat, size: nat, junk: seq<seq<nat>>, junk2: seq<nat>, ghost t: Tree)
    returns (r: int, out: seq<nat>)
    requires Holding(v, t) && root == t.root && IsName(path) && Buffers(junk) && |junk2| == LFN_BUFFER
    modifies v`cwd
    ensures Holding(v, t) && v.cwd == old(v.cwd)
    ensures PathReads(t, v.cwd, path, junk, junk2, size, r, out)
  {
    hide TreeOk, Enter, Split, Descend, Target, BaseName, Reads;
    var saved := v.cwd;
    var base;
    r, base := Walk(v, path, root, junk, t);
    if r < 0 {
      v.cwd := saved;
      return -1, [];
    }
    DirFacts(t, v.cwd);
    r, out := ReadFile(v, base, size, junk2, t.dirs[v.cwd], t.chains);
    v.cwd := saved;
  }

  // ---- a file written is seen through every path to it ---------------------------------------------------------

  /** The tree after a write in directory `c`: the same directories on the new volume. */
  ghost function Written(t: Tree, d': Disk, s: seq<nat>, u: seq<nat>): Tree {
    t.(d := d', chains := t.chains - {s} + {u})
  }

  /** Slot `m` of directory `c`, a file's, was pointed at chain `u`, which holds `data`. The chain written to is
      no directory. */
  ghost predicate WroteFile(t: Tree, d': Disk, c: nat, m: int, s: seq<nat>, u: seq<nat>, data: seq<nat>) {
    && TreeOk(t) && c in t.dirs && FileWritten(t.g, t.d, d', t.chains, t.dirs[c], m, s, u, data)
    && |data| < 0x8000_0000 && (forall c2 :: c2 in t.dirs ==> t.dirs[c2] != s)
    && (m >= 0 ==> !IsFolder(SlotsAt(t, c)[m]))
  }

  lemma {:induction false} WrittenFolder(t: Tree, d': Disk, c: nat, m: int, s: seq<nat>, u: seq<nat>, data: seq<nat>,
                                         c2: nat, junk: seq<nat>, name: seq<nat>)
    requires WroteFile(t, d', c, m, s, u, data) && c2 in t.dirs && |junk| == LFN_BUFFER
    ensures DiskOk(t.g, d') && Clusters(t.g, t.dirs[c2])
    ensures var a, b := SlotsAt(t, c2), DirSlots(t.g, d', t.dirs[c2]);
            && |b| == |a| && Lookup(b, junk, name) == Lookup(a, junk, name)
            && forall k :: 0 <= k < |a| ==> b[k] == a[k] || (!IsFolder(a[k]) && !IsFolder(b[k]))
  {
    DirFacts(t, c);
    DirFacts(t, c2);
    var a := SlotsAt(t, c2);
    hide TreeOk, DirSlots, Lookup, FirstCluster, Family, Rooted, Carries, Fat, DiskOk, IsFolder, Updated;
    OtherSlots(t.g, t.d, d', t.chains, t.dirs[c], m, s, u, data, t.dirs[c2], junk, name);
    if c2 == c && m >= 0 {
      HeadBound(t.g, d', t.chains - {s} + {u}, u);
      SlotBytes(t.g, t.d, t.dirs[c], m);
      FileStays(a[m], u[0], |data|);
    }
  }

  lemma {:induction false} FileStays(e: Slot, c: nat, n: nat)
    requires SlotOk(e) && c < 0x1_0000_0000 && n < 0x8000_0000 && !IsFolder(e)
    ensures !IsFolder(Updated(e, c, n))
  {
    UpdatedFacts(e, c, n);
    hide Updated;
    assert Updated(e, c, n)[11] == Updated(e, c, n)[..12][11] == e[..12][11];
  }

  /** Every directory is still mounted, and the tree is as it was. */
  lemma {:induction false} WrittenTree(t: Tree, d': Disk, c: nat, m: int, s: seq<nat>, u: seq<nat>, data: seq<nat>)
    requires WroteFile(t, d', c, m, s, u, data)
    ensures TreeOk(Written(t, d', s, u))
  {
    DirFacts(t, c);
    hide TreeOk, FileWritten, Lookup;
    var t' := Written(t, d', s, u);
    forall c2 | c2 in t'.dirs ensures DirOk(t', c2) { WrittenDir(t, d', c, m, s, u, data, c2); }
    assert TreeOk(t') by { TreeFrom(t'); }
  }

  lemma {:induction false} TreeFrom(t: Tree)
    requires t.root in t.dirs && forall c :: c in t.dirs ==> DirOk(t, c)
    ensures TreeOk(t)
  {
  }

  lemma {:induction false} WrittenDir(t: Tree, d': Disk, c: nat, m: int, s: seq<nat>, u: seq<nat>, data: seq<nat>,
                                      c2: nat)
    requires WroteFile(t, d', c, m, s, u, data) && c2 in t.dirs
    ensures DirOk(Written(t, d', s, u), c2)
  {
    DirFacts(t, c2);
    assert DirOk(t, c2);
    WrittenFolder(t, d', c, m, s, u, data, c2, Junk(), []);
    var a, b, all := SlotsAt(t, c2), DirSlots(t.g, d', t.dirs[c2]), t.chains - {s} + {u};
    hide TreeOk, Lookup, DirSlots, FirstCluster, IsFolder, Fat, DiskOk, Carries, Updated;
    if c2 == c {
      StaysMounted(t.g, t.d, d', t.chains, t.dirs[c], m, s, u, data);
    } else {
      SlotsFrame(t.g, t.d, d', t.dirs[c2]);
      forall k | 0 <= k < |b| && Live(b[k]) ensures FirstCluster(b[k]) == 0 || Owned(all, FirstCluster(b[k])) {
        if FirstCluster(a[k]) != 0 {
          var w :| w in t.chains && |w| > 0 && w[0] == FirstCluster(a[k]);
          assert (if w == s then u else w) in all;
        }
      }
    }
  }

  /** The same lookups lead the same way. */
  lemma {:induction false} WrittenDescend(t: Tree, d': Disk, c: nat, m: int, s: seq<nat>, u: seq<nat>, data: seq<nat>,
                                          c2: nat, parts: seq<seq<nat>>, junk: seq<seq<nat>>, i: nat)
    requires WroteFile(t, d', c, m, s, u, data) && TreeOk(t) && TreeOk(Written(t, d', s, u))
    requires c2 in t.dirs && Buffers(junk) && i + |parts| <= |junk|
    ensures Descend(Written(t, d', s, u), c2, parts, junk, i) == Descend(t, c2, parts, junk, i)
    decreases |parts|
  {
    hide TreeOk, Enter, WroteFile;
    if parts != [] {
      WrittenEnter(t, d', c, m, s, u, data, c2, junk[i], parts[0]);
      var e := if parts[0] == [] || parts[0] == [DOT] then Some(c2) else Enter(t, c2, junk[i], parts[0]);
      if e.Some? { WrittenDescend(t, d', c, m, s, u, data, e.value, parts[1..], junk, i + 1); }
    }
  }

  lemma {:induction false} WrittenEnter(t: Tree, d': Disk, c: nat, m: int, s: seq<nat>, u: seq<nat>, data: seq<nat>,
                                        c2: nat, junk: seq<nat>, name: seq<nat>)
    requires WroteFile(t, d', c, m, s, u, data) && TreeOk(Written(t, d', s, u)) && c2 in t.dirs && |junk| == LFN_BUFFER
    ensures Enter(Written(t, d', s, u), c2, junk, name) == Enter(t, c2, junk, name)
  {
    hide TreeOk, Lookup, DirSlots, FirstCluster, IsFolder;
    WrittenFolder(t, d', c, m, s, u, data, c2, junk, name);
    SlotsThere(Written(t, d', s, u), c2);
  }

  lemma {:induction false} SlotsThere(t: Tree, c: nat)
    requires TreeOk(t) && c in t.dirs
    ensures DiskOk(t.g, t.d) && Clusters(t.g, t.dirs[c]) && SlotsAt(t, c) == DirSlots(t.g, t.d, t.dirs[c])
  {
    DirFacts(t, c);
    hide TreeOk, DirSlots, DiskOk;
  }

  /** A file written under its name in directory `c` reads back through every path that leads there, from every
      working directory. */
  lemma {:induction false} WrittenSeen(t: Tree, d': Disk, c: nat, m: nat, s: seq<nat>, u: seq<nat>, data: seq<nat>,
                                       cwd: nat, path: seq<nat>, junk: seq<seq<nat>>, junk2: seq<nat>, size: nat)
    requires WroteFile(t, d', c, m, s, u, data) && cwd in t.dirs && Buffers(junk) && |junk2| == LFN_BUFFER
    requires Target(t, cwd, path, junk) == Some(c) && Lookup(SlotsAt(t, c), junk2, BaseName(path)) == m
    ensures TreeOk(Written(t, d', s, u))
    ensures var n := Least(size, |data|); PathReads(Written(t, d', s, u), cwd, path, junk, junk2, size, n, data[..n])
  {
    WrittenTree(t, d', c, m, s, u, data);
    SlotsThere(t, c);
    DirRoot(t);
    hide TreeOk, DirSlots, Lookup, Descend, FileWritten, Reads, BaseName, IsFolder, Parts;
    var n := |Parts(path)| - 1;
    WrittenDescend(t, d', c, m, s, u, data, if Absolute(path) then t.root else cwd, Parts(path)[..n], junk, 0);
    ReadBack(t.g, t.d, d', t.chains, t.dirs[c], m, s, u, data, junk2, BaseName(path), size);
  }
}
