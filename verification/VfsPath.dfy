/** Path normalisation: the character scanner against a fold over components. */
module VfsPath {
  import opened Options

  const MAX_PATH: nat := 512
  const MAX_COMPS: nat := 32
  const MAX_NAME: nat := 63

  // ---- components and the stack they are folded over -------------------------------------------------

  /** The components of `s`, `cur` being the one under way. */
  ghost function Split(s: string, cur: string): (r: seq<string>)
    ensures |r| > 0
  {
    if s == [] then [cur]
    else if s[0] == '/' then [cur] + Split(s[1..], "")
    else Split(s[1..], cur + [s[0]])
  }

  function Cap(c: string): string { if |c| <= MAX_NAME then c else c[..MAX_NAME] }

  /** An empty component or "." is skipped, ".." goes up, any other goes down while there is room. */
  ghost function Step(stack: seq<string>, c: string): seq<string> {
    if c == "" || c == "." then stack
    else if c == ".." then (if stack == [] then [] else stack[..|stack| - 1])
    else if |stack| < MAX_COMPS then stack + [Cap(c)]
    else stack
  }

  ghost function Fold(stack: seq<string>, comps: seq<string>): seq<string>
    decreases |comps|
  {
    if comps == [] then stack else Fold(Step(stack, comps[0]), comps[1..])
  }

  /** A component a normal path may hold. */
  ghost predicate Proper(c: string) { c != "" && c != "." && c != ".." && '/' !in c && |c| <= MAX_NAME }

  ghost predicate Normal(stack: seq<string>)
  {
    |stack| <= MAX_COMPS && forall i :: 0 <= i < |stack| ==> Proper(stack[i])
  }

  lemma {:induction false} FoldConcat(stack: seq<string>, a: seq<string>, b: seq<string>)
    ensures Fold(stack, a + b) == Fold(Fold(stack, a), b)
    decreases |a|
  {
    if a == [] {
      assert a + b == b;
    } else {
      assert (a + b)[1..] == a[1..] + b;
      FoldConcat(Step(stack, a[0]), a[1..], b);
    }
  }

  lemma {:induction false} SplitConcat(a: string, b: string, cur: string)
    ensures Split(a + "/" + b, cur) == Split(a, cur) + Split(b, "")
    decreases |a|
  {
    if a == [] {
      assert (a + "/" + b)[1..] == b;
    } else {
      assert (a + "/" + b)[1..] == a[1..] + "/" + b;
      if a[0] == '/' { SplitConcat(a[1..], b, ""); } else { SplitConcat(a[1..], b, cur + [a[0]]); }
    }
  }

  lemma {:induction false} SplitOne(c: string, cur: string)
    requires '/' !in c
    ensures Split(c, cur) == [cur + c]
    decreases |c|
  {
    if c == [] {
      assert cur + c == cur;
    } else {
      SplitOne(c[1..], cur + [c[0]]);
      assert cur + [c[0]] + c[1..] == cur + c;
    }
  }

  lemma {:induction false} SplitClean(s: string, cur: string)
    requires '/' !in cur
    ensures forall i :: 0 <= i < |Split(s, cur)| ==> '/' !in Split(s, cur)[i]
    decreases |s|
  {
    if s != [] {
      if s[0] == '/' { SplitClean(s[1..], ""); } else { SplitClean(s[1..], cur + [s[0]]); }
    }
  }

  /** Folding keeps the stack normal. */
  lemma {:induction false} FoldNormal(stack: seq<string>, comps: seq<string>)
    requires Normal(stack) && forall i :: 0 <= i < |comps| ==> '/' !in comps[i]
    ensures Normal(Fold(stack, comps))
    decreases |comps|
  {
    if comps != [] {
      CapProper(comps[0]);
      FoldNormal(Step(stack, comps[0]), comps[1..]);
    }
  }

  lemma {:induction false} CapProper(c: string)
    requires '/' !in c
    ensures c != "" && c != "." && c != ".." ==> Proper(Cap(c))
  {
    if |c| > MAX_NAME { assert |Cap(c)| == MAX_NAME; }
  }

  /** Folding the components of a normal path rebuilds it. */
  lemma {:induction false} FoldProper(stack: seq<string>, comps: seq<string>)
    requires |stack| + |comps| <= MAX_COMPS && forall i :: 0 <= i < |comps| ==> Proper(comps[i])
    ensures Fold(stack, comps) == stack + comps
    decreases |comps|
  {
    if comps != [] {
      FoldProper(stack + [comps[0]], comps[1..]);
      assert stack + [comps[0]] + comps[1..] == stack + comps;
    }
  }

  // ---- rendering ----------------------------------------------------------------------------------------

  /** Components separated by slashes. */
  ghost function Join(stack: seq<string>): string {
    if stack == [] then "" else if |stack| == 1 then stack[0] else Join(stack[..|stack| - 1]) + "/" + stack[|stack| - 1]
  }

  /** The normal form; that of the root is "//". */
  ghost function Render(stack: seq<string>): string { if stack == [] then "//" else "/" + Join(stack) }

  lemma {:induction false} SplitJoin(stack: seq<string>)
    requires stack != [] && Normal(stack)
    ensures Split(Join(stack), "") == stack
    decreases |stack|
  {
    var n := |stack| - 1;
    if n == 0 {
      SplitOne(stack[0], "");
      assert "" + stack[0] == stack[0];
    } else {
      SplitJoin(stack[..n]);
      SplitConcat(Join(stack[..n]), stack[n], "");
      SplitOne(stack[n], "");
      assert "" + stack[n] == stack[n] && stack[..n] + [stack[n]] == stack;
    }
  }

  /** Reading a normal form gives back its stack. */
  lemma {:induction false} ReadNormal(stack: seq<string>)
    requires Normal(stack)
    ensures Fold([], Split(Render(stack), "")) == stack
  {
    if stack == [] {
      assert Split("//", "") == ["", "", ""] by {
        assert "//"[1..] == "/" && "/"[1..] == "";
        assert Split("/", "") == [""] + Split("", "");
      }
      FoldConcat([], [""], ["", ""]);
      assert Fold([], [""]) == [] && Fold([], ["", ""]) == Fold([], [""]) by { assert ["", ""][1..] == [""]; }
      assert [""] + ["", ""] == ["", "", ""];
    } else {
      SplitJoin(stack);
      assert Split(Render(stack), "") == [""] + stack by { assert Render(stack)[1..] == Join(stack); }
      assert ([""] + stack)[1..] == stack;
      FoldProper([], stack);
    }
  }

  // ---- vfs_abs_path ----------------------------------------------------------------------------------------

  function Take(s: string, n: nat): string { if |s| <= n then s else s[..n] }

  /** The joined path before normalisation. */
  function Base(cwd: Option<string>, path: string): string {
    if path != "" && path[0] == '/' then Take(path, MAX_PATH - 1)
    else Take(Prefix(cwd) + path, MAX_PATH - 1)
  }

  predicate Relative(path: string) { path != "" && path[0] != '/' }

  /** The slash after the working directory and the terminator do not both fit the scratch buffer. */
  predicate Overruns(cwd: Option<string>, path: string) {
    Relative(path) && cwd.Some? && |cwd.value| >= MAX_PATH - 1 && cwd.value[MAX_PATH - 2] != '/'
  }

  /** The working directory as copied, with its slash. */
  function Prefix(cwd: Option<string>): string {
    var c := Take(if cwd.Some? then cwd.value else "/", MAX_PATH - 1);
    if c != "" && c[|c| - 1] != '/' then c + "/" else c
  }

  /** That is exactly when the index of the terminator, past what is copied, is outside the buffer. */
  lemma {:induction false} OverrunsExactly(cwd: Option<string>, path: string)
    requires Relative(path)
    ensures var n := |Prefix(cwd)|;
            Overruns(cwd, path) <==> n + |Take(path, if n < MAX_PATH then MAX_PATH - 1 - n else 0)| >= MAX_PATH
  {
  }

  /** It happens from a directory of 511 letters, and from none as short as a process's 256-byte `cwd` holds. */
  lemma {:induction false} OverrunInput(cwd: string, path: string)
    ensures Overruns(Some(seq(511, _ => 'a')), "b")
    ensures |cwd| < 256 ==> !Overruns(Some(cwd), path)
  {
    assert seq(511, _ => 'a')[MAX_PATH - 2] == 'a';
  }

  ghost function Stack(cwd: Option<string>, path: string): seq<string> { Fold([], Split(Base(cwd, path), "")) }

  /** The result cut to the caller's buffer. */
  ghost function Fitted(stack: seq<string>, outlen: nat): string
    requires outlen >= 3
  {
    var t := Take("/" + Join(stack), outlen - 2);
    if |t| == 1 then "//" else t
  }

  lemma {:induction false} CapStep(c: string, ch: char)
    ensures Cap(c + [ch]) == if |Cap(c)| < MAX_NAME then Cap(c) + [ch] else Cap(c)
  {
  }

  /** The separator is met: what the stack becomes. */
  method Push(comps: array<string>, n: nat, cur: string, ghost full: string) returns (m: nat)
    requires comps.Length == MAX_COMPS && n <= MAX_COMPS && cur == Cap(full)
    modifies comps
    ensures m <= MAX_COMPS && comps[..m] == Step(old(comps[..n]), full)
  {
    m := n;
    if cur == "" || cur == "." {
    } else if cur == ".." {
      if m > 0 { m := m - 1; }
    } else if m < MAX_COMPS {
      comps[m] := cur;
      m := m + 1;
    }
  }

  /** One pass over the characters computes the fold over the components. */
  method Scan(base: string) returns (stack: seq<string>)
    ensures stack == Fold([], Split(base, ""))
  {
    var comps := new string[MAX_COMPS](_ => "");
    var n: nat, cur, i := 0, "", 0;
    ghost var full := "";
    assert base[0..] == base && comps[..0] == [];
    while true
      invariant i <= |base| && n <= MAX_COMPS && cur == Cap(full)
      invariant Fold([], Split(base, "")) == Fold(comps[..n], Split(base[i..], full))
      decreases |base| - i
    {
      ghost var rest := Split(base[i..], full);
      if i == |base| || base[i] == '/' {
        assert i < |base| ==> base[i..][1..] == base[i + 1..];
        n := Push(comps, n, cur, full);
        if i == |base| {
          assert rest == [full] && rest[1..] == [];
          return comps[..n];
        }
        assert rest[1..] == Split(base[i + 1..], "");
        cur, full := "", "";
      } else {
        assert base[i..][1..] == base[i + 1..];
        CapStep(full, base[i]);
        if |cur| < MAX_NAME { cur := cur + [base[i]]; }
        full := full + [base[i]];
      }
      i := i + 1;
    }
  }

  method Append(out: string, s: string, limit: nat) returns (r: string)
    requires |out| <= limit
    ensures r == Take(out + s, limit)
  {
    r := out;
    var j := 0;
    while j < |s|
      invariant j <= |s| && r == Take(out + s[..j], limit)
    {
      assert out + s[..j + 1] == (out + s[..j]) + [s[j]];
      if |r| < limit { r := r + [s[j]]; }
      j := j + 1;
    }
    assert s[..j] == s;
  }

  lemma {:induction false} TakeTwice(a: string, s: string, k: nat)
    ensures Take(Take(a, k) + s, k) == Take(a + s, k)
  {
  }

  lemma {:induction false} JoinStep(stack: seq<string>, c: nat)
    requires c < |stack|
    ensures Join(stack[..c + 1]) == if c == 0 then stack[0] else Join(stack[..c]) + "/" + stack[c]
  {
    assert stack[..c + 1][..c] == stack[..c];
  }

  /** What has been written before component `c`. */
  ghost function Written(stack: seq<string>, c: nat): string
    requires c <= |stack|
  {
    "/" + Join(stack[..c]) + if 0 < c < |stack| then "/" else ""
  }

  lemma {:induction false} WrittenStep(stack: seq<string>, c: nat)
    requires c < |stack|
    ensures Written(stack, c + 1) == Written(stack, c) + stack[c] + if c + 1 < |stack| then "/" else ""
  {
    JoinStep(stack, c);
    assert c == 0 ==> stack[..0] == [] && "/" + "" + "" == "/";
    assert c > 0 ==> "/" + (Join(stack[..c]) + "/" + stack[c]) == "/" + Join(stack[..c]) + "/" + stack[c];
  }

  method WriteOut(stack: seq<string>, outlen: nat) returns (out: string)
    requires outlen >= 3
    ensures out == Fitted(stack, outlen)
  {
    out := "/";
    var limit := outlen - 2;
    assert Written(stack, 0) == "/" by { assert stack[..0] == []; }
    var c := 0;
    while c < |stack|
      invariant c <= |stack| && out == Take(Written(stack, c), limit)
    {
      WrittenStep(stack, c);
      ghost var w := Written(stack, c);
      out := Append(out, stack[c], limit);
      TakeTwice(w, stack[c], limit);
      if c + 1 < |stack| {
        out := Append(out, "/", limit);
        TakeTwice(w + stack[c], "/", limit);
      }
      assert w + stack[c] + "" == w + stack[c];
      c := c + 1;
    }
    assert stack[..c] == stack && Written(stack, c) == "/" + Join(stack);
    if |out| == 1 { out := out + "/"; }
  }

  lemma {:induction false} PrefixFits(cwd: Option<string>, path: string)
    requires Relative(path) && !Overruns(cwd, path)
    ensures |Prefix(cwd)| <= MAX_PATH - 1
  {
  }

  method JoinPaths(cwd: Option<string>, path: string) returns (base: string)
    requires path != "" && !Overruns(cwd, path)
    ensures base == Base(cwd, path)
  {
    hide Take, Fold, Split;
    var c := if cwd.Some? then cwd.value else "/";
    assert "" + c == c && "" + path == path;
    if Relative(path) { PrefixFits(cwd, path); }
    if path[0] == '/' {
      base := Append("", path, MAX_PATH - 1);
    } else {
      base := Append("", c, MAX_PATH - 1);
      if base != "" && base[|base| - 1] != '/' { base := base + "/"; }
      base := Append(base, path, MAX_PATH - 1);
    }
  }

  /** `vfs_abs_path`: -1 for an empty path, otherwise the normal form of the joined path, cut to the buffer. */
  method AbsPath(cwd: Option<string>, path: string, outlen: nat) returns (r: int, out: string)
    requires outlen >= 3 && !Overruns(cwd, path)
    ensures path == "" ==> r == -1 && out == ""
    ensures path != "" ==> r == 0 && out == Fitted(Stack(cwd, path), outlen)
  {
    if path == "" { return -1, ""; }
    var base := JoinPaths(cwd, path);
    var stack := Scan(base);
    out := WriteOut(stack, outlen);
    r := 0;
  }

  // ---- laws ----------------------------------------------------------------------------------------------------

  lemma {:induction false} StackNormal(cwd: Option<string>, path: string)
    ensures Normal(Stack(cwd, path))
  {
    SplitClean(Base(cwd, path), "");
    FoldNormal([], Split(Base(cwd, path), ""));
  }

  lemma {:induction false} JoinNonempty(stack: seq<string>)
    requires stack != [] && Normal(stack)
    ensures Join(stack) != "" && Join(stack)[|Join(stack)| - 1] != '/'
  {
    var n := |stack| - 1;
    assert Proper(stack[n]);
    var c := stack[n];
    assert c[|c| - 1] in c;
  }

  /** A result that fits is the normal form. */
  lemma {:induction false} FittedWhole(stack: seq<string>, outlen: nat)
    requires Normal(stack) && outlen >= 3 && |Render(stack)| <= outlen - 2
    ensures Fitted(stack, outlen) == Render(stack)
  {
    if stack != [] { JoinNonempty(stack); }
  }

  /** Normalising a normal form changes nothing, whatever the working directory. */
  lemma {:induction false} Idempotent(cwd: Option<string>, path: string, cwd2: Option<string>, outlen: nat,
                                      outlen2: nat)
    requires outlen >= 3 && outlen2 >= 3
    requires |Render(Stack(cwd, path))| < MAX_PATH && |Render(Stack(cwd, path))| + 2 <= outlen
    requires |Render(Stack(cwd, path))| + 2 <= outlen2
    ensures var a := Fitted(Stack(cwd, path), outlen); a != "" && Fitted(Stack(cwd2, a), outlen2) == a
  {
    var st := Stack(cwd, path);
    StackNormal(cwd, path);
    FittedWhole(st, outlen);
    ReadNormal(st);
    assert Base(cwd2, Render(st)) == Render(st);
    FittedWhole(st, outlen2);
  }

  /** Resolving `q` from where `p` leads is resolving `p/q`. */
  lemma {:induction false} Compose(cwd: Option<string>, p: string, q: string, outlen: nat)
    requires p != "" && q != "" && q[0] != '/' && outlen >= 3
    requires |Render(Stack(cwd, p))| + 2 <= outlen && |Render(Stack(cwd, p))| + 1 + |q| < MAX_PATH
    requires (if cwd.Some? then |cwd.value| else 1) + 1 + |p| + 1 + |q| < MAX_PATH
    ensures var a := Fitted(Stack(cwd, p), outlen); Stack(Some(a), q) == Stack(cwd, p + "/" + q)
  {
    var st := Stack(cwd, p);
    StackNormal(cwd, p);
    FittedWhole(st, outlen);
    BaseJoin(cwd, p, q);
    SplitConcat(Base(cwd, p), q, "");
    FoldConcat([], Split(Base(cwd, p), ""), Split(q, ""));
    ResumeAt(st, q);
  }

  lemma {:induction false} BaseJoin(cwd: Option<string>, p: string, q: string)
    requires p != "" && (if cwd.Some? then |cwd.value| else 1) + 1 + |p| + 1 + |q| < MAX_PATH
    ensures Base(cwd, p + "/" + q) == Base(cwd, p) + "/" + q
  {
    assert (p + "/" + q)[0] == p[0];
    if p[0] != '/' {
      var d := Prefix(cwd);
      assert |d| <= (if cwd.Some? then |cwd.value| else 1) + 1;
      hide Prefix;
      assert d + (p + "/" + q) == d + p + "/" + q;
    }
  }

  /** Continuing from a normal form. */
  lemma {:induction false} ResumeAt(st: seq<string>, q: string)
    requires Normal(st) && q != "" && q[0] != '/' && |Render(st)| + 1 + |q| < MAX_PATH
    ensures Stack(Some(Render(st)), q) == Fold(st, Split(q, ""))
  {
    var r := Render(st);
    if st == [] {
      assert "/" + "/" + q == "//" + q == Base(Some(r), q);
      SplitConcat("/", q, "");
      assert Split("/", "") == [""] + Split("", "") by { assert "/"[1..] == ""; }
      assert Split("/", "") == ["", ""];
      FoldConcat([], ["", ""], Split(q, ""));
      assert ["", ""][1..] == [""] && [""][1..] == [];
      assert Fold([], ["", ""]) == Fold([], [""]) == [];
    } else {
      JoinNonempty(st);
      assert Base(Some(r), q) == r + "/" + q;
      SplitConcat(r, q, "");
      ReadNormal(st);
      FoldConcat([], Split(r, ""), Split(q, ""));
    }
  }

  // ---- what the components do ------------------------------------------------------------------------------------

  /** The joined path and one more component fit the scratch buffer. */
  ghost predicate Fits(cwd: Option<string>, p: string, n: nat) {
    p != "" && (if cwd.Some? then |cwd.value| else 1) + 1 + |p| + 1 + n < MAX_PATH
  }

  /** A last component is one step from the stack of what comes before it. */
  lemma {:induction false} LastStep(cwd: Option<string>, p: string, c: string)
    requires Fits(cwd, p, |c|) && '/' !in c
    ensures Stack(cwd, p + "/" + c) == Step(Stack(cwd, p), c)
  {
    BaseJoin(cwd, p, c);
    SplitConcat(Base(cwd, p), c, "");
    SplitOne(c, "");
    assert "" + c == c;
    FoldConcat([], Split(Base(cwd, p), ""), [c]);
    assert [c][1..] == [];
  }

  /** `..` drops the last component; at the root it stays there. */
  lemma {:induction false} Upwards(cwd: Option<string>, p: string)
    requires Fits(cwd, p, 2)
    ensures var st := Stack(cwd, p); Stack(cwd, p + "/..") == if st == [] then [] else st[..|st| - 1]
  {
    LastStep(cwd, p, "..");
    assert p + "/" + ".." == p + "/..";
  }

  /** Any other name is added, up to 63 characters of it and 32 components in all. */
  lemma {:induction false} Downwards(cwd: Option<string>, p: string, x: string)
    requires Fits(cwd, p, |x|) && '/' !in x && x != "" && x != "." && x != ".."
    ensures var st := Stack(cwd, p);
            Stack(cwd, p + "/" + x) == if |st| == 32 then st else st + [if |x| <= 63 then x else x[..63]]
  {
    LastStep(cwd, p, x);
    StackNormal(cwd, p);
  }

  /** `.` and a doubled slash change nothing. */
  lemma {:induction false} Stays(cwd: Option<string>, p: string)
    requires Fits(cwd, p, 1)
    ensures Stack(cwd, p + "/.") == Stack(cwd, p + "/") == Stack(cwd, p + "//") == Stack(cwd, p)
  {
    LastStep(cwd, p, ".");
    LastStep(cwd, p, "");
    BaseJoin(cwd, p, "/");
    assert p + "/" + "." == p + "/." && p + "/" + "" == p + "/" && p + "/" + "/" == p + "//";
    SplitConcat(Base(cwd, p), "/", "");
    assert Split("/", "") == ["", ""] by { assert "/"[1..] == ""; }
    FoldConcat([], Split(Base(cwd, p), ""), ["", ""]);
    assert ["", ""][1..] == [""] && [""][1..] == [];
  }

  /** Down and up again. */
  lemma {:induction false} DownUp(cwd: Option<string>, p: string, x: string)
    requires Fits(cwd, p, |x| + 3) && Proper(x) && |Stack(cwd, p)| < 32
    ensures Stack(cwd, p + "/" + x + "/..") == Stack(cwd, p)
  {
    Downwards(cwd, p, x);
    Upwards(cwd, p + "/" + x);
  }

  /** The root has no component, and is where a path without a working directory starts. */
  lemma {:induction false} Root(cwd: Option<string>, q: string)
    requires Relative(q) && |q| + 1 < MAX_PATH
    ensures Stack(cwd, "/") == [] && Stack(None, q) == Stack(cwd, "/" + q)
  {
    assert Split("/", "") == ["", ""] by { assert "/"[1..] == ""; }
    assert ["", ""][1..] == [""] && [""][1..] == [];
    assert Base(cwd, "/") == "/" && Base(None, q) == Base(cwd, "/" + q);
  }

  /** A relative path starts in the working directory. */
  lemma {:induction false} FromCwd(cwd: Option<string>, d: string, q: string)
    requires d != "" && d[0] == '/' && Relative(q) && |d| + 1 + |q| < MAX_PATH
    ensures Stack(Some(d), q) == Stack(cwd, d + "/" + q)
  {
    hide Fold, Split;
    assert Base(cwd, d + "/" + q) == d + "/" + q;
    if d[|d| - 1] == '/' {
      var e := d[..|d| - 1];
      assert d == e + "/" && Base(Some(d), q) == e + "/" + q && d + "/" + q == e + "/" + ("/" + q);
      SlashTwice(e, q);
    } else {
      assert Base(Some(d), q) == d + "/" + q;
    }
  }

  lemma {:induction false} SlashTwice(e: string, q: string)
    ensures Fold([], Split(e + "/" + ("/" + q), "")) == Fold([], Split(e + "/" + q, ""))
  {
    hide Fold, Split;
    SplitConcat(e, q, "");
    SplitConcat(e, "/" + q, "");
    SplitSlash(q);
    FoldConcat([], Split(e, ""), Split(q, ""));
    FoldConcat([], Split(e, ""), [""] + Split(q, ""));
    FoldSkip(Fold([], Split(e, "")), Split(q, ""));
  }

  lemma {:induction false} SplitSlash(q: string)
    ensures Split("/" + q, "") == [""] + Split(q, "")
  {
    assert ("/" + q)[1..] == q;
  }

  lemma {:induction false} FoldSkip(st: seq<string>, comps: seq<string>)
    ensures Fold(st, [""] + comps) == Fold(st, comps)
  {
    assert ([""] + comps)[1..] == comps;
  }
}
