/** A terminal, as far as characters go: printing with deferred wrap, and the CUP, EL, ED and SGR
    control sequences of ECMA-48 (sections 8.3.21, 8.3.41, 8.3.39 and 8.3.117). */
module Terminal {

  const COLS: nat := 80
  const ROWS: nat := 25
  const SPACE: nat := 0x20
  const ESC: nat := 0x1B

  /** Reading text, after an escape, or inside a control sequence with its parameters so far. */
  datatype Mode = Ground | Escape | Control(params: seq<nat>)

  /** `pending` is set after the last column is written: the wrap is deferred to the next character. */
  datatype Term = Term(grid: seq<seq<nat>>, row: nat, col: nat, pending: bool, mode: Mode)

  ghost predicate Ok(t: Term) {
    && |t.grid| == ROWS && (forall r :: 0 <= r < ROWS ==> |t.grid[r]| == COLS) && t.row < ROWS && t.col < COLS
    && (t.mode.Control? ==> |t.mode.params| > 0)
  }

  function Blank(n: nat): (r: seq<nat>)
    ensures |r| == n && forall i :: 0 <= i < n ==> r[i] == SPACE
  {
    seq(n, _ => SPACE)
  }

  /** A one-based coordinate, where 0 counts as 1, kept on the screen. */
  function Coord(p: nat, limit: nat): nat
    requires limit > 0
  {
    if p == 0 then 0 else if p > limit then limit - 1 else p - 1
  }

  function Param(ps: seq<nat>, i: nat): nat { if i < |ps| then ps[i] else 0 }

  ghost function Finish(t: Term, ps: seq<nat>, final: nat): (r: Term)
    requires Ok(t) && |ps| > 0
    ensures Ok(r)
  {
    var g := t.(mode := Ground);
    if final == 0x48 then g.(row := Coord(Param(ps, 0), ROWS), col := Coord(Param(ps, 1), COLS), pending := false)
    else if final == 0x4B && ps[0] == 0 then g.(grid := t.grid[t.row := t.grid[t.row][..t.col] + Blank(COLS - t.col)])
    else if final == 0x4A && ps[0] == 2 then g.(grid := seq(ROWS, _ => Blank(COLS)))
    else g
  }

  /** A line with the character at column `c` replaced. */
  function Written(line: seq<nat>, c: nat, b: nat): (r: seq<nat>)
    requires c < |line|
    ensures |r| == |line| && forall i :: 0 <= i < |r| ==> r[i] == if i == c then b else line[i]
  {
    line[..c] + [b] + line[c + 1..]
  }

  ghost function Print(t: Term, b: nat): (r: Term)
    requires Ok(t)
    ensures Ok(r)
  {
    var u := if !t.pending then t
             else if t.row + 1 < ROWS then t.(row := t.row + 1, col := 0, pending := false)
             else t.(grid := t.grid[1..] + [Blank(COLS)], col := 0, pending := false);
    var g := u.grid[u.row := Written(u.grid[u.row], u.col, b)];
    if u.col + 1 < COLS then u.(grid := g, col := u.col + 1) else u.(grid := g, pending := true)
  }

  ghost function Feed(t: Term, b: nat): (r: Term)
    requires Ok(t)
    ensures Ok(r)
  {
    match t.mode
    case Ground => if b == ESC then t.(mode := Escape) else if b >= SPACE && b != 0x7F then Print(t, b) else t
    case Escape => t.(mode := if b == 0x5B then Control([0]) else Ground)
    case Control(ps) =>
      if 0x30 <= b <= 0x39 then t.(mode := Control(ps[|ps| - 1 := ps[|ps| - 1] * 10 + (b - 0x30)]))
      else if b == 0x3B then t.(mode := Control(ps + [0]))
      else if b == 0x3F then t
      else Finish(t, ps, b)
  }

  ghost function Run(t: Term, s: seq<nat>): (r: Term)
    requires Ok(t)
    ensures Ok(r)
    decreases |s|
  {
    if s == [] then t else Run(Feed(t, s[0]), s[1..])
  }

  lemma {:induction false} RunConcat(t: Term, a: seq<nat>, b: seq<nat>)
    requires Ok(t)
    ensures Run(t, a + b) == Run(Run(t, a), b)
    decreases |a|
  {
    if a == [] {
      assert a + b == b;
    } else {
      assert (a + b)[1..] == a[1..] + b;
      RunConcat(Feed(t, a[0]), a[1..], b);
    }
  }

  lemma {:induction false} RunOne(t: Term, b: nat)
    requires Ok(t)
    ensures Run(t, [b]) == Feed(t, b)
  {
  }

  // ---- decimal parameters ----------------------------------------------------------------------------

  function Digits(n: nat): (r: seq<nat>)
    ensures |r| > 0 && forall i :: 0 <= i < |r| ==> 0x30 <= r[i] <= 0x39
  {
    if n < 10 then [0x30 + n] else Digits(n / 10) + [0x30 + n % 10]
  }

  /** Digits set the parameter they are read into. */
  lemma {:induction false} DigitsEffect(t: Term, ps: seq<nat>, n: nat)
    requires Ok(t) && t.mode == Control(ps + [0])
    ensures Run(t, Digits(n)) == t.(mode := Control(ps + [n]))
    decreases n
  {
    var d := 0x30 + n % 10;
    if n < 10 {
      RunOne(t, d);
      assert (ps + [0])[|ps| := n] == ps + [n];
    } else {
      DigitsEffect(t, ps, n / 10);
      RunConcat(t, Digits(n / 10), [d]);
      var u := t.(mode := Control(ps + [n / 10]));
      RunOne(u, d);
      assert (ps + [n / 10])[|ps| := n / 10 * 10 + n % 10] == ps + [n];
    }
  }

  // ---- the sequences in use --------------------------------------------------------------------------

  function Intro(): seq<nat> { [ESC, 0x5B] }

  lemma {:induction false} IntroEffect(t: Term)
    requires Ok(t) && t.mode == Ground
    ensures Run(t, Intro()) == t.(mode := Control([0]))
  {
    assert Intro() == [ESC] + [0x5B];
    RunConcat(t, [ESC], [0x5B]);
    RunOne(t, ESC);
    RunOne(t.(mode := Escape), 0x5B);
  }

  lemma {:induction false} FinishMode(t: Term, m: Mode, ps: seq<nat>, final: nat)
    requires Ok(t) && |ps| > 0 && Ok(t.(mode := m))
    ensures Finish(t.(mode := m), ps, final) == Finish(t, ps, final)
  {
  }

  /** `ESC [ a ; b f` */
  function TwoParams(a: nat, b: nat, final: nat): seq<nat> { Intro() + Digits(a) + [0x3B] + Digits(b) + [final] }

  lemma {:induction false} TwoParamsEffect(t: Term, a: nat, b: nat, final: nat)
    requires Ok(t) && t.mode == Ground && final > 0x3F
    ensures Run(t, TwoParams(a, b, final)) == Finish(t, [a, b], final)
  {
    var s0, s1, s2, s3 := Intro(), Digits(a), [0x3B], Digits(b);
    hide Digits, Intro, Run, Finish, Print;
    RunConcat(t, s0 + s1 + s2 + s3, [final]);
    RunConcat(t, s0 + s1 + s2, s3);
    RunConcat(t, s0 + s1, s2);
    RunConcat(t, s0, s1);
    IntroEffect(t);
    assert [] + [0] == [0] && [] + [a] == [a];
    DigitsEffect(t.(mode := Control([0])), [], a);
    RunOne(t.(mode := Control([a])), 0x3B);
    DigitsEffect(t.(mode := Control([a] + [0])), [a], b);
    assert [a] + [b] == [a, b];
    RunOne(t.(mode := Control([a, b])), final);
    FinishMode(t, Control([a, b]), [a, b], final);
  }

  function Goto(row: nat, col: nat): seq<nat> { TwoParams(row + 1, col + 1, 0x48) }

  lemma {:induction false} GotoEffect(t: Term, row: nat, col: nat)
    requires Ok(t) && t.mode == Ground && row < ROWS && col < COLS
    ensures Run(t, Goto(row, col)) == t.(row := row, col := col, pending := false)
  {
    TwoParamsEffect(t, row + 1, col + 1, 0x48);
  }

  /** Foreground and background; characters are not affected. */
  function Attr(fg: nat, bg: nat): seq<nat> {
    TwoParams(if fg >= 8 then 90 + fg % 8 else 30 + fg, if bg >= 8 then 100 + bg % 8 else 40 + bg, 0x6D)
  }

  lemma {:induction false} AttrEffect(t: Term, fg: nat, bg: nat)
    requires Ok(t) && t.mode == Ground
    ensures Run(t, Attr(fg, bg)) == t
  {
    TwoParamsEffect(t, if fg >= 8 then 90 + fg % 8 else 30 + fg, if bg >= 8 then 100 + bg % 8 else 40 + bg, 0x6D);
  }

  function EraseLine(): seq<nat> { Intro() + [0x4B] }

  lemma {:induction false} EraseEffect(t: Term)
    requires Ok(t) && t.mode == Ground
    ensures Run(t, EraseLine()) == t.(grid := t.grid[t.row := t.grid[t.row][..t.col] + Blank(COLS - t.col)])
  {
    IntroEffect(t);
    RunConcat(t, Intro(), [0x4B]);
    RunOne(t.(mode := Control([0])), 0x4B);
  }

  /** `ESC [ ? 2 5 l ESC [ 2 J`: hides the cursor and clears the screen. */
  function Start(): seq<nat> { Intro() + [0x3F] + Digits(25) + [0x6C] + (Intro() + Digits(2) + [0x4A]) }

  lemma {:induction false} StartEffect(t: Term)
    requires Ok(t) && t.mode == Ground
    ensures Run(t, Start()) == t.(grid := seq(ROWS, _ => Blank(COLS)))
  {
    var a, b := Intro() + [0x3F] + Digits(25) + [0x6C], Intro() + Digits(2) + [0x4A];
    RunConcat(t, a, b);
    HideEffect(t);
    ClearEffect(t);
  }

  lemma {:induction false} HideEffect(t: Term)
    requires Ok(t) && t.mode == Ground
    ensures Run(t, Intro() + [0x3F] + Digits(25) + [0x6C]) == t
  {
    hide Digits, Intro, Run, Print;
    var u := t.(mode := Control([0]));
    IntroEffect(t);
    RunConcat(t, Intro() + [0x3F] + Digits(25), [0x6C]);
    RunConcat(t, Intro() + [0x3F], Digits(25));
    RunConcat(t, Intro(), [0x3F]);
    RunOne(u, 0x3F);
    assert [] + [0] == [0] && [] + [25] == [25];
    DigitsEffect(u, [], 25);
    RunOne(t.(mode := Control([25])), 0x6C);
  }

  lemma {:induction false} ClearEffect(t: Term)
    requires Ok(t) && t.mode == Ground
    ensures Run(t, Intro() + Digits(2) + [0x4A]) == t.(grid := seq(ROWS, _ => Blank(COLS)))
  {
    hide Digits, Intro, Run, Print;
    var u := t.(mode := Control([0]));
    IntroEffect(t);
    RunConcat(t, Intro() + Digits(2), [0x4A]);
    RunConcat(t, Intro(), Digits(2));
    assert [] + [0] == [0] && [] + [2] == [2];
    DigitsEffect(u, [], 2);
    RunOne(t.(mode := Control([2])), 0x4A);
  }

  lemma {:induction false} PrintEffect(t: Term, b: nat)
    requires Ok(t) && t.mode == Ground && !t.pending && b >= SPACE && b != 0x7F
    ensures Run(t, [b]) == t.(grid := t.grid[t.row := Written(t.grid[t.row], t.col, b)],
                              col := if t.col + 1 < COLS then t.col + 1 else t.col, pending := t.col + 1 == COLS)
  {
    RunOne(t, b);
  }
}
