/** Byte-addressed memory and little-endian numbers in it. */
module ByteMemory {
  import opened MachineWords
  import opened Sequences

  // ---- little-endian numbers ---------------------------------------------------------------------

  function Le(v: nat, n: nat): (r: seq<nat>)
    ensures |r| == n && forall i :: 0 <= i < n ==> r[i] < 0x100
  {
    if n == 0 then [] else [v % 0x100] + Le(v / 0x100, n - 1)
  }

  function Num(s: seq<nat>): nat {
    if s == [] then 0 else s[0] + 0x100 * Num(s[1..])
  }

  function Power(n: nat): nat { if n == 0 then 1 else 0x100 * Power(n - 1) }

  lemma {:induction false} NumLe(v: nat, n: nat)
    requires v < Power(n)
    ensures Num(Le(v, n)) == v
  {
    if n > 0 {
      NumLe(v / 0x100, n - 1);
      assert Le(v, n)[1..] == Le(v / 0x100, n - 1);
    }
  }

  lemma Powers()
    ensures Power(4) == 0x1_0000_0000 && Power(8) == W64
  {
    assert Power(2) == 0x1_0000;
    assert Power(4) == 0x1_0000_0000;
    assert Power(6) == 0x1_0000_0000_0000;
  }

  ghost predicate Octets(s: seq<nat>) { forall i :: 0 <= i < |s| ==> s[i] < 0x100 }

  lemma {:induction false} NumBound(s: seq<nat>)
    requires Octets(s)
    ensures Num(s) < Power(|s|)
  {
    if s != [] { NumBound(s[1..]); }
  }

  /** The `n`-byte number at `off`. */
  function Word(data: seq<nat>, off: nat, n: nat): nat
    requires off + n <= |data|
  {
    Num(data[off..off + n])
  }

  lemma AtLe(data: seq<nat>, off: nat, n: nat, v: nat)
    requires off + n <= |data| && data[off..off + n] == Le(v, n) && v < Power(n)
    ensures Word(data, off, n) == v
  {
    NumLe(v, n);
  }

  // ---- memory ----------------------------------------------------------------------------------------

  type Bytes = map<nat, nat>

  /** Memory after `s` is stored at `dst`. */
  ghost function Overlay(m: Bytes, dst: nat, s: seq<nat>): (r: Bytes)
    ensures forall a: nat :: a in r <==> a in m || dst <= a < dst + |s|
    ensures forall a: nat :: a in r ==> r[a] == if dst <= a < dst + |s| then s[a - dst] else m[a]
  {
    if s == [] then m else Overlay(m, dst, s[..|s| - 1])[dst + |s| - 1 := s[|s| - 1]]
  }

  class Ram {
    var bytes: Bytes

    method Copy(dst: nat, src: seq<nat>)
      modifies this
      ensures bytes == Overlay(old(bytes), dst, src)
    {
      var j := 0;
      while j < |src|
        invariant j <= |src|
        invariant bytes == Overlay(old(bytes), dst, src[..j])
      {
        assert src[..j + 1][..j] == src[..j];
        bytes := bytes[dst + j := src[j]];
        j := j + 1;
      }
      assert src[..j] == src;
    }

    method Clear(lo: nat, hi: nat)
      modifies this
      ensures bytes == Overlay(old(bytes), lo, ZeroBytes(if lo < hi then hi - lo else 0))
    {
      var a := lo;
      while a < hi
        invariant lo <= a && (lo < hi ==> a <= hi) && (lo >= hi ==> a == lo)
        invariant bytes == Overlay(old(bytes), lo, ZeroBytes(a - lo))
      {
        assert ZeroBytes(a + 1 - lo)[..a - lo] == ZeroBytes(a - lo);
        bytes := bytes[a := 0];
        a := a + 1;
      }
    }
  }
}
