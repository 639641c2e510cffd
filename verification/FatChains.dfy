/** Cluster chains in the allocation table, and what linking and freeing do to them. */
module FatChains {
  import opened Sequences
  import opened FatDisk

  ghost predicate Apart(s: seq<nat>, t: seq<nat>) { forall c :: c in s ==> c !in t }

  ghost predicate Link(f: seq<nat>, s: seq<nat>, i: nat) {
    && i < |s| && 2 <= s[i] < |f|
    && (if i + 1 < |s| then f[s[i]] == s[i + 1] else f[s[i]] >= EOC)
  }

  /** `s` lists the clusters of a chain: no repeats, ended by an end mark. */
  ghost predicate IsChain(f: seq<nat>, s: seq<nat>) {
    |s| > 0 && Distinct(s) && forall i :: 0 <= i < |s| ==> Link(f, s, i)
  }

  lemma ChainBusy(f: seq<nat>, s: seq<nat>, c: nat)
    requires IsChain(f, s) && c in s
    ensures 2 <= c < |f| && f[c] != 0
  {
    var i :| 0 <= i < |s| && s[i] == c;
    assert Link(f, s, i);
    assert i + 1 < |s| ==> Link(f, s, i + 1);
  }

  /** A table has one chain from each cluster. */
  lemma {:induction false} ChainUnique(f: seq<nat>, s: seq<nat>, t: seq<nat>, i: nat)
    requires IsChain(f, s) && IsChain(f, t) && s[0] == t[0] && |f| < EOC
    requires i < |s| && i < |t| && s[..i + 1] == t[..i + 1]
    ensures s == t
    decreases |s| - i
  {
    assert Link(f, s, i) && Link(f, t, i) && s[i] == s[..i + 1][i] == t[i];
    assert i + 1 < |s| ==> Link(f, s, i + 1);
    assert i + 1 < |t| ==> Link(f, t, i + 1);
    if i + 1 < |s| {
      assert s[..i + 2] == s[..i + 1] + [s[i + 1]] && t[..i + 2] == t[..i + 1] + [t[i + 1]];
      ChainUnique(f, s, t, i + 1);
    } else {
      assert s == s[..i + 1] && t == t[..i + 1];
    }
  }

  /** What the entry of the `i`-th cluster says. */
  lemma ChainNext(f: seq<nat>, s: seq<nat>, i: nat)
    requires IsChain(f, s) && i < |s| && |f| < EOC
    ensures s[i] < |f| && f[s[i]] != 0 && f[s[i]] != 1
    ensures if f[s[i]] >= EOC then i == |s| - 1 else i + 1 < |s| && s[i + 1] == f[s[i]]
  {
    assert Link(f, s, i);
    assert i + 1 < |s| ==> Link(f, s, i + 1);
  }

  /** Changing entries outside a chain does not touch it. */
  lemma ChainFrame(f: seq<nat>, f': seq<nat>, s: seq<nat>)
    requires IsChain(f, s) && |f'| == |f| && forall c :: c in s && c < |f| ==> f'[c] == f[c]
    ensures IsChain(f', s)
  {
    forall i: nat | i < |s| ensures Link(f', s, i) { assert Link(f, s, i) && s[i] in s; }
  }

  /** The two writes that append free cluster `n` to a chain. */
  ghost function Appended(f: seq<nat>, s: seq<nat>, n: nat): seq<nat>
    requires |s| > 0 && s[|s| - 1] < |f| && n < |f|
  {
    f[s[|s| - 1] := n][n := LAST]
  }

  lemma AppendChain(f: seq<nat>, s: seq<nat>, n: nat)
    requires IsChain(f, s) && 2 <= n < |f| < EOC && f[n] == 0
    ensures s[|s| - 1] < |f| && IsChain(Appended(f, s, n), s + [n]) && n !in s
  {
    var k := |s| - 1;
    assert Link(f, s, k);
    FreeApart(f, s, n);
    var f', t := Appended(f, s, n), s + [n];
    forall i: nat | i < |t| ensures Link(f', t, i) {
      if i <= k {
        assert Link(f, s, i);
        assert s[i] in s;
        assert i < k ==> s[i] != s[k];
      }
    }
  }

  /** A free cluster is on no chain. */
  lemma FreeApart(f: seq<nat>, s: seq<nat>, n: nat)
    requires IsChain(f, s) && n < |f| && f[n] == 0
    ensures n !in s
  {
    if n in s { ChainBusy(f, s, n); }
  }

  ghost function Zeroed(f: seq<nat>, s: seq<nat>): (r: seq<nat>)
    ensures |r| == |f| && forall c :: 0 <= c < |f| ==> r[c] == if c in s then 0 else f[c]
  {
    seq(|f|, c requires 0 <= c < |f| => if c in s then 0 else f[c])
  }
}
