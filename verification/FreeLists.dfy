/** The doubly linked free lists. A list node lives in the first two words of the
    free block it stands for, so `next` and `prev` are indexed by frame number. */
module FreeLists {
  import opened Sequences
  import opened Frames
  import opened Tiling

  const NIL: int := -1

  ghost function Head(l: seq<nat>): int {
    if l == [] then NIL else l[0]
  }

  ghost function After(l: seq<nat>, i: nat): int
    requires i < |l|
  {
    if i + 1 < |l| then l[i + 1] else NIL
  }

  ghost function Before(l: seq<nat>, i: nat): int
    requires i < |l|
  {
    if i > 0 then l[i - 1] else NIL
  }

  ghost predicate Node(next: seq<int>, prev: seq<int>, l: seq<nat>, i: nat) {
    && i < |l| && l[i] < |next| == |prev|
    && next[l[i]] == After(l, i)
    && prev[l[i]] == Before(l, i)
  }

  ghost predicate Linked(head: int, next: seq<int>, prev: seq<int>, l: seq<nat>)
  {
    && |next| == |prev| == FRAME_COUNT
    && head == Head(l)
    && Distinct(l)
    && (forall h :: h in l ==> h < FRAME_COUNT)
    && forall i :: 0 <= i < |l| ==> Node(next, prev, l, i)
  }

  /** The list of each order holds exactly the free blocks of that order. */
  ghost predicate Lists(area: seq<int>, next: seq<int>, prev: seq<int>, ls: seq<seq<nat>>, bs: Blocks)
  {
    && |area| == |ls| == MAX_ORDER + 1
    && (forall o :: 0 <= o <= MAX_ORDER ==> Linked(area[o], next, prev, ls[o]))
    && (forall o: nat, h: nat :: o <= MAX_ORDER ==> (h in ls[o] <==> FreeAt(bs, h, o)))
  }

  ghost function Without(l: seq<nat>, i: nat): seq<nat>
    requires i < |l|
  {
    l[..i] + l[i + 1..]
  }

  // ---- insertion at the front -------------------------------------------------

  ghost function AddPrev(head: int, prev: seq<int>, b: nat): seq<int>
    requires b < |prev|
  {
    var p := prev[b := NIL];
    if 0 <= head < |p| then p[head := b] else p
  }

  lemma {:induction false} AddLinked(head: int, next: seq<int>, prev: seq<int>, l: seq<nat>, b: nat)
    requires Linked(head, next, prev, l) && b < FRAME_COUNT && b !in l
    ensures Linked(b, next[b := head], AddPrev(head, prev, b), [b] + l)
  {
    var l' := [b] + l;
    var next' := next[b := head];
    var prev' := AddPrev(head, prev, b);
    assert forall i :: 0 < i < |l'| ==> l'[i] == l[i - 1] && l[i - 1] in l;
    forall i: nat | i < |l'| ensures Node(next', prev', l', i) {
      assert i > 0 ==> Node(next, prev, l, i - 1);
      assert l != [] ==> Node(next, prev, l, 0);
    }
  }

  lemma LinkedFrame(head: int, next: seq<int>, prev: seq<int>, next': seq<int>, prev': seq<int>, l: seq<nat>)
    requires Linked(head, next, prev, l) && |next'| == |prev'| == FRAME_COUNT
    requires forall h :: h in l ==> next'[h] == next[h] && prev'[h] == prev[h]
    ensures Linked(head, next', prev', l)
  {
    forall i: nat | i < |l| ensures Node(next', prev', l, i) {
      assert Node(next, prev, l, i) && l[i] in l;
    }
  }

  lemma AddLists(area: seq<int>, next: seq<int>, prev: seq<int>, ls: seq<seq<nat>>, bs: Blocks, o: nat, b: nat)
    requires Lists(area, next, prev, ls, bs) && o <= MAX_ORDER && b < FRAME_COUNT == |next| == |prev|
    requires b !in bs || !bs[b].status.Free?
    ensures var bs' := bs[b := Block(o, Free)];
            Lists(area[o := b], next[b := area[o]], AddPrev(area[o], prev, b), ls[o := [b] + ls[o]], bs')
  {
    var bs' := bs[b := Block(o, Free)];
    var ls' := ls[o := [b] + ls[o]];
    var next', prev' := next[b := area[o]], AddPrev(area[o], prev, b);
    assert forall p: nat :: p <= MAX_ORDER ==> b !in ls[p];
    forall p | 0 <= p <= MAX_ORDER ensures Linked(area[o := b][p], next', prev', ls'[p]) {
      if p == o {
        AddLinked(area[o], next, prev, ls[o], b);
      } else {
        assert area[o] != NIL ==> area[o] in ls[o] && FreeAt(bs, area[o], o) && area[o] !in ls[p];
        LinkedFrame(area[p], next, prev, next', prev', ls[p]);
      }
    }
    forall p: nat, h: nat | p <= MAX_ORDER ensures h in ls'[p] <==> FreeAt(bs', h, p) {
      assert h in ls[p] <==> FreeAt(bs, h, p);
    }
  }

  // ---- removal ----------------------------------------------------------------

  ghost function RemoveNext(next: seq<int>, prev: seq<int>, b: nat): seq<int>
    requires b < |next| == |prev|
  {
    if 0 <= prev[b] < |next| then next[prev[b] := next[b]] else next
  }

  ghost function RemovePrev(next: seq<int>, prev: seq<int>, b: nat): seq<int>
    requires b < |next| == |prev|
  {
    if 0 <= next[b] < |prev| then prev[next[b] := prev[b]] else prev
  }

  ghost function RemoveHead(head: int, next: seq<int>, prev: seq<int>, b: nat): int
    requires b < |next| == |prev|
  {
    if prev[b] == NIL then next[b] else head
  }

  lemma {:induction false} RemoveLinked(head: int, next: seq<int>, prev: seq<int>, l: seq<nat>, k: nat)
    requires Linked(head, next, prev, l) && k < |l|
    ensures Node(next, prev, l, k)
    ensures Linked(RemoveHead(head, next, prev, l[k]), RemoveNext(next, prev, l[k]),
                   RemovePrev(next, prev, l[k]), Without(l, k))
  {
    var l' := Without(l, k);
    assert Node(next, prev, l, k);
    assert forall i :: 0 <= i < |l'| ==> l'[i] == l[Skip(k, i)] && l'[i] in l;
    forall i: nat | i < |l'| ensures Node(RemoveNext(next, prev, l[k]), RemovePrev(next, prev, l[k]), l', i) {
      RemoveNode(head, next, prev, l, k, i);
    }
  }

  /** Neighbours of a list node are frames other than the node, or absent. */
  lemma NodeBounds(head: int, next: seq<int>, prev: seq<int>, l: seq<nat>, k: nat)
    requires Linked(head, next, prev, l) && k < |l|
    ensures l[k] < |next| == |prev|
    ensures NIL <= next[l[k]] < FRAME_COUNT && next[l[k]] != l[k]
    ensures NIL <= prev[l[k]] < FRAME_COUNT && prev[l[k]] != l[k]
  {
    assert Node(next, prev, l, k);
    assert k + 1 < |l| ==> l[k + 1] in l;
    assert k > 0 ==> l[k - 1] in l;
  }

  ghost function Skip(k: nat, i: nat): nat { if i < k then i else i + 1 }

  lemma {:induction false} RemoveNode(head: int, next: seq<int>, prev: seq<int>, l: seq<nat>, k: nat, i: nat)
    requires Linked(head, next, prev, l) && k < |l| && i < |l| - 1
    ensures Node(next, prev, l, k)
    ensures Node(RemoveNext(next, prev, l[k]), RemovePrev(next, prev, l[k]), Without(l, k), i)
  {
    var j := Skip(k, i);
    assert Node(next, prev, l, k) && Node(next, prev, l, j);
    var l' := Without(l, k);
    assert l'[i] == l[j];
    assert i + 1 < |l'| ==> l'[i + 1] == l[Skip(k, i + 1)];
    assert i > 0 ==> l'[i - 1] == l[Skip(k, i - 1)];
    assert k > 0 ==> Node(next, prev, l, k - 1);
    assert k + 1 < |l| ==> Node(next, prev, l, k + 1);
    if i + 1 == k {
      assert prev[l[k]] == l[i];
    } else {
      assert prev[l[k]] != l[j];
    }
    if i == k {
      assert next[l[k]] == l[j];
    } else {
      assert next[l[k]] != l[j];
    }
  }

  lemma WithoutMembers(l: seq<nat>, k: nat, h: nat)
    requires k < |l| && Distinct(l)
    ensures h in Without(l, k) <==> h in l && h != l[k]
  {
    var l' := Without(l, k);
    if h in l && h != l[k] {
      var i :| 0 <= i < |l| && l[i] == h;
      assert l'[if i < k then i else i - 1] == h;
    }
  }

  lemma {:induction false} RemoveLists(area: seq<int>, next: seq<int>, prev: seq<int>, ls: seq<seq<nat>>, bs: Blocks,
                                       o: nat, k: nat)
    requires Lists(area, next, prev, ls, bs) && o <= MAX_ORDER && k < |ls[o]|
    ensures var b := ls[o][k];
            && b < |next| == |prev| && FreeAt(bs, b, o)
            && Lists(area[o := RemoveHead(area[o], next, prev, b)], RemoveNext(next, prev, b),
                     RemovePrev(next, prev, b), ls[o := Without(ls[o], k)], bs[b := Block(o, Hand)])
  {
    var b := ls[o][k];
    assert b in ls[o];
    RemoveLinked(area[o], next, prev, ls[o], k);
    var bs' := bs[b := Block(o, Hand)];
    var ls' := ls[o := Without(ls[o], k)];
    var next', prev' := RemoveNext(next, prev, b), RemovePrev(next, prev, b);
    var area' := area[o := RemoveHead(area[o], next, prev, b)];
    assert next[b] != NIL ==> next[b] in ls[o];
    assert prev[b] != NIL ==> prev[b] in ls[o];
    forall p | 0 <= p <= MAX_ORDER ensures Linked(area'[p], next', prev', ls'[p]) {
      if p != o {
        assert forall h :: h in ls[o] ==> FreeAt(bs, h, o) && h !in ls[p];
        LinkedFrame(area[p], next, prev, next', prev', ls[p]);
      }
    }
    forall p: nat, h: nat | p <= MAX_ORDER ensures h in ls'[p] <==> FreeAt(bs', h, p) {
      assert h in ls[p] <==> FreeAt(bs, h, p);
      if p == o { WithoutMembers(ls[o], k, h); }
    }
  }

  /** Changing what is not free leaves the lists as they are. */
  lemma ListsFrame(area: seq<int>, next: seq<int>, prev: seq<int>, ls: seq<seq<nat>>, bs: Blocks, bs': Blocks)
    requires Lists(area, next, prev, ls, bs)
    requires forall h: nat, o: nat :: FreeAt(bs', h, o) <==> FreeAt(bs, h, o)
    ensures Lists(area, next, prev, ls, bs')
  {
  }
}
