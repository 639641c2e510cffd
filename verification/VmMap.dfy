/** The per-process region list: a doubly linked list of entries, spliced in place. */
module VmMap {
  import opened MachineWords
  import opened Sequences
  import opened Regions

  class MapEntry {
    var prev: MapEntry?
    var next: MapEntry?
    var start: nat
    var end: nat
    var obj: nat
    var offset: nat
    var prot: int
    var flags: int

    ghost function Value(): Region
      reads this
    {
      Region(start, end, obj, offset, prot, flags)
    }

    constructor (r: Region)
      ensures Value() == r && prev == null && next == null
    {
      start, end, obj, offset, prot, flags := r.start, r.end, r.obj, r.offset, r.prot, r.flags;
      prev, next := null, null;
    }
  }

  ghost function At(nodes: seq<MapEntry>, i: int): MapEntry? {
    if 0 <= i < |nodes| then nodes[i] else null
  }

  ghost predicate Linked(nodes: seq<MapEntry>, i: int)
    reads nodes
  {
    0 <= i < |nodes| && nodes[i].next == At(nodes, i + 1) && nodes[i].prev == At(nodes, i - 1)
  }

  /** `nodes` is the list from `head`, linked both ways. */
  ghost predicate Chain(head: MapEntry?, nodes: seq<MapEntry>)
    reads nodes
  {
    head == At(nodes, 0) && Distinct(nodes) && forall i :: 0 <= i < |nodes| ==> Linked(nodes, i)
  }

  ghost function Values(nodes: seq<MapEntry>): (rs: seq<Region>)
    reads nodes
    ensures |rs| == |nodes| && forall i :: 0 <= i < |nodes| ==> rs[i] == nodes[i].Value()
  {
    seq(|nodes|, i requires 0 <= i < |nodes| reads nodes => nodes[i].Value())
  }

  /** A node is a neighbour of position `k` only by its index. */
  lemma Neighbours(nodes: seq<MapEntry>, k: nat)
    requires Distinct(nodes)
    ensures forall i :: 0 <= i < |nodes| ==>
              && nodes[i] in nodes && (nodes[i] == At(nodes, k) <==> i == k)
              && (nodes[i] == At(nodes, k - 1) <==> i == k - 1)
  {
  }

  ghost function SplicedAt(was: seq<MapEntry>, e: MapEntry, k: nat, i: nat): MapEntry
    requires k <= |was| && i <= |was|
  {
    if i < k then was[i] else if i == k then e else was[i - 1]
  }

  lemma SpliceIndices(was: seq<MapEntry>, e: MapEntry, k: nat)
    requires k <= |was| && Distinct(was) && e !in was
    ensures var nodes := was[..k] + [e] + was[k..];
            Distinct(nodes) && forall i :: 0 <= i < |nodes| ==> nodes[i] == SplicedAt(was, e, k, i)
  {
    assert forall m :: 0 <= m < |was| ==> was[m] in was;
  }

  ghost function SkipNext(nodes: seq<MapEntry>, k: nat, i: int): MapEntry? {
    At(nodes, if i + 1 == k then k + 1 else i + 1)
  }

  ghost function SkipPrev(nodes: seq<MapEntry>, k: nat, i: int): MapEntry? {
    At(nodes, if i - 1 == k then k - 1 else i - 1)
  }

  lemma DropIndices(was: seq<MapEntry>, k: nat)
    requires k < |was| && Distinct(was)
    ensures var nodes := was[..k] + was[k + 1..];
            Distinct(nodes) && forall i :: 0 <= i < |nodes| ==> nodes[i] == was[if i < k then i else i + 1]
  {
  }

  lemma DropNeighbours(was: seq<MapEntry>, k: nat, i: nat)
    requires k < |was| && i < |was| - 1
    ensures var nodes := was[..k] + was[k + 1..];
            var j := if i < k then i else i + 1;
            && nodes[i] == was[j] && SkipNext(was, k, j) == At(nodes, i + 1) && SkipPrev(was, k, j) == At(nodes, i - 1)
  {
  }

  /** A list whose nodes skip entry `k` is the list without it. */
  lemma {:induction false} DropChain(was: seq<MapEntry>, nodes: seq<MapEntry>, head: MapEntry?, k: nat)
    requires k < |was| && Distinct(was) && nodes == was[..k] + was[k + 1..]
    requires head == if k == 0 then At(was, 1) else At(was, 0)
    requires forall i :: 0 <= i < |was| && i != k ==> was[i].next == SkipNext(was, k, i)
    requires forall i :: 0 <= i < |was| && i != k ==> was[i].prev == SkipPrev(was, k, i)
    ensures Chain(head, nodes)
  {
    DropIndices(was, k);
    hide SkipNext, SkipPrev, Distinct;
    forall i | 0 <= i < |nodes| ensures Linked(nodes, i) {
      DropNeighbours(was, k, i);
    }
  }

  lemma DropValues(was: seq<MapEntry>, k: nat, rs: seq<Region>)
    requires k < |was| == |rs| && forall i :: 0 <= i < |was| ==> was[i].Value() == rs[i]
    ensures Values(was[..k] + was[k + 1..]) == rs[..k] + rs[k + 1..]
  {
  }

  lemma InsertValues(was: seq<MapEntry>, e: MapEntry, k: nat, rs: seq<Region>)
    requires k <= |was| == |rs| && forall i :: 0 <= i < |was| ==> was[i].Value() == rs[i]
    ensures Values(was[..k] + [e] + was[k..]) == InsertAt(rs, k, e.Value())
  {
  }

  class RegionMap {
    var head: MapEntry?
    var nentries: nat
    var minOffset: nat
    var maxOffset: nat
    ghost var nodes: seq<MapEntry>
    ghost var repr: set<MapEntry>

    ghost predicate Owned()
      reads this
    {
      forall x :: x in nodes ==> x in repr
    }

    /** The list is well linked. Whether its regions are ordered is a separate matter: see `Ordered`. */
    ghost predicate Valid()
      reads this, nodes
    {
      Owned() && Chain(head, nodes) && nentries == |nodes|
    }

    ghost function View(): seq<Region>
      reads this, nodes
    {
      Values(nodes)
    }

    constructor (min: nat, max: nat)
      ensures Valid() && View() == [] && minOffset == min && maxOffset == max && repr == {}
    {
      head, nentries, minOffset, maxOffset, nodes, repr := null, 0, min, max, [], {};
    }

    /** Whether some region meets `[start, end)`. */
    method Overlap(start: nat, end: nat) returns (b: bool)
      requires Valid()
      ensures b <==> !Free(View(), start, end)
    {
      var e := head;
      ghost var k := 0;
      while e != null
        invariant 0 <= k <= |nodes| && e == At(nodes, k)
        invariant forall i :: 0 <= i < k ==> !Meets(View()[i], start, end)
        decreases |nodes| - k
      {
        assert Linked(nodes, k) && e.Value() == View()[k];
        if e.start < end && e.end > start { return true; }
        e := e.next;
        k := k + 1;
      }
      b := false;
    }

    /** The region holding an address, if any. */
    method FindEntry(addr: nat) returns (e: MapEntry?)
      requires Valid()
      ensures e != null ==> e in nodes && e.start <= addr < e.end
      ensures e == null <==> forall i :: 0 <= i < |View()| ==> !(View()[i].start <= addr < View()[i].end)
    {
      e := head;
      ghost var k := 0;
      while e != null
        invariant 0 <= k <= |nodes| && e == At(nodes, k)
        invariant forall i :: 0 <= i < k ==> !(View()[i].start <= addr < View()[i].end)
        decreases |nodes| - k
      {
        assert Linked(nodes, k) && e.Value() == View()[k];
        if e.start <= addr && addr < e.end { return; }
        e := e.next;
        k := k + 1;
      }
    }

    /** The four pointer writes that link `e` between two neighbours. */
    method Relink(e: MapEntry, prev: MapEntry?, next: MapEntry?, ghost k: nat)
      requires Owned() && Chain(head, nodes) && k <= |nodes| && prev == At(nodes, k - 1) && next == At(nodes, k)
      requires e !in nodes
      modifies this`head, e`prev, e`next, repr`prev, repr`next
      ensures e.next == At(nodes, k) && e.prev == At(nodes, k - 1)
      ensures head == if k == 0 then e else old(head)
      ensures forall i :: 0 <= i < |nodes| ==> nodes[i].next == (if i == k - 1 then e else At(nodes, i + 1))
      ensures forall i :: 0 <= i < |nodes| ==> nodes[i].prev == (if i == k then e else At(nodes, i - 1))
    {
      hide Distinct;
      Neighbours(nodes, k);
      e.next := next;
      e.prev := prev;
      if next != null { next.prev := e; }
      if prev == null { head := e; } else { prev.next := e; }
      forall i | 0 <= i < |nodes|
        ensures nodes[i].next == (if i == k - 1 then e else At(nodes, i + 1))
        ensures nodes[i].prev == (if i == k then e else At(nodes, i - 1))
      {
        assert old(Linked(nodes, i));
      }
    }

    /** Links a new entry between two neighbours. */
    method Splice(e: MapEntry, prev: MapEntry?, next: MapEntry?, ghost k: nat)
      requires Owned() && Chain(head, nodes) && k <= |nodes| && prev == At(nodes, k - 1) && next == At(nodes, k)
      requires e !in nodes
      modifies this`head, this`nodes, e`prev, e`next, repr`prev, repr`next
      ensures nodes == old(nodes[..k] + [e] + nodes[k..]) && Chain(head, nodes)
    {
      ghost var was := nodes;
      Relink(e, prev, next, k);
      nodes := was[..k] + [e] + was[k..];
      SpliceIndices(was, e, k);
      forall i | 0 <= i < |nodes| ensures Linked(nodes, i) {
        assert nodes[i] == SplicedAt(was, e, k, i);
      }
    }

    /** The neighbours between which `addr` belongs. */
    method Seek(addr: nat) returns (prev: MapEntry?, cur: MapEntry?, ghost k: nat)
      requires Valid()
      ensures k == Position(View(), addr) && prev == At(nodes, k - 1) && cur == At(nodes, k)
    {
      prev, cur, k := null, head, 0;
      while cur != null && cur.start < addr
        invariant k <= |nodes| && prev == At(nodes, k - 1) && cur == At(nodes, k)
        invariant forall i :: 0 <= i < k ==> View()[i].start < addr
        decreases |nodes| - k
      {
        assert Linked(nodes, k) && cur.Value() == View()[k];
        prev := cur;
        cur := cur.next;
        k := k + 1;
      }
      assert k < |nodes| ==> nodes[k].Value() == View()[k];
      PositionUnique(View(), addr, k);
    }

    /** Links a prepared entry in at its place. */
    method LinkIn(e: MapEntry)
      requires Valid() && e !in nodes
      modifies this`head, this`nodes, this`nentries, this`repr, repr`prev, repr`next, e`prev, e`next
      ensures repr == old(repr) + {e}
      ensures Valid() && View() == Insert(old(View()), e.Value()) && e.Value() == old(e.Value())
    {
      hide Position, Linked, Distinct;
      ghost var rs, was := View(), nodes;
      var prev, cur, k := Seek(e.start);
      Splice(e, prev, cur, k);
      nentries := nentries + 1;
      repr := repr + {e};
      InsertValues(was, e, k, rs);
    }

    /** Allocates an entry for a region and links it in. */
    method Enter(reg: Region)
      requires Valid()
      modifies this`head, this`nodes, this`nentries, this`repr, repr`prev, repr`next
      ensures Valid() && View() == Insert(old(View()), reg) && fresh(repr - old(repr))
    {
      hide Linked, Distinct, Position;
      var e := new MapEntry(reg);
      LinkIn(e);
    }

    /** Adds a region at a fixed address, in order; refuses empty, misaligned and overlapping requests. The end
        is a 64-bit sum: an ordered list stays ordered if and only if it does not wrap. `memory` says whether
        the entry could be allocated. */
    method Fixed(obj: nat, offset: nat, addr: nat, size: nat, prot: int, flags: int, memory: bool) returns (r: int)
      requires Valid() && addr < W64 && size < W64
      modifies this`head, this`nodes, this`nentries, this`repr, repr`prev, repr`next
      ensures Valid() && (r == 0 || r == -1) && fresh(repr - old(repr))
      ensures r == 0 <==>
                RoundUp(size) > 0 && addr % PAGE == 0 && old(Free(View(), addr, Wrap(addr + RoundUp(size)))) && memory
      ensures r == 0 ==> View() == Insert(old(View()), Placed(addr, RoundUp(size), obj, offset, prot, flags))
      ensures r == 0 ==> Region(addr, Wrap(addr + RoundUp(size)), obj, offset, prot, flags) in View()
      ensures r == -1 ==> nodes == old(nodes) && View() == old(View())
      ensures old(Ordered(View())) ==> (Ordered(View()) <==> r == -1 || addr + RoundUp(size) < W64)
    {
      hide Chain, Ordered, Insert, Values, Free, RoundUp;
      var n := RoundUp(size);
      RoundUpFacts(size);
      if n == 0 || addr % PAGE != 0 { return -1; }
      var clash := Overlap(addr, Wrap(addr + n));
      if clash { return -1; }
      if !memory { return -1; }
      if Ordered(View()) { PlacedOrdered(View(), addr, n, obj, offset, prot, flags); }
      InsertHolds(View(), Placed(addr, n, obj, offset, prot, flags));
      Enter(Region(addr, Wrap(addr + n), obj, offset, prot, flags));
      r := 0;
    }

    /** Adds a region at the first candidate at or above the hint, in steps of 1 MB, that passes the bound and
        is free. All sums are 64-bit: an ordered list stays ordered if and only if the region does not wrap. */
    method Find(obj: nat, offset: nat, hint: nat, size: nat, prot: int, flags: int, memory: bool) returns (r: int,
                addr: nat)
      requires Valid() && hint < W64 && size < W64 && minOffset < W64
      modifies this`head, this`nodes, this`nentries, this`repr, repr`prev, repr`next
      ensures Valid() && (r == 0 || r == -1) && fresh(repr - old(repr)) && addr < W64
      ensures r == 0 ==> Region(addr, Wrap(addr + RoundUp(size)), obj, offset, prot, flags) in View()
      ensures r == 0 ==>
        && View() == Insert(old(View()), Placed(addr, RoundUp(size), obj, offset, prot, flags))
        && exists k: nat :: FirstFit(old(View()), SearchBase(hint, old(minOffset)), RoundUp(size), old(maxOffset), k)
                       && addr == Candidate(SearchBase(hint, old(minOffset)), k)
      ensures r == -1 ==> View() == old(View())
      ensures r == -1 <==>
                || RoundUp(size) == 0 || !memory
                || NoFit(old(View()), SearchBase(hint, old(minOffset)), RoundUp(size), old(maxOffset))
      ensures old(Ordered(View())) ==> (Ordered(View()) <==> r == -1 || addr + RoundUp(size) < W64)
      ensures old(Bounded(View(), minOffset, maxOffset)) ==> Bounded(View(), minOffset, maxOffset)
      ensures r == 0 && old(Bounded(View(), minOffset, maxOffset)) ==>
                (minOffset <= addr && addr + RoundUp(size) <= maxOffset
                 <==> StartsInside(old(View()), hint, RoundUp(size), minOffset))
    {
      hide Ordered, Chain, FirstFit, NoFit, Free, SearchBase, Insert, Values, RoundUp, Vacant, Bounded, StartsInside;
      var n := RoundUp(size);
      RoundUpFacts(size);
      addr := hint;
      if n == 0 { return -1, addr; }
      SearchAligned(hint, minOffset);
      var found, candidate, k := Search(hint, n);
      if !found { return -1, addr; }
      addr := candidate;
      FitOrNone(View(), SearchBase(hint, minOffset), n, maxOffset, k);
      CandidateAligned(SearchBase(hint, minOffset), k);
      VacantIsFree(View(), SearchBase(hint, minOffset), n, k);
      FoundBounded(View(), hint, n, minOffset, maxOffset, k, Placed(candidate, n, obj, offset, prot, flags));
      r := Fixed(obj, offset, candidate, n, prot, flags, memory);
    }

    /** The search loop of Find. */
    method Search(hint: nat, n: nat) returns (found: bool, candidate: nat, ghost k: nat)
      requires Valid() && n > 0
      ensures found ==> FirstFit(View(), SearchBase(hint, minOffset), n, maxOffset, k)
      ensures found ==> candidate == Candidate(SearchBase(hint, minOffset), k)
      ensures !found ==> NoFit(View(), SearchBase(hint, minOffset), n, maxOffset)
    {
      hide Chain, Free, RoundUp;
      ghost var base := SearchBase(hint, minOffset);
      candidate := if hint != 0 then hint else DEFAULT_BASE;
      if candidate < minOffset { candidate := minOffset; }
      candidate := RoundUp(candidate);
      SearchStart(hint, minOffset);
      var tries := 0;
      k := 0;
      while Wrap(candidate + n) <= maxOffset && tries < TRIES
        decreases TRIES - tries
        invariant 0 <= tries <= TRIES && tries == k && candidate == Candidate(base, k)
        invariant Passed(View(), base, n, maxOffset, k)
      {
        var clash := Overlap(candidate, Wrap(candidate + n));
        if !clash { return true, candidate, k; }
        candidate := Wrap(candidate + STRIDE);
        tries := tries + 1;
        k := k + 1;
      }
      assert GivesUp(View(), base, n, maxOffset, k);
      found := false;
    }

    /** The pointer writes that make the list skip entry `k`. */
    method Bypass(e: MapEntry, ghost k: nat)
      requires Owned() && Chain(head, nodes) && k < |nodes| && e == nodes[k]
      modifies this`head, repr`prev, repr`next
      ensures head == if k == 0 then At(nodes, 1) else old(head)
      ensures forall i :: 0 <= i < |nodes| && i != k ==> nodes[i].next == SkipNext(nodes, k, i)
      ensures forall i :: 0 <= i < |nodes| && i != k ==> nodes[i].prev == SkipPrev(nodes, k, i)
    {
      assert forall i :: 0 <= i < |nodes| ==> nodes[i] in nodes;
      assert Linked(nodes, k);
      if e.prev != null { e.prev.next := e.next; } else { head := e.next; }
      if e.next != null { e.next.prev := e.prev; }
      forall i | 0 <= i < |nodes| && i != k
        ensures nodes[i].next == SkipNext(nodes, k, i)
        ensures nodes[i].prev == SkipPrev(nodes, k, i)
      {
        assert old(Linked(nodes, i));
      }
    }

    /** Takes entry `k` out of the list. */
    method Unlink(e: MapEntry, ghost k: nat)
      requires Owned() && Chain(head, nodes) && k < |nodes| && e == nodes[k]
      modifies this`head, this`nodes, repr`prev, repr`next
      ensures nodes == old(nodes[..k] + nodes[k + 1..]) && Owned() && Chain(head, nodes)
    {
      hide SkipNext, SkipPrev, At, Distinct, Linked;
      ghost var was := nodes;
      Bypass(e, k);
      assert nodes == was;
      DropChain(nodes, nodes[..k] + nodes[k + 1..], head, k);
      nodes := was[..k] + was[k + 1..];
    }

    /** One round of the removal loop. */
    method RemoveAt(e: MapEntry, start: nat, end: nat, ghost k: nat) returns (next: MapEntry?)
      requires Owned() && Chain(head, nodes) && nentries == |nodes| && k < |nodes| && e == nodes[k]
      modifies this`head, this`nodes, this`nentries, repr`prev, repr`next
      ensures Owned() && Chain(head, nodes) && nentries == |nodes|
      ensures var rs := old(Values(nodes));
              && Values(nodes) == (if Within(rs[k], start, end) then rs[..k] + rs[k + 1..] else rs)
              && next == At(nodes, if Within(rs[k], start, end) then k else k + 1)
    {
      assert Linked(nodes, k) && e.Value() == Values(nodes)[k];
      next := e.next;
      if e.start >= start && e.end <= end {
        hide Linked, Distinct;
        ghost var was, rs := nodes, Values(nodes);
        Unlink(e, k);
        nentries := nentries - 1;
        DropValues(was, k, rs);
      }
    }

    /** The removal loop: every entry is looked at once. */
    lemma HeadFirst()
      requires Chain(head, nodes)
      ensures head == At(nodes, 0) && At(nodes, |nodes|) == null
    {
    }

    method RemoveLoop(start: nat, end: nat)
      requires Owned() && Chain(head, nodes) && nentries == |nodes|
      modifies this`head, this`nodes, this`nentries, repr`prev, repr`next
      ensures Owned() && Chain(head, nodes) && nentries == |nodes|
      ensures Values(nodes) == Outside(old(Values(nodes)), start, end)
    {
      hide Linked, Distinct, Outside, Within, Progress, Kept, Values, Chain;
      HeadFirst();
      ghost var rs := Values(nodes);
      RoundsEnds(rs, start, end);
      var e := head;
      ghost var i := 0;
      while e != null
        invariant 0 <= i <= |rs| && Owned() && Chain(head, nodes) && nentries == |nodes|
        invariant Values(nodes) == Progress(rs, start, end, i) && e == At(nodes, Kept(rs, start, end, i))
        decreases |rs| - i
      {
        RoundsSize(rs, start, end, i);
        RoundsStep(rs, start, end, i);
        e := RemoveAt(e, start, end, Kept(rs, start, end, i));
        i := i + 1;
      }
      RoundsSize(rs, start, end, i);
    }

    /** Drops exactly the regions that lie wholly inside `[start, end)`. */
    method Remove(start: nat, end: nat)
      requires Valid()
      modifies this`head, this`nodes, this`nentries, repr`prev, repr`next
      ensures Valid() && View() == Outside(old(View()), start, end) && (old(Ordered(View())) ==> Ordered(View()))
    {
      if Ordered(View()) { OutsideOrdered(View(), start, end); }
      hide Chain, Ordered, Outside, Values;
      RemoveLoop(start, end);
    }
  }

  /** Copies the regions of `src` into the empty map `dst`, one fixed mapping each. */
  method CopyTo(dst: RegionMap, src: RegionMap, memory: seq<bool>)
    requires src.Valid() && dst.Valid() && dst != src && dst.View() == [] && dst.repr !! src.repr
    requires |memory| == |src.View()| && Words(src.View())
    modifies dst, dst.repr`prev, dst.repr`next
    ensures src.Valid() && src.View() == old(src.View())
    ensures dst.Valid() && dst.View() == CopyFold(src.View(), memory)
    ensures Ordered(src.View()) ==> dst.View() == Copies(src.View(), memory)
  {
    hide *;
    ghost var rs := src.View();
    CopyLoop(dst, src, memory);
    if Ordered(rs) { CopyOrdered(rs, memory); }
  }

  method CopyLoop(dst: RegionMap, src: RegionMap, memory: seq<bool>)
    requires src.Valid() && dst.Valid() && dst != src && dst.View() == [] && dst.repr !! src.repr
    requires |memory| == |src.View()| && Words(src.View())
    modifies dst, dst.repr`prev, dst.repr`next
    ensures src.Valid() && src.View() == old(src.View())
    ensures dst.Valid() && dst.View() == CopyFold(src.View(), memory)
  {
    hide Ordered, Chain, Copies, CopyFold, CopyOne, RoundUp;
    ghost var rs := src.View();
    var e := src.head;
    var i: nat := 0;
    ListStart(src);
    ListEnd(rs, memory);
    while e != null
      invariant i <= |rs| && e == At(src.nodes, i)
      invariant src.Valid() && src.View() == rs && dst.Valid() && dst.repr !! src.repr
      invariant fresh(dst.repr - old(dst.repr))
      invariant dst.View() == CopyFold(rs[..i], memory[..i])
      decreases |rs| - i
    {
      ListNode(src, i);
      CopyFoldStep(rs, memory, i);
      CopyEntry(dst, e, memory[i]);
      e := e.next;
      i := i + 1;
    }
    assert rs[..i] == rs && memory[..i] == memory;
  }

  /** The fixed mapping of one source entry. */
  method CopyEntry(dst: RegionMap, e: MapEntry, memory: bool)
    requires dst.Valid() && e !in dst.repr && e.start < W64 && e.end < W64
    modifies dst, dst.repr`prev, dst.repr`next
    ensures dst.Valid() && fresh(dst.repr - old(dst.repr)) && dst.View() == CopyOne(old(dst.View()), e.Value(), memory)
  {
    hide Ordered, Chain, Insert, Values, Free;
    NoSize();
    var size := if e.end > e.start then e.end - e.start else 0;
    if size != 0 {
      var _ := dst.Fixed(0, 0, e.start, size, e.prot, e.flags, memory);
    }
  }

  lemma NoSize()
    ensures RoundUp(0) == 0
  {
  }

  lemma ListStart(m: RegionMap)
    requires m.Valid()
    ensures m.head == At(m.nodes, 0)
  {
  }

  lemma ListEnd(rs: seq<Region>, memory: seq<bool>)
    requires |memory| == |rs|
    ensures CopyFold(rs[..0], memory[..0]) == []
  {
  }

  lemma ListNode(m: RegionMap, i: nat)
    requires m.Valid() && i < |m.nodes|
    ensures m.nodes[i].next == At(m.nodes, i + 1) && m.nodes[i].Value() == m.View()[i]
  {
    assert Linked(m.nodes, i);
  }
}
