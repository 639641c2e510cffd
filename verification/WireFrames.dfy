/** Which frames belong to whom: no frame backs two pages of objects, and none that backs one
    is a page table. */
module WireFrames {
  import opened Buddy
  import opened Paging
  import opened PageTables
  import opened Regions
  import opened WireSteps

  /** The page has a frame: one in use, and not one of the tables `held`. */
  ghost predicate Backing(pa: nat, held: set<nat>, used: set<nat>) {
    HeapPage(pa) && FrameOf(pa) in used && pa !in held
  }

  ghost predicate HasFrame(objs: seq<seq<nat>>, o: nat, i: nat) {
    o < |objs| && i < |objs[o]| && objs[o][i] != 0
  }

  /** No two pages share a frame, and no page lies in a table. */
  ghost predicate Apart(objs: seq<seq<nat>>, held: set<nat>, used: set<nat>) {
    && (forall o: nat, i: nat :: HasFrame(objs, o, i) ==> Backing(objs[o][i], held, used))
    && (forall o: nat, i: nat, o': nat, i': nat :: HasFrame(objs, o, i) && HasFrame(objs, o', i') ==>
          objs[o][i] == objs[o'][i'] ==> o == o' && i == i')
  }

  /** What the frames of pages and tables must be for a frame to be given away. */
  ghost predicate HeldInUse(held: set<nat>, tables: set<nat>, used: set<nat>) {
    forall t :: t in held ==> t in tables || (HeapPage(t) && FrameOf(t) in used)
  }

  lemma {:induction false} ApartStored(objs: seq<seq<nat>>, held: set<nat>, used: set<nat>, used': set<nat>, o: nat,
                                       idx: nat, p: nat)
    requires Apart(objs, held, used) && used <= used' && o < |objs| && idx < |objs[o]|
    requires HeapPage(p) && FrameOf(p) !in used && FrameOf(p) in used' && p !in held
    ensures Apart(objs[o := Stored(objs[o], idx, p)], held, used')
  {
    var objs' := objs[o := Stored(objs[o], idx, p)];
    forall k: nat, i: nat | HasFrame(objs', k, i)
      ensures Backing(objs'[k][i], held, used') && (objs'[k][i] == p ==> k == o && i == idx)
      ensures k != o || i != idx ==> HasFrame(objs, k, i) && objs'[k][i] == objs[k][i]
    {
      if k != o || i != idx {
        assert HasFrame(objs, k, i);
      }
    }
  }

  /** Tables in frames that were free, and more frames in use, do not touch pages. */
  lemma {:induction false} ApartTables(objs: seq<seq<nat>>, held: set<nat>, used: set<nat>, held': set<nat>,
                                       used': set<nat>)
    requires Apart(objs, held, used) && NewHeld(held, held', used) && used <= used'
    ensures Apart(objs, held', used')
  {
    forall o: nat, i: nat | HasFrame(objs, o, i) ensures Backing(objs[o][i], held', used') {
      assert Backing(objs[o][i], held, used);
    }
  }

  lemma {:induction false} ApartEmpty(objs: seq<seq<nat>>, held: set<nat>, used: set<nat>, n: nat)
    requires Apart(objs, held, used)
    ensures Apart(objs + [seq(n, _ => 0)], held, used)
  {
    var objs' := objs + [seq(n, _ => 0)];
    assert forall o: nat, i: nat :: HasFrame(objs', o, i) ==> HasFrame(objs, o, i) && objs'[o][i] == objs[o][i];
  }

  /** The frame tells which page of which object it is, and is never a table. */
  lemma {:induction false} OwnFrame(objs: seq<seq<nat>>, held: set<nat>, used: set<nat>, w: Window, w': Window, va: nat,
                                    va': nat, pa: nat)
    requires Apart(objs, held, used) && FrameFor(objs, w, va, pa) && FrameFor(objs, w', va', pa)
    ensures w.o == w'.o && PageNo(w, va) == PageNo(w', va') && pa !in held
  {
    assert HasFrame(objs, w.o, PageNo(w, va)) && HasFrame(objs, w'.o, PageNo(w', va'));
  }

  /** Two addresses fed with the same frame lie at the same page of one object. */
  lemma {:induction false} SharedFrame(rs: seq<Region>, objs: seq<seq<nat>>, held: set<nat>, used: set<nat>, i: nat,
                                       a: nat, m: Mapping, j: nat, b: nat, m': Mapping)
    requires Apart(objs, held, used) && FromRegion(rs, objs, i, a, m) && FromRegion(rs, objs, j, b, m')
    requires m.pa - a % 0x1000 == m'.pa - b % 0x1000
    ensures rs[i].obj == rs[j].obj && m.pa - a % 0x1000 !in held
    ensures PageNo(WindowOf(rs[i], 0, 0), PageBase(a)) == PageNo(WindowOf(rs[j], 0, 0), PageBase(b))
  {
    hide PageBase, Apart;
    OwnFrame(objs, held, used, WindowOf(rs[i], 0, 0), WindowOf(rs[j], 0, 0), PageBase(a), PageBase(b),
             m.pa - a % 0x1000);
  }
}
