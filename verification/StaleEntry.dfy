/** A directory entry with its size bit set but not its present bit: tables where `map_user_4kb` succeeds and
    maps nothing. */
module StaleEntry {
  import opened Paging
  import opened PageTables

  const ROOT: nat := 0x1000

  function Lone(w: nat): (s: seq<nat>)
    ensures |s| == 512 && s[0] == w && forall i :: 0 < i < 512 ==> s[i] == 0
  {
    seq(512, (i: nat) => if i == 0 then w else 0)
  }

  /** One table per level, each with one entry; the directory's is the lone size bit. */
  function Tables(): Mem {
    map[0x1000 := Lone(TableWord(0x2000)), 0x2000 := Lone(TableWord(0x3000)), 0x3000 := Lone(0x80)]
  }

  function Levels(): map<nat, nat> { map[0x1000 := 4, 0x2000 := 3, 0x3000 := 2] }

  lemma {:induction false} TablesLeveled()
    ensures Leveled(Tables(), Levels())
  {
    TableWordFacts(0x2000);
    TableWordFacts(0x3000);
    hide FrameBits, TableWord;
  }

  /** A walk reaches a lower table only through entry 0. */
  lemma {:induction false} ReachLow(a: nat, k: nat)
    requires a < VA_LIMIT && 1 <= k <= 4
    ensures Reach(Tables(), ROOT, 4, a, k).Some? ==> k >= 2 && a / Span(k + 1) == 0
    ensures a == 0 && k == 2 ==>
              Reach(Tables(), ROOT, 4, a, k).Some? && Reach(Tables(), ROOT, 4, a, k).value.0 == 0x3000
  {
    var mem := Tables();
    TableWordFacts(0x2000);
    TableWordFacts(0x3000);
    hide FrameBits, TableWord;
    assert k == 4 ==> a / Span(5) == 0;
    if k < 4 {
      assert !Descends(0, 4) && !Descends(0, 3) && !Descends(0x80, 2) && !Descends(0, 2);
      if Index(a, 4) == 0 {
        assert a / Span(4) == 0;
        assert Entry(mem, 0x1000, 4, a) == TableWord(0x2000);
        if Index(a, 3) == 0 {
          assert a / Span(3) == 0;
          assert Entry(mem, 0x2000, 3, a) == TableWord(0x3000);
        } else {
          assert Entry(mem, 0x2000, 3, a) == 0;
        }
      } else {
        assert Entry(mem, 0x1000, 4, a) == 0;
      }
    }
  }

  /** Well-formed tables in which address 0 has such an entry. */
  lemma {:induction false} StaleExists()
    ensures Leveled(Tables(), Levels()) && Tree(Tables(), ROOT) && StaleHuge(Tables(), ROOT, 0)
  {
    TablesLeveled();
    forall k: nat, a: nat, b: nat | SameTable(Tables(), ROOT, k, a, b) && a < VA_LIMIT && b < VA_LIMIT
      ensures a / Span(k + 1) == b / Span(k + 1)
    {
      ReachLow(a, k);
      ReachLow(b, k);
    }
    ReachLow(0, 2);
    assert Index(0, 2) == 0 && Tables()[0x3000][0] == 0x80;
  }
}
