/** The abstract meaning of a 4-level page table and how physical memory holds it.

    A node of the table tree is named by its depth and by the leading address bits
    that lead to it. A `Tables` map says which frame holds the table at each table
    node, a `Pages` map gives the entry word of each mapped page. The two maps fix
    every word of every table page: `Rep` says that memory holds exactly those words,
    so the reference counts, the absence of sharing and the emptiness of unused slots
    are all part of one statement. */
module PageShape {
  import opened Basics
  import opened PageWords

  /** The node reached after `level` steps of the walk, along the address bits `num`. */
  datatype Key = Key(level: nat, num: nat)

  const ROOT := Key(0, 0)

  function Child(k: Key, i: nat): Key { Key(k.level + 1, k.num * 512 + i) }

  function Parent(c: Key): Key
    requires c.level > 0
  {
    Key(c.level - 1, c.num / 512)
  }

  function Index(c: Key): nat { c.num % 512 }

  type Tables = map<Key, Frame>
  type Pages = map<Key, Word>
  type Memory = map<nat, MemCell>

  /** Memory is total; an address that was never written reads as zero. */
  function CellAt(m: Memory, a: nat): MemCell {
    if a in m then m[a] else Entry(ZERO)
  }

  function Read(m: Memory, a: nat): Word { AsWord(CellAt(m, a)) }

  /** Address of entry `i` of the table in frame `f`. */
  function Slot(f: nat, i: nat): nat { f * 4096 + i * 8 }

  /** Node `c` has an entry: the table it hangs off exists. */
  predicate Hangs(tabs: Tables, c: Key) { c.level > 0 && Parent(c) in tabs }

  /** Address of the entry that leads to node `c`. */
  function Home(tabs: Tables, c: Key): nat {
    if Hangs(tabs, c) then Slot(tabs[Parent(c)], Index(c)) else 0
  }

  function LiveNodes(tabs: Tables, pages: Pages): set<Key> { tabs.Keys + pages.Keys }

  /** The used slots of table `k`. */
  function Kids(live: set<Key>, k: Key): set<nat> {
    set i: nat | i < 512 && Child(k, i) in live
  }

  function Num(live: set<Key>, k: Key): (n: nat)
    ensures n <= 512
  {
    KidsBound(live, k);
    |Kids(live, k)|
  }

  lemma KidsBound(live: set<Key>, k: Key)
    ensures |Kids(live, k)| <= 512
  {
    SubsetSize(Kids(live, k), UpTo(512));
    UpToSize(512);
  }

  function UpTo(n: nat): (s: set<nat>)
    ensures forall i: nat :: i in s <==> i < n
  {
    if n == 0 then {} else UpTo(n - 1) + {n - 1}
  }

  lemma UpToSize(n: nat)
    ensures |UpTo(n)| == n
  {
    if n > 0 { UpToSize(n - 1); }
  }

  // ----- the tree -----

  /** Tables form a tree below the root, no two in one frame, and pages hang off it. */
  ghost predicate Shape(tabs: Tables, pages: Pages) {
    && ROOT in tabs
    && (forall k {:trigger TableNode(tabs, k)} :: k in tabs ==> TableNode(tabs, k))
    && (forall c {:trigger PageNode(tabs, pages, c)} :: c in pages ==> PageNode(tabs, pages, c))
    && (forall j, k :: j in tabs && k in tabs && tabs[j] == tabs[k] ==> j == k)
  }

  ghost predicate TableNode(tabs: Tables, k: Key)
    requires k in tabs
  {
    && k.level <= 3
    && (k.level == 0 ==> k == ROOT)
    && (k.level > 0 ==> Hangs(tabs, k))
  }

  ghost predicate PageNode(tabs: Tables, pages: Pages, c: Key)
    requires c in pages
  {
    && 2 <= c.level <= 4
    && Hangs(tabs, c)
    && c !in tabs
    && pages[c].present
    && (c.level < 4 ==> pages[c].large)
  }

  /** No table other than the root, and possibly `skip`, is empty. */
  ghost predicate Filled(tabs: Tables, pages: Pages, skip: set<Key>) {
    forall k :: k in tabs && k != ROOT && k !in skip ==> Num(LiveNodes(tabs, pages), k) >= 1
  }

  /** The word that the entry leading to node `c` holds. */
  ghost function Render(tabs: Tables, pages: Pages, c: Key): Word {
    if c in tabs then TableWord(tabs[c], Num(LiveNodes(tabs, pages), c))
    else if c in pages then pages[c]
    else ZERO
  }

  /** Memory holds exactly the rendered word in every entry of every table. */
  ghost predicate Rep(m: Memory, tabs: Tables, pages: Pages) {
    forall c: Key {:trigger Render(tabs, pages, c)} ::
      Hangs(tabs, c) ==> Read(m, Home(tabs, c)) == Render(tabs, pages, c)
  }

  /** The state in the middle of an unmap: node `c` is gone, its entry still holds a
      stale word, and the count of the table it was in is one too high. */
  ghost predicate RepWithHole(m: Memory, tabs: Tables, pages: Pages, c: Key) {
    && Hangs(tabs, c) && c !in tabs && c !in pages
    && Num(LiveNodes(tabs, pages), Parent(c)) < 512
    && (forall d: Key {:trigger Stale(tabs, pages, c, d)} ::
          Hangs(tabs, d) && d != c ==> Read(m, Home(tabs, d)) == Stale(tabs, pages, c, d))
  }

  ghost function Stale(tabs: Tables, pages: Pages, c: Key, d: Key): Word {
    if c.level > 0 && d == Parent(c) && d in tabs then TableWord(tabs[d], Num(LiveNodes(tabs, pages), d) + 1)
    else Render(tabs, pages, d)
  }

  // ----- small facts -----

  lemma ChildParent(k: Key, i: nat)
    requires i < 512
    ensures Parent(Child(k, i)) == k && Index(Child(k, i)) == i
  {
  }

  lemma ParentChild(c: Key)
    requires c.level > 0
    ensures Child(Parent(c), Index(c)) == c && Index(c) < 512
  {
  }

  /** Different nodes have different entries. */
  lemma HomesDiffer(tabs: Tables, c: Key, d: Key)
    requires forall j, k :: j in tabs && k in tabs && tabs[j] == tabs[k] ==> j == k
    requires Hangs(tabs, c) && Hangs(tabs, d)
    ensures Home(tabs, c) == Home(tabs, d) <==> c == d
  {
    ParentChild(c);
    ParentChild(d);
    if Home(tabs, c) == Home(tabs, d) {
      assert tabs[Parent(c)] == tabs[Parent(d)] && Index(c) == Index(d);
      assert Parent(c) == Parent(d);
    }
  }

  /** Adding one node adds one to the count of its parent and to no other count. */
  lemma NumAdd(live: set<Key>, c: Key, k: Key)
    requires c !in live && c.level > 0
    ensures Num(live + {c}, k) == Num(live, k) + if k == Parent(c) then 1 else 0
  {
    ParentChild(c);
    var before, after := Kids(live, k), Kids(live + {c}, k);
    if k == Parent(c) {
      assert Child(k, Index(c)) == c;
      forall i: nat | i < 512
        ensures i in after <==> i in before || i == Index(c)
      {
        ChildParent(k, i);
      }
      assert after == before + {Index(c)};
    } else {
      forall i: nat | i < 512
        ensures i in after <==> i in before
      {
        ChildParent(k, i);
      }
      assert after == before;
    }
  }

  lemma NumZero(live: set<Key>, k: Key)
    requires forall c :: c in live && c.level > 0 ==> Parent(c) != k
    ensures Num(live, k) == 0
  {
    forall i: nat | i < 512
      ensures i !in Kids(live, k)
    {
      ChildParent(k, i);
      if Child(k, i) in live { assert Parent(Child(k, i)) == k; }
    }
    assert Kids(live, k) == {};
  }

  lemma NumPositive(live: set<Key>, c: Key)
    requires c in live && c.level > 0
    ensures Num(live, Parent(c)) >= 1
  {
    ParentChild(c);
    assert Index(c) in Kids(live, Parent(c));
  }

  // ----- adding a node -----

  function Put(m: Memory, a: nat, w: Word): Memory { m[a := Entry(w)] }

  /** The count of table `p`, kept in the entry that leads to it, goes up by one. */
  function Bump(m: Memory, tabs: Tables, p: Key): Memory
    requires p.level > 0 ==> Read(m, Home(tabs, p)).count < 1023
  {
    if p.level == 0 then m
    else
      var w := Read(m, Home(tabs, p));
      Put(m, Home(tabs, p), w.(count := w.count + 1))
  }

  /** The count read for an existing table is its number of used entries. */
  lemma CountIsNum(m: Memory, tabs: Tables, pages: Pages, p: Key)
    requires Shape(tabs, pages) && Rep(m, tabs, pages) && p in tabs && p.level > 0
    ensures Hangs(tabs, p)
    ensures Read(m, Home(tabs, p)) == TableWord(tabs[p], Num(LiveNodes(tabs, pages), p))
  {
    assert TableNode(tabs, p);
    assert Read(m, Home(tabs, p)) == Render(tabs, pages, p);
  }

  /** A page entry written below an existing table, with the table's count bumped. */
  lemma AddPage(m: Memory, tabs: Tables, pages: Pages, c: Key, w: Word)
    requires Shape(tabs, pages) && Rep(m, tabs, pages)
    requires 2 <= c.level <= 4 && Hangs(tabs, c) && c !in tabs && c !in pages
    requires w.present && (c.level < 4 ==> w.large)
    ensures Shape(tabs, pages[c := w])
    ensures Read(m, Home(tabs, Parent(c))).count < 1023
    ensures Rep(Put(Bump(m, tabs, Parent(c)), Home(tabs, c), w), tabs, pages[c := w])
  {
    var p, pages' := Parent(c), pages[c := w];
    CountIsNum(m, tabs, pages, p);
    NewPageShape(tabs, pages, c, w);
    var m' := Put(Bump(m, tabs, p), Home(tabs, c), w);
    forall d: Key | Hangs(tabs, d)
      ensures Read(m', Home(tabs, d)) == Render(tabs, pages', d)
    {
      assert LiveNodes(tabs, pages') == LiveNodes(tabs, pages) + {c};
      NumAdd(LiveNodes(tabs, pages), c, d);
      HomesDiffer(tabs, c, d);
      HomesDiffer(tabs, p, d);
      assert Read(m, Home(tabs, d)) == Render(tabs, pages, d);
    }
  }

  lemma NewPageShape(tabs: Tables, pages: Pages, c: Key, w: Word)
    requires Shape(tabs, pages)
    requires 2 <= c.level <= 4 && Hangs(tabs, c) && c !in tabs && c !in pages
    requires w.present && (c.level < 4 ==> w.large)
    ensures Shape(tabs, pages[c := w])
  {
    var pages' := pages[c := w];
    forall d | d in pages'
      ensures PageNode(tabs, pages', d)
    {
      if d != c { assert PageNode(tabs, pages, d); }
    }
  }

  /** The tree with a table in frame `f` below an existing table, whose count can go up. */
  lemma TableCounted(m: Memory, tabs: Tables, pages: Pages, c: Key, f: Frame)
    requires Shape(tabs, pages) && Rep(m, tabs, pages)
    requires 1 <= c.level <= 3 && Hangs(tabs, c) && c !in tabs && c !in pages
    requires f !in tabs.Values
    ensures Shape(tabs[c := f], pages)
    ensures Parent(c).level > 0 ==> Read(m, Home(tabs, Parent(c))).count < 1023
  {
    if Parent(c).level > 0 { CountIsNum(m, tabs, pages, Parent(c)); }
    NewTableShape(tabs, pages, c, f);
  }

  /** An empty table in frame `f` linked below an existing table. */
  lemma AddTable(m: Memory, tabs: Tables, pages: Pages, c: Key, f: Frame)
    requires Shape(tabs, pages) && Rep(m, tabs, pages) && Shape(tabs[c := f], pages)
    requires 1 <= c.level <= 3 && Hangs(tabs, c) && c !in tabs && c !in pages
    requires f !in tabs.Values
    requires forall i: nat :: i < 512 ==> Read(m, Slot(f, i)) == ZERO
    requires Parent(c).level > 0 ==> Read(m, Home(tabs, Parent(c))).count < 1023
    ensures Rep(Put(Bump(m, tabs, Parent(c)), Home(tabs, c), TableWord(f, 0)), tabs[c := f], pages)
  {
    var p, tabs' := Parent(c), tabs[c := f];
    var m' := Put(Bump(m, tabs, p), Home(tabs, c), TableWord(f, 0));
    forall d: Key | Hangs(tabs', d)
      ensures Read(m', Home(tabs', d)) == Render(tabs', pages, d)
    {
      AddTableAt(m, tabs, pages, c, f, m', d);
    }
  }

  /** What a new table at `c` means for another node: its count, the place of its entry, and
      that nothing hangs off the new table. */
  lemma AddTableFacts(tabs: Tables, pages: Pages, c: Key, f: Frame, d: Key)
    requires Shape(tabs, pages) && Shape(tabs[c := f], pages) && Hangs(tabs[c := f], d)
    requires 1 <= c.level <= 3 && Hangs(tabs, c) && c !in tabs && c !in pages
    ensures var tabs' := tabs[c := f];
            && Num(LiveNodes(tabs', pages), d) == Num(LiveNodes(tabs, pages), d) + (if d == Parent(c) then 1 else 0)
            && (d == c ==> Num(LiveNodes(tabs, pages), c) == 0)
            && (Home(tabs', c) == Home(tabs', d) <==> c == d)
            && (Parent(c).level > 0 ==> Hangs(tabs, Parent(c)) && (Home(tabs', Parent(c)) == Home(tabs', d) <==> Parent(c) == d))
            && (Parent(d) == c ==> d !in tabs && d !in pages && d != c)
  {
    var p, tabs' := Parent(c), tabs[c := f];
    var live := LiveNodes(tabs, pages);
    assert LiveNodes(tabs', pages) == live + {c};
    NumAdd(live, c, d);
    HomesDiffer(tabs', c, d);
    if p.level > 0 {
      assert TableNode(tabs, p);
      HomesDiffer(tabs', p, d);
    }
    NothingBelow(tabs, pages, c);
    if d == c { NumZero(live, c); }
  }

  lemma AddTableAt(m: Memory, tabs: Tables, pages: Pages, c: Key, f: Frame, m': Memory, d: Key)
    requires Shape(tabs, pages) && Rep(m, tabs, pages) && Shape(tabs[c := f], pages)
    requires 1 <= c.level <= 3 && Hangs(tabs, c) && c !in tabs && c !in pages
    requires f !in tabs.Values
    requires forall i: nat :: i < 512 ==> Read(m, Slot(f, i)) == ZERO
    requires Parent(c).level > 0 ==> Read(m, Home(tabs, Parent(c))).count < 1023
    requires m' == Put(Bump(m, tabs, Parent(c)), Home(tabs, c), TableWord(f, 0))
    requires Hangs(tabs[c := f], d)
    ensures Read(m', Home(tabs[c := f], d)) == Render(tabs[c := f], pages, d)
  {
    var p, tabs' := Parent(c), tabs[c := f];
    AddTableFacts(tabs, pages, c, f, d);
    if p.level > 0 { CountIsNum(m, tabs, pages, p); }
    assert Parent(d) != c ==> Hangs(tabs, d) && Read(m, Home(tabs, d)) == Render(tabs, pages, d);
    hide Shape, Num, LiveNodes, Rep;
    assert Parent(d) == c ==> Home(tabs', d) == Slot(f, Index(d));
  }

  /** A node that is not a table has nothing below it. */
  lemma NothingBelow(tabs: Tables, pages: Pages, c: Key)
    requires Shape(tabs, pages) && c !in tabs
    ensures forall d :: d in LiveNodes(tabs, pages) && d.level > 0 ==> Parent(d) != c
  {
    forall d | d in LiveNodes(tabs, pages) && d.level > 0
      ensures Parent(d) != c
    {
      if d in tabs { assert TableNode(tabs, d); } else { assert PageNode(tabs, pages, d); }
    }
  }

  lemma NewTableShape(tabs: Tables, pages: Pages, c: Key, f: Frame)
    requires Shape(tabs, pages)
    requires 1 <= c.level <= 3 && Hangs(tabs, c) && c !in tabs && c !in pages
    requires f !in tabs.Values
    ensures Shape(tabs[c := f], pages)
  {
    var tabs' := tabs[c := f];
    forall j, k | j in tabs' && k in tabs' && tabs'[j] == tabs'[k]
      ensures j == k
    {
      assert j in tabs ==> tabs[j] in tabs.Values;
      assert k in tabs ==> tabs[k] in tabs.Values;
    }
    forall k | k in tabs'
      ensures TableNode(tabs', k)
    {
      if k != c { assert TableNode(tabs, k); }
    }
    forall d | d in pages
      ensures PageNode(tabs', pages, d)
    {
      assert PageNode(tabs, pages, d);
    }
  }

  // ----- removing a node -----

  /** A page dropped from the map leaves its entry stale and its table's count too high. */
  lemma UnlinkPage(m: Memory, tabs: Tables, pages: Pages, c: Key)
    requires Shape(tabs, pages) && Rep(m, tabs, pages) && c in pages
    ensures Shape(tabs, pages - {c})
    ensures RepWithHole(m, tabs, pages - {c}, c)
  {
    assert PageNode(tabs, pages, c);
    var p, pages' := Parent(c), pages - {c};
    var live, live' := LiveNodes(tabs, pages), LiveNodes(tabs, pages');
    assert live == live' + {c};
    NumAdd(live', c, p);
    forall d | d in pages'
      ensures PageNode(tabs, pages', d)
    {
      assert PageNode(tabs, pages, d);
    }
    forall d: Key | Hangs(tabs, d) && d != c
      ensures Read(m, Home(tabs, d)) == Stale(tabs, pages', c, d)
    {
      NumAdd(live', c, d);
      assert Read(m, Home(tabs, d)) == Render(tabs, pages, d);
    }
  }

  /** With the stale entry cleared and the count corrected, memory is exact again. */
  lemma CloseHole(m: Memory, tabs: Tables, pages: Pages, c: Key)
    requires Shape(tabs, pages) && RepWithHole(m, tabs, pages, c)
    ensures Num(LiveNodes(tabs, pages), Parent(c)) < 512
    ensures var p := Parent(c);
            var m1 := Put(m, Home(tabs, c), ZERO);
            var w := Read(m1, Home(tabs, p));
            if p.level == 0 then Rep(m1, tabs, pages)
            else Hangs(tabs, p) && w == TableWord(tabs[p], Num(LiveNodes(tabs, pages), p) + 1)
                 && Rep(Put(m1, Home(tabs, p), w.(count := w.count - 1)), tabs, pages)
  {
    var p := Parent(c);
    var m1 := Put(m, Home(tabs, c), ZERO);
    if p.level == 0 {
      forall d: Key | Hangs(tabs, d)
        ensures Read(m1, Home(tabs, d)) == Render(tabs, pages, d)
      {
        HomesDiffer(tabs, c, d);
        if d != c { assert Read(m, Home(tabs, d)) == Stale(tabs, pages, c, d); }
      }
    } else {
      HoleCount(m, tabs, pages, c);
      var w := Read(m1, Home(tabs, p));
      var m2 := Put(m1, Home(tabs, p), w.(count := w.count - 1));
      forall d: Key | Hangs(tabs, d)
        ensures Read(m2, Home(tabs, d)) == Render(tabs, pages, d)
      {
        HomesDiffer(tabs, c, d);
        HomesDiffer(tabs, p, d);
        if d != c { assert Read(m, Home(tabs, d)) == Stale(tabs, pages, c, d); }
      }
    }
  }

  lemma HoleCount(m: Memory, tabs: Tables, pages: Pages, c: Key)
    requires Shape(tabs, pages) && RepWithHole(m, tabs, pages, c) && Parent(c).level > 0
    ensures var p := Parent(c);
            && Hangs(tabs, p)
            && Read(Put(m, Home(tabs, c), ZERO), Home(tabs, p)) == TableWord(tabs[p], Num(LiveNodes(tabs, pages), p) + 1)
  {
    var p := Parent(c);
    assert TableNode(tabs, p);
    HomesDiffer(tabs, c, p);
    assert Read(m, Home(tabs, p)) == Stale(tabs, pages, c, p);
  }

  /** When the count was one, the table is empty; dropping it moves the hole up a level. */
  lemma MoveHoleUp(m: Memory, tabs: Tables, pages: Pages, c: Key)
    requires Shape(tabs, pages) && RepWithHole(m, tabs, pages, c) && Parent(c).level > 0
    requires Num(LiveNodes(tabs, pages), Parent(c)) == 0
    ensures Shape(tabs - {Parent(c)}, pages)
    ensures RepWithHole(Put(m, Home(tabs, c), ZERO), tabs - {Parent(c)}, pages, Parent(c))
  {
    var p := Parent(c);
    var m1 := Put(m, Home(tabs, c), ZERO);
    assert TableNode(tabs, p);
    var tabs' := tabs - {p};
    EmptyTableShape(tabs, pages, p);
    var live, live' := LiveNodes(tabs, pages), LiveNodes(tabs', pages);
    assert p in pages ==> PageNode(tabs, pages, p);
    assert live == live' + {p};
    NumAdd(live', p, Parent(p));
    forall d: Key | Hangs(tabs', d) && d != p
      ensures Read(m1, Home(tabs', d)) == Stale(tabs', pages, p, d)
    {
      NumAdd(live', p, d);
      HomesDiffer(tabs, c, d);
      assert Read(m, Home(tabs, d)) == Stale(tabs, pages, c, d);
    }
  }

  lemma EmptyTableShape(tabs: Tables, pages: Pages, p: Key)
    requires Shape(tabs, pages) && p in tabs && p.level > 0
    requires Num(LiveNodes(tabs, pages), p) == 0
    ensures Shape(tabs - {p}, pages)
  {
    var live := LiveNodes(tabs, pages);
    forall d | d in live && d.level > 0
      ensures Parent(d) != p
    {
      NumPositive(live, d);
    }
    forall k | k in tabs - {p}
      ensures TableNode(tabs - {p}, k)
    {
      assert TableNode(tabs, k);
    }
    forall d | d in pages
      ensures PageNode(tabs - {p}, pages, d)
    {
      assert PageNode(tabs, pages, d);
    }
  }
}
