/** Consequences of the page-table invariant, stated on memory and on translations. */
module PageTheorems {
  import opened Basics
  import opened PageWords
  import opened PageShape
  import opened PageAddr
  import opened PageCover
  import opened PageSteps

  /** The entries of the table in frame `f` that are present, as memory shows them. */
  function PresentEntries(m: Memory, f: Frame): set<nat> {
    set i: nat | i < 512 && Read(m, Slot(f, i)).present
  }

  /** Bits 52..61 of the entry leading to a table are the number of present entries of that
      table, between 1 and 512; no two tables share a frame. */
  lemma CountsAreExact(m: Memory, tabs: Tables, pages: Pages, k: Key)
    requires Shape(tabs, pages) && Filled(tabs, pages, {}) && Rep(m, tabs, pages) && k in tabs && k != ROOT
    ensures Encode(Read(m, Home(tabs, k))) / TWO52 % 1024 == |PresentEntries(m, tabs[k])|
    ensures 1 <= |PresentEntries(m, tabs[k])| <= 512
    ensures Read(m, Home(tabs, k)).frame == tabs[k] && Read(m, Home(tabs, k)).present && !Read(m, Home(tabs, k)).large
    ensures forall j :: j in tabs && tabs[j] == tabs[k] ==> j == k
  {
    assert TableNode(tabs, k);
    CountIsNum(m, tabs, pages, k);
    var live := LiveNodes(tabs, pages);
    forall i: nat | i < 512
      ensures Read(m, Slot(tabs[k], i)).present <==> Child(k, i) in live
    {
      ChildParent(k, i);
      var c := Child(k, i);
      assert Read(m, Home(tabs, c)) == Render(tabs, pages, c);
      assert c in pages ==> PageNode(tabs, pages, c);
    }
    assert PresentEntries(m, tabs[k]) == Kids(live, k);
    FieldBits(Read(m, Home(tabs, k)));
  }

  /** Adding a page that fits changes the translation of the addresses inside it and of no
      other address. */
  lemma MapEffect(tabs: Tables, pages: Pages, v: nat, t: PageType, w: Word, u: nat)
    requires Shape(tabs, pages) && Mappable(pages, v, t) && Canonical(u)
    ensures var c := NodeOf(v, TypeDepth(t));
            FinalPage(pages[c := w], u)
            == if Base(c) <= u < Base(c) + TypeSize(t) then Some(PageOf(w, TypeDepth(t), u)) else FinalPage(pages, u)
  {
    var d := TypeDepth(t);
    var c := NodeOf(v, d);
    NodeLevel(v, d);
    NodeInRange(v, d);
    NodeRange(c, u);
    NodeLevel(u, 2);
    NodeLevel(u, 3);
    NodeLevel(u, 4);
    forall l: nat | 2 <= l <= 4 && NodeOf(u, d) == c
      ensures NodeOf(u, l) !in pages
    {
      NodeLevel(u, l);
      assert Overlap(NodeOf(u, l), c);
    }
    hide Canonical, Base, Span, PageOf, NodeOf, Mappable, Shape;
  }

  /** Unmapping a covered range leaves no address of it mapped and every other address alone. */
  lemma UnmapEffect(tabs: Tables, pages: Pages, v: nat, size: nat, u: nat)
    requires Shape(tabs, pages) && Covered(pages, v, size) && Canonical(u)
    ensures FinalPage(pages - PagesFrom(pages, v, v + size), u)
         == if v <= u < v + size then None else FinalPage(pages, u)
  {
    var gone := PagesFrom(pages, v, v + size);
    forall l: nat | 2 <= l <= 4 && NodeOf(u, l) in pages
      ensures NodeOf(u, l) in gone <==> v <= u < v + size
    {
      var c := NodeOf(u, l);
      NodesInRange(tabs, pages, c);
      NodeRange(c, u);
      if v <= u < v + size {
        CoveredAt(tabs, pages, v, size, u);
        assert InPage(pages, u, l);
      } else if c in gone {
        NodeRange(c, Base(c));
        CoveredAt(tabs, pages, v, size, Base(c));
        assert InPage(pages, Base(c), l);
      }
    }
    NodeLevel(u, 2);
    NodeLevel(u, 3);
    NodeLevel(u, 4);
  }

  /** Mapping pages and then unmapping exactly those pages gives back the abstract map, the
      tables, every table word and the pool. */
  lemma MapThenFree(s0: State, s1: State, s2: State, log: seq<Block>, cs: set<Key>)
    requires Added(s0, s1, cs) && s1.tabs.Values !! s1.pool && Unmapped(s1, s2, log, cs)
    requires Shape(s0.tabs, s0.pages) && Filled(s0.tabs, s0.pages, {}) && Rep(s0.words, s0.tabs, s0.pages)
    requires Shape(s2.tabs, s2.pages) && Filled(s2.tabs, s2.pages, {}) && Rep(s2.words, s2.tabs, s2.pages)
    ensures s2.pages == s0.pages && s2.tabs == s0.tabs && s2.pool == s0.pool
    ensures SameTableWords(s0.words, s2.words, s0.tabs)
  {
    hide Rep, Added, Unmapped, Shape, Filled;
    OnlyFramesSelf(s1.words, {});
    assert s1 == State(s1.tabs, s1.pages, s1.pool - {}, s1.words);
    RolledBack(s0, s1, {}, s1.words, s2, log, cs);
    SameRep(s0.words, s2.words, s0.tabs, s0.pages);
  }
}
