/** What each step of mapping and unmapping does to the abstract maps, the free frames and
    memory: the pure part of the page-table operations. */
module PageSteps {
  import opened Basics
  import opened Arith
  import opened PageWords
  import opened PageShape
  import opened PageAddr
  import opened PageCover

  lemma OneFrame(f: Frame)
    ensures Frames(f * 4096, 4096) == {f}
  {
  }

  lemma TableFrame(f: Frame)
    ensures Frames(Slot(f, 0), 4096) == {f}
  {
    OneFrame(f);
  }

  // ----- the walk -----

  /** The report after the entries of the first `n` levels have been read. */
  function Partial(tabs: Tables, v: nat, n: nat): Mapping {
    Mapping(if n > 0 then EntryOf(tabs, v, 0) else None, if n > 1 then EntryOf(tabs, v, 1) else None,
            if n > 2 then EntryOf(tabs, v, 2) else None, if n > 3 then EntryOf(tabs, v, 3) else None, None)
  }

  lemma WalkEnds(tabs: Tables, pages: Pages, v: nat, depth: nat)
    requires Shape(tabs, pages) && depth <= 3
    requires NodeOf(v, depth) in tabs && NodeOf(v, depth + 1) !in LiveNodes(tabs, pages)
    ensures Walk(tabs, pages, v) == Partial(tabs, v, depth + 1)
  {
    forall j: nat | j <= 4
      ensures j > depth ==> NodeOf(v, j) !in LiveNodes(tabs, pages)
      ensures j <= depth ==> NodeOf(v, j) !in pages
    {
      if depth + 1 < j && NodeOf(v, j) in LiveNodes(tabs, pages) {
        TablesAbove(tabs, pages, v, j, depth + 1);
      }
      if j <= depth && NodeOf(v, j) in pages {
        assert PageNode(tabs, pages, NodeOf(v, j));
        OnePage(tabs, pages, v, j, depth);
      }
    }
  }

  lemma WalkEndsInPage(tabs: Tables, pages: Pages, v: nat, depth: nat)
    requires Shape(tabs, pages) && depth <= 3 && NodeOf(v, depth + 1) in pages
    ensures Walk(tabs, pages, v)
         == Partial(tabs, v, depth + 1).(page := Some(PageOf(pages[NodeOf(v, depth + 1)], depth + 1, v)))
  {
    assert PageNode(tabs, pages, NodeOf(v, depth + 1));
    TablesBelowWalk(tabs, pages, v, depth + 1);
  }

  /** What reading the entry of the node at the next depth tells the walk. */
  lemma EntryTells(m: Memory, tabs: Tables, pages: Pages, v: nat, depth: nat)
    requires Shape(tabs, pages) && Rep(m, tabs, pages) && depth <= 3 && NodeOf(v, depth) in tabs
    ensures var c := NodeOf(v, depth + 1);
            var w := Read(m, Slot(tabs[NodeOf(v, depth)], Bits(v, depth + 1)));
            && (w.present <==> c in LiveNodes(tabs, pages))
            && (c in tabs ==> depth < 3 && !w.large && w.frame == tabs[c])
            && (c in pages ==> depth >= 1 && (depth == 3 || w.large) && w == pages[c])
  {
    var c := NodeOf(v, depth + 1);
    NodeParent(v, depth + 1);
    assert Read(m, Home(tabs, c)) == Render(tabs, pages, c);
    assert c in tabs ==> TableNode(tabs, c);
    assert c in pages ==> PageNode(tabs, pages, c);
  }

  lemma FilledAfterTable(tabs: Tables, pages: Pages, c: Key, f: Frame)
    requires c.level > 0 && c !in LiveNodes(tabs, pages) && Filled(tabs, pages, {Parent(c)})
    ensures Filled(tabs[c := f], pages, {c})
  {
    var live := LiveNodes(tabs, pages);
    assert LiveNodes(tabs[c := f], pages) == live + {c};
    forall k | k in tabs && k != ROOT
      ensures Num(live + {c}, k) >= 1
    {
      NumAdd(live, c, k);
    }
  }

  lemma FilledAfterPage(tabs: Tables, pages: Pages, c: Key, w: Word)
    requires c.level > 0 && c !in LiveNodes(tabs, pages) && Filled(tabs, pages, {Parent(c)})
    ensures Filled(tabs, pages[c := w], {})
  {
    var live := LiveNodes(tabs, pages);
    assert LiveNodes(tabs, pages[c := w]) == live + {c};
    forall k | k in tabs && k != ROOT
      ensures Num(live + {c}, k) >= 1
    {
      NumAdd(live, c, k);
    }
  }

  lemma FilledWeaker(tabs: Tables, pages: Pages, skip: set<Key>)
    requires Shape(tabs, pages) && Filled(tabs, pages, {})
    ensures ROOT in tabs && Filled(tabs, pages, skip)
  {
  }

  lemma FilledDeeper(tabs: Tables, pages: Pages, c: Key)
    requires c.level > 0 && c in LiveNodes(tabs, pages) && Filled(tabs, pages, {Parent(c)})
    ensures Filled(tabs, pages, {c})
  {
    NumPositive(LiveNodes(tabs, pages), c);
  }

  /** The request that `map_raw` can satisfy: a valid entry, a canonical address, and no
      mapped page that overlaps the new one. */
  ghost predicate CanMap(pages: Pages, v: nat, t: PageType, raw: Word) {
    && raw.present && (t == Page4K || raw.large)
    && Canonical(v)
    && !(exists q :: q in pages && Overlap(q, NodeOf(v, TypeDepth(t))))
  }

  /** The tests of `map_raw`, on the walk of `v`, decide `CanMap`. */
  lemma CanMapTests(tabs: Tables, pages: Pages, v: nat, t: PageType, raw: Word)
    requires Shape(tabs, pages) && Filled(tabs, pages, {}) && Canonical(v)
    ensures CanMap(pages, v, t, raw) <==>
            && raw.present && (t == Page4K || raw.large)
            && Walk(tabs, pages, v).page.None? && NodeOf(v, TypeDepth(t)) !in tabs
    ensures CanMap(pages, v, t, raw) ==> forall j: nat :: j <= 4 ==> NodeOf(v, j) !in pages
    ensures TypeDepth(t) == 4 ==> NodeOf(v, TypeDepth(t)) !in tabs
  {
    hide Filled, Num, Overlap, PageOf, NodeOf;
    OverlapOnWalk(tabs, pages, v, TypeDepth(t));
    forall j: nat | j <= 4 && NodeOf(v, j) in pages
      ensures 2 <= j
    {
      NodeLevel(v, j);
      assert PageNode(tabs, pages, NodeOf(v, j));
    }
    assert NodeOf(v, 4) in tabs ==> TableNode(tabs, NodeOf(v, 4)) && NodeOf(v, 4).level == 4 by {
      NodeLevel(v, 4);
    }
  }

  lemma CanMapNeedsEntry(pages: Pages, v: nat, t: PageType, raw: Word)
    ensures CanMap(pages, v, t, raw) ==> Canonical(v) && raw.present && (t == Page4K || raw.large)
  {
  }

  lemma NodeLevel(v: nat, level: nat)
    ensures NodeOf(v, level).level == level
  {
  }

  /** A new table at one level changes the entry address of that level only. */
  lemma LevelFacts(tabs: Tables, v: nat, ii: nat, f: Frame, depth: nat)
    requires ii < depth
    ensures forall j: nat :: EntryOf(tabs[NodeOf(v, ii) := f], v, j)
                          == if j == ii then Some(Slot(f, Bits(v, ii + 1))) else EntryOf(tabs, v, j)
    ensures NodeOf(v, depth) in tabs[NodeOf(v, ii) := f] ==> NodeOf(v, depth) in tabs
  {
    hide Span, Bits, Slot, NodeOf;
    NodeLevel(v, ii);
    NodeLevel(v, depth);
    forall j: nat
      ensures EntryOf(tabs[NodeOf(v, ii) := f], v, j)
           == if j == ii then Some(Slot(f, Bits(v, ii + 1))) else EntryOf(tabs, v, j)
    {
      NodeLevel(v, j);
    }
  }

  /** One level added on the way down: what the walk finds now, where the frames came from and
      which words changed. */
  lemma LevelDone(t: Tables, pool: set<Frame>, m: Memory, t0: Tables, p0: set<Frame>, m0: Memory, m1: Memory,
                  v: nat, ii: nat, f: Frame, depth: nat)
    requires ii < depth && Extended(t, pool, t0, p0) && OnlyFrames(m, m0, t0.Values + p0)
    requires NodeOf(v, ii) !in t0 && f in p0 && OnlyFrames(m0, m1, t0[NodeOf(v, ii) := f].Values + (p0 - {f}))
    ensures var t1 := t0[NodeOf(v, ii) := f];
            && (forall j: nat :: EntryOf(t1, v, j) == if j == ii then Some(Slot(f, Bits(v, ii + 1))) else EntryOf(t0, v, j))
            && (NodeOf(v, depth) in t1 ==> NodeOf(v, depth) in t0)
            && Extended(t, pool, t1, p0 - {f}) && OnlyFrames(m, m1, t1.Values + (p0 - {f}))
  {
    hide OnlyFrames, Bits, Slot, NodeOf, EntryOf;
    LevelFacts(t0, v, ii, f, depth);
    ExtendedStep(t, pool, t0, p0, NodeOf(v, ii), f);
    NewValues(t0, NodeOf(v, ii), f);
    hide Extended;
    OnlyFramesStep(m, m0, m1, t0.Values + p0, t0[NodeOf(v, ii) := f].Values + (p0 - {f}));
  }

  lemma NothingYet(tabs: Tables, pool: set<Frame>, m: Memory)
    ensures Extended(tabs, pool, tabs, pool) && OnlyFrames(m, m, tabs.Values + pool)
  {
  }

  lemma ExtendedStep(tabs: Tables, pool: set<Frame>, tabs': Tables, pool': set<Frame>, c: Key, f: Frame)
    requires Extended(tabs, pool, tabs', pool') && c !in tabs' && f in pool'
    ensures Extended(tabs, pool, tabs'[c := f], pool' - {f})
  {
    NewValues(tabs', c, f);
  }

  lemma OnlyFramesStep(m: Memory, m': Memory, m'': Memory, fs: set<Frame>, fs': set<Frame>)
    requires OnlyFrames(m, m', fs) && OnlyFrames(m', m'', fs') && fs <= fs'
    ensures OnlyFrames(m, m'', fs')
  {
  }

  /** `tabs'` extends `tabs` by tables in frames taken from the pool. */
  ghost predicate Extended(tabs: Tables, pool: set<Frame>, tabs': Tables, pool': set<Frame>) {
    && (forall k :: k in tabs ==> k in tabs' && tabs'[k] == tabs[k])
    && pool' <= pool
    && tabs'.Values == tabs.Values + (pool - pool')
  }

  // ----- unmapping -----

  lemma RemoveValue(tabs: Tables, p: Key)
    requires Injective(tabs) && p in tabs
    ensures (tabs - {p}).Values == tabs.Values - {tabs[p]}
  {
    var rest := tabs - {p};
    forall f | f in tabs.Values && f != tabs[p]
      ensures f in rest.Values
    {
      var k :| k in tabs && tabs[k] == f;
      assert rest[k] == f;
    }
    forall f | f in rest.Values
      ensures f in tabs.Values && f != tabs[p]
    {
      var k :| k in rest && rest[k] == f;
      assert tabs[k] == f;
    }
  }

  lemma FilledAfterUnlink(tabs: Tables, pages: Pages, c: Key)
    requires c in pages && c !in tabs && c.level > 0 && Filled(tabs, pages, {})
    ensures Filled(tabs, pages - {c}, {Parent(c)})
  {
    var live := LiveNodes(tabs, pages - {c});
    assert LiveNodes(tabs, pages) == live + {c};
    forall k | k in tabs && k != ROOT && k != Parent(c)
      ensures Num(live, k) >= 1
    {
      NumAdd(live, c, k);
    }
  }

  lemma FilledAfterDrop(tabs: Tables, pages: Pages, p: Key)
    requires p in tabs && p !in pages && p.level > 0 && Filled(tabs, pages, {p})
    ensures Filled(tabs - {p}, pages, {Parent(p)})
  {
    var live := LiveNodes(tabs - {p}, pages);
    assert LiveNodes(tabs, pages) == live + {p};
    forall k | k in tabs - {p} && k != ROOT && k != Parent(p)
      ensures Num(live, k) >= 1
    {
      NumAdd(live, p, k);
    }
  }

  lemma FilledAgain(tabs: Tables, pages: Pages, p: Key)
    requires Filled(tabs, pages, {p}) && (p == ROOT || Num(LiveNodes(tabs, pages), p) >= 1)
    ensures Filled(tabs, pages, {})
  {
  }

  /** Clearing the entry of depth `ii + 1` on the walk of `v`: at the top the tables are
      exact again; below it, the count of the table decides whether the table goes too. */
  lemma UnlinkStep(m: Memory, tabs: Tables, pages: Pages, v: nat, ii: nat)
    requires ii <= 3 && Shape(tabs, pages) && NodeOf(v, ii) in tabs
    requires RepWithHole(m, tabs, pages, NodeOf(v, ii + 1)) && Filled(tabs, pages, {NodeOf(v, ii)})
    ensures var p := NodeOf(v, ii);
            var m1 := Put(m, EntryAt(tabs, v, ii), ZERO);
            var nent := if ii > 0 then Read(m1, EntryAt(tabs, v, ii - 1)) else ZERO;
            && ROOT in tabs && p in tabs && (ii > 0 ==> p != ROOT)
            && (ii == 0 ==> Rep(m1, tabs, pages) && Filled(tabs, pages, {}))
            && (ii > 0 ==> NodeOf(v, ii - 1) in tabs && NodeOf(v, ii - 1) != p && 1 <= nent.count <= 512)
            && (ii > 0 && nent.count == 1 ==>
                  && Shape(tabs - {p}, pages) && RepWithHole(m1, tabs - {p}, pages, p)
                  && Filled(tabs - {p}, pages, {NodeOf(v, ii - 1)})
                  && (tabs - {p}).Values == tabs.Values - {tabs[p]})
            && (ii > 0 && nent.count > 1 ==>
                  && Rep(Put(m1, EntryAt(tabs, v, ii - 1), nent.(count := nent.count - 1)), tabs, pages)
                  && Filled(tabs, pages, {}))
  {
    hide Rep, Render, Num, Filled, Read, CellAt, NodeOf, Home, Shape, RepWithHole, LiveNodes;
    var p, c := NodeOf(v, ii), NodeOf(v, ii + 1);
    WalkTable(tabs, pages, v, ii);
    assert EntryAt(tabs, v, ii) == Home(tabs, c) && (ii > 0 ==> EntryAt(tabs, v, ii - 1) == Home(tabs, p));
    hide EntryAt;
    CloseHole(m, tabs, pages, c);
    if ii == 0 {
      FilledAgain(tabs, pages, p);
    } else if Num(LiveNodes(tabs, pages), p) == 0 {
      MoveHoleUp(m, tabs, pages, c);
      FilledAfterDrop(tabs, pages, p);
      RemoveValue(tabs, p);
    } else {
      FilledAgain(tabs, pages, p);
    }
  }

  /** Facts about a table on the walk of `v`. */
  lemma WalkTable(tabs: Tables, pages: Pages, v: nat, ii: nat)
    requires ii <= 3 && Shape(tabs, pages) && NodeOf(v, ii) in tabs
    ensures NodeOf(v, ii + 1).level == ii + 1 && Parent(NodeOf(v, ii + 1)) == NodeOf(v, ii)
    ensures ROOT in tabs && Injective(tabs) && NodeOf(v, ii).level == ii && NodeOf(v, ii) !in pages
    ensures ii == 0 <==> NodeOf(v, ii) == ROOT
    ensures ii > 0 ==> Parent(NodeOf(v, ii)) == NodeOf(v, ii - 1) && NodeOf(v, ii - 1) in tabs && NodeOf(v, ii - 1) != NodeOf(v, ii)
  {
    NodeLevel(v, ii);
    NodeLevel(v, ii + 1);
    NodeParent(v, ii + 1);
    if ii == 0 { RootNode(v); } else { NodeParent(v, ii); }
    assert TableNode(tabs, NodeOf(v, ii));
    assert NodeOf(v, ii) in pages ==> PageNode(tabs, pages, NodeOf(v, ii));
  }

  /** The page of an entry is the frame of its table, `entry & !0xfff`. */
  lemma HomePage(tabs: Tables, c: Key)
    requires Hangs(tabs, c)
    ensures Home(tabs, c) / 4096 * 4096 == Slot(tabs[Parent(c)], 0)
  {
  }

  /** Address of the entry at depth `j` of the walk of `v`. */
  function EntryAt(tabs: Tables, v: nat, j: nat): nat { Home(tabs, NodeOf(v, j + 1)) }

  /** Dropping the table at depth `ii` leaves the entries above it where they are. */
  lemma EntriesKept(tabs: Tables, v: nat, ii: nat)
    requires 1 <= ii <= 3
    ensures forall j: nat :: j < ii ==> EntryAt(tabs - {NodeOf(v, ii)}, v, j) == EntryAt(tabs, v, j)
  {
    forall j: nat | j < ii
      ensures EntryAt(tabs - {NodeOf(v, ii)}, v, j) == EntryAt(tabs, v, j)
    {
      NodeParent(v, j + 1);
    }
  }

  /** The facts about a mapped page that unlinking it starts from. */
  lemma UnlinkStart(m: Memory, tabs: Tables, pages: Pages, v: nat, depth: nat, fs: set<Frame>)
    requires Shape(tabs, pages) && Rep(m, tabs, pages) && Filled(tabs, pages, {})
    requires 2 <= depth <= 4 && NodeOf(v, depth) in pages
    ensures var rest := pages - {NodeOf(v, depth)};
            && Shape(tabs, rest) && NodeOf(v, depth - 1) in tabs && Filled(tabs, rest, {NodeOf(v, depth - 1)})
            && RepWithHole(m, tabs, rest, NodeOf(v, depth))
    ensures Injective(tabs) && SubTables(tabs, tabs) && ROOT in tabs
    ensures OnlyFrames(m, m, fs) && TablesLogged([], tabs, tabs.Keys - tabs.Keys)
  {
    var leaf := NodeOf(v, depth);
    hide Rep, Filled, NodeOf, OnlyFrames, TablesLogged;
    NodeLevel(v, depth);
    NodeParent(v, depth);
    assert PageNode(tabs, pages, leaf);
    UnlinkPage(m, tabs, pages, leaf);
    FilledAfterUnlink(tabs, pages, leaf);
    OnlyFramesSelf(m, fs);
    NoneLogged(tabs);
  }

  /** Clearing an entry on the walk of `v` stays inside the tables. */
  lemma ClearInside(m0: Memory, m: Memory, tabs: Tables, fs: set<Frame>, v: nat, ii: nat, w: Word)
    requires ii <= 3 && NodeOf(v, ii) in tabs && tabs.Values <= fs
    requires OnlyFrames(m0, m, fs)
    ensures OnlyFrames(m0, Put(m, EntryAt(tabs, v, ii), w), fs)
    ensures EntryAt(tabs, v, ii) / 4096 * 4096 == Slot(tabs[NodeOf(v, ii)], 0)
  {
    NodeParent(v, ii + 1);
    HomesInTables(tabs, NodeOf(v, ii + 1));
    PutFramed(m0, m, fs, EntryAt(tabs, v, ii), w);
    HomePage(tabs, NodeOf(v, ii + 1));
  }

  lemma DropTable(t0: Tables, tabs: Tables, log: seq<Block>, p: Key)
    requires SubTables(tabs, t0) && p in tabs && TablesLogged(log, t0, t0.Keys - tabs.Keys)
    ensures SubTables(tabs - {p}, t0)
    ensures TablesLogged(log + [TableBlock(tabs, p)], t0, t0.Keys - (tabs - {p}).Keys)
  {
    LogTable(log, t0, t0.Keys - tabs.Keys, p);
    assert t0.Keys - (tabs - {p}).Keys == t0.Keys - tabs.Keys + {p};
  }

  /** What the translation of an address in a mapped page gives the unmap loop. */
  lemma PageFacts(tabs: Tables, pages: Pages, v: nat, level: nat)
    requires Shape(tabs, pages) && Canonical(v) && InPage(pages, v, level)
    ensures var m := Walk(tabs, pages, v);
            && VirtBase(m) == Some(Base(NodeOf(v, level)))
            && SizeOf(m).Some? && TypeDepth(SizeOf(m).value) == level
            && m.page.Some? && (m.page.value.0, Span(level)) == Backing(pages, NodeOf(v, level))
            && m.pml4e == Some(EntryAt(tabs, v, 0)) && m.pdpe == Some(EntryAt(tabs, v, 1))
            && (level > 2 ==> m.pde == Some(EntryAt(tabs, v, 2)))
            && (level > 3 ==> m.pte == Some(EntryAt(tabs, v, 3)))
  {
    WalkInverts(tabs, pages, v, level);
    TablesBelowWalk(tabs, pages, v, level);
    hide Span, Home, Bits, NodeOf, Canonical, Base, VirtBase, FinalPage, Slot;
    NodeLevel(v, level);
    EntryIsHome(tabs, v, 0);
    EntryIsHome(tabs, v, 1);
    EntryIsHome(tabs, v, 2);
    EntryIsHome(tabs, v, 3);
  }

  /** The abstract maps, the free frames and memory at one moment. */
  datatype State = State(tabs: Tables, pages: Pages, pool: set<Frame>, words: Memory)

  /** From `s0` to `s` exactly the pages of `gone` were unmapped: their entries and the tables
      that became empty are gone, and the frames behind them are free; `log` names each freed
      block once; only tables and frames free afterwards were written. */
  ghost predicate Unmapped(s0: State, s: State, log: seq<Block>, gone: set<Key>) {
    && s.pages == s0.pages - gone
    && SubTables(s.tabs, s0.tabs) && s.tabs.Values <= s0.tabs.Values
    && s.pool == s0.pool + (s0.tabs.Values - s.tabs.Values) + AllBackingFrames(s0.pages, gone)
    && FreedOnce(log, s0.pages, gone, s0.tabs, s0.tabs.Keys - s.tabs.Keys)
    && OnlyFrames(s0.words, s.words, s0.tabs.Values + s.pool)
  }

  lemma UnmappedPages(s0: State, s: State, log: seq<Block>, gone: set<Key>)
    requires Unmapped(s0, s, log, gone)
    ensures s.pages == s0.pages - gone
  {
  }

  lemma CoveredNeeds(pages: Pages, v: nat, size: nat)
    ensures Covered(pages, v, size) ==> size > 0 && v + size <= TWO64
  {
  }

  lemma CoveredCanonical(tabs: Tables, pages: Pages, v: nat, size: nat, u: nat)
    requires Shape(tabs, pages) && v <= u < v + size
    ensures Covered(pages, v, size) ==> Canonical(u)
  {
    if Covered(pages, v, size) { CoveredAt(tabs, pages, v, size, u); }
  }

  lemma FoundLevel(tabs: Tables, pages: Pages, v: nat) returns (level: nat)
    ensures Walk(tabs, pages, v).page.Some? ==> InPage(pages, v, level)
    ensures Walk(tabs, pages, v).page.None? ==> forall l: nat :: !InPage(pages, v, l)
  {
    level := if NodeOf(v, 2) in pages then 2 else if NodeOf(v, 3) in pages then 3 else 4;
  }

  lemma NothingUnmapped(s: State, lo: nat)
    ensures Unmapped(s, s, [], PagesFrom(s.pages, lo, lo))
  {
    assert PagesFrom(s.pages, lo, lo) == {};
    assert AllBackingFrames(s.pages, {}) == {};
    assert FreedAs([], [], s.pages, {}, s.tabs, s.tabs.Keys - s.tabs.Keys);
  }

  lemma FreeStart(s: State, v: nat, size: nat)
    requires Shape(s.tabs, s.pages) && size > 0
    ensures !Canonical(v) ==> !Covered(s.pages, v, size)
    ensures Canonical(v) && Walk(s.tabs, s.pages, v).page.None? ==> !Covered(s.pages, v, size)
    ensures Canonical(v) && Walk(s.tabs, s.pages, v).page.Some? ==>
              var b := VirtBase(Walk(s.tabs, s.pages, v));
              && b.Some? && b.value <= v && b.value <= TWO64 && Progress(s.pages, v, size, b.value, b.value, v)
              && Unmapped(s, s, [], PagesFrom(s.pages, b.value, b.value))
  {
    hide Walk, Shape, Covered, InPage, Unmapped, NodeOf, Progress;
    if Covered(s.pages, v, size) { CoveredAt(s.tabs, s.pages, v, size, v); }
    var level := FoundLevel(s.tabs, s.pages, v);
    if Canonical(v) && Walk(s.tabs, s.pages, v).page.Some? {
      InPageLevel(s.pages, v, level);
      ProgressStart(s.tabs, s.pages, v, size, level);
      WalkInverts(s.tabs, s.pages, v, level);
      NothingUnmapped(s, VirtBase(Walk(s.tabs, s.pages, v)).value);
    }
  }

  lemma InPageLevel(pages: Pages, v: nat, level: nat)
    requires InPage(pages, v, level)
    ensures 2 <= level <= 4 && NodeOf(v, level) in pages && NodeOf(v, level).level == level
  {
  }

  /** The page found next is one of the pages mapped at the start; if none is found the
      range was not covered. */
  lemma FreeLookup(s0: State, s1: State, v: nat, size: nat, lo: nat, pos: nat, at: nat) returns (level: nat)
    requires Shape(s0.tabs, s0.pages) && Progress(s0.pages, v, size, lo, pos, at) && Canonical(at)
    requires s1.pages == s0.pages - PagesFrom(s0.pages, lo, pos)
    ensures Walk(s1.tabs, s1.pages, at).page.None? ==> !Covered(s0.pages, v, size)
    ensures Walk(s1.tabs, s1.pages, at).page.Some? ==> InPage(s1.pages, at, level) && InPage(s0.pages, at, level)
  {
    level := FoundLevel(s1.tabs, s1.pages, at);
    forall l: nat | 2 <= l <= 4
      ensures InPage(s1.pages, at, l) <==> InPage(s0.pages, at, l)
    {
      LookupAhead(s0.tabs, s0.pages, lo, pos, at, l);
    }
    if Covered(s0.pages, v, size) { CoveredAt(s0.tabs, s0.pages, v, size, at); }
  }

  /** What a turn of the loop needs and gives. */
  lemma FreeTurn(s0: State, s1: State, log: seq<Block>, v: nat, size: nat, lo: nat, pos: nat, at: nat, level: nat)
    requires Shape(s0.tabs, s0.pages) && Shape(s1.tabs, s1.pages)
    requires NoTableMapped(s0.pages, s0.tabs, v, v + size)
    requires Progress(s0.pages, v, size, lo, pos, at) && Canonical(at)
    requires Unmapped(s0, s1, log, PagesFrom(s0.pages, lo, pos))
    requires InPage(s1.pages, at, level) && InPage(s0.pages, at, level)
    requires lo == pos ==> VirtBase(Walk(s1.tabs, s1.pages, at)) == Some(lo)
    ensures var c := NodeOf(at, level);
            var next := pos + Span(level);
            && c in s0.pages && c in s1.pages && s1.pages[c] == s0.pages[c] && c !in PagesFrom(s0.pages, lo, pos)
            && Base(c) == pos && next <= TWO64 && Span(level) > 0
            && PagesFrom(s0.pages, lo, next) == PagesFrom(s0.pages, lo, pos) + {c}
            && BackingFrames(s1.pages, c) !! s1.tabs.Values && PagesFrom(s0.pages, lo, pos) <= s0.pages.Keys
            && (next < v + size ==> Progress(s0.pages, v, size, lo, next, next) && v <= next && lo < next)
            && (next >= v + size ==> Tiled(s0.pages, lo, next) && (Covered(s0.pages, v, size) ==> lo == v && next <= v + size))
  {
    var c := NodeOf(at, level);
    if lo == pos { WalkInverts(s1.tabs, s1.pages, at, level); }
    ProgressStep(s0.tabs, s0.pages, v, size, lo, pos, at, level);
  }

  lemma UnmappedStep(s0: State, s1: State, s2: State, log: seq<Block>, seg: seq<Block>, gone: set<Key>, c: Key)
    requires Shape(s0.tabs, s0.pages) && Unmapped(s0, s1, log, gone) && gone <= s0.pages.Keys
    requires c in s0.pages && c in s1.pages && s1.pages[c] == s0.pages[c] && c !in gone
    requires s2.pages == s1.pages - {c}
    requires SubTables(s2.tabs, s1.tabs) && s2.tabs.Values <= s1.tabs.Values
    requires s2.pool == s1.pool + (s1.tabs.Values - s2.tabs.Values) + BackingFrames(s1.pages, c)
    requires TablesLogged(seg, s1.tabs, s1.tabs.Keys - s2.tabs.Keys)
    requires OnlyFrames(s1.words, s2.words, s1.tabs.Values + s2.pool)
    ensures Unmapped(s0, s2, log + seg + [Backing(s1.pages, c)], gone + {c})
  {
    PagesAreNoTables(s0.tabs, s0.pages);
    SubTrans(s0.tabs, s1.tabs, s2.tabs);
    MinusTwice(s0.pages, gone, c);
    hide Backing, BackingFrames, AllBackingFrames, FreedOnce, TablesLogged, OnlyFrames, Shape, SubTables;
    LogPage(log, seg, s0.pages, gone, s0.tabs, s1.tabs, s2.tabs, c);
    SameBacking(s0.pages, s1.pages, c);
    AllFramesAdd(s0.pages, s0.pages, gone, c);
    PoolSum(s0.pool, s1.pool, s2.pool, s0.tabs.Values, s1.tabs.Values, s2.tabs.Values,
            AllBackingFrames(s0.pages, gone), BackingFrames(s0.pages, c));
    WordsSum(s0.words, s1.words, s2.words, s0.tabs.Values, s1.tabs.Values, s1.pool, s2.pool);
  }

  lemma SubTrans(t0: Tables, t1: Tables, t2: Tables)
    requires SubTables(t1, t0) && SubTables(t2, t1)
    ensures SubTables(t2, t0)
  {
  }

  lemma MinusTwice(pages: Pages, gone: set<Key>, c: Key)
    ensures pages - gone - {c} == pages - (gone + {c})
  {
  }

  lemma PoolSum(p0: set<Frame>, p1: set<Frame>, p2: set<Frame>, v0: set<Frame>, v1: set<Frame>, v2: set<Frame>,
                a: set<Frame>, b: set<Frame>)
    requires v2 <= v1 <= v0 && p1 == p0 + (v0 - v1) + a && p2 == p1 + (v1 - v2) + b
    ensures p2 == p0 + (v0 - v2) + (a + b) && p1 <= p2
  {
  }

  lemma WordsSum(m0: Memory, m1: Memory, m2: Memory, v0: set<Frame>, v1: set<Frame>, p1: set<Frame>, p2: set<Frame>)
    requires OnlyFrames(m0, m1, v0 + p1) && OnlyFrames(m1, m2, v1 + p2) && v1 <= v0 && p1 <= p2
    ensures OnlyFrames(m0, m2, v0 + p2)
  {
    hide OnlyFrames;
    OnlyFramesWiden(m0, m1, v0 + p1, v0 + p2);
    OnlyFramesWiden(m1, m2, v1 + p2, v0 + p2);
    OnlyFramesStep(m0, m1, m2, v0 + p2, v0 + p2);
  }

  lemma PagesAreNoTables(tabs: Tables, pages: Pages)
    requires Shape(tabs, pages)
    ensures pages.Keys !! tabs.Keys
  {
    forall c | c in pages
      ensures c !in tabs
    {
      assert PageNode(tabs, pages, c);
    }
  }

  lemma OnlyFramesWiden(m: Memory, m': Memory, fs: set<Frame>, fs': set<Frame>)
    requires OnlyFrames(m, m', fs) && fs <= fs'
    ensures OnlyFrames(m, m', fs')
  {
  }

  lemma LevelAdded(m: Memory, m0: Memory, tabs: Tables, pages: Pages, c: Key, f: Frame, free: set<Frame>)
    requires Shape(tabs, pages) && Rep(m, tabs, pages) && OnlyFrames(m, m0, free) && free !! tabs.Values
    requires 1 <= c.level <= 3 && Hangs(tabs, c) && c !in LiveNodes(tabs, pages) && Filled(tabs, pages, {Parent(c)})
    requires f in free
    requires forall i: nat :: i < 512 ==> Read(m0, Slot(f, i)) == ZERO
    ensures Parent(c).level > 0 ==> Read(m0, Home(tabs, Parent(c))).count < 1023
    ensures Shape(tabs[c := f], pages) && Filled(tabs[c := f], pages, {c})
    ensures var m' := Put(Bump(m0, tabs, Parent(c)), Home(tabs, c), TableWord(f, 0));
            Rep(m', tabs[c := f], pages) && OnlyFrames(m, m', tabs.Values + free)
    ensures tabs[c := f].Values == tabs.Values + {f} && tabs[c := f][ROOT] == tabs[ROOT]
  {
    hide Rep, Filled, Read, CellAt, Render, Num, Slot;
    var own := tabs.Values + free;
    RepElsewhere(m, m0, tabs, pages, free);
    TableCounted(m0, tabs, pages, c, f);
    AddTable(m0, tabs, pages, c, f);
    FilledAfterTable(tabs, pages, c, f);
    NewValues(tabs, c, f);
    assert TableNode(tabs, Parent(c));
    OnlyFramesWiden(m, m0, free, own);
    HomesInTables(tabs, c);
    if Parent(c).level > 0 {
      HomesInTables(tabs, Parent(c));
      PutFramed(m, m0, own, Home(tabs, Parent(c)),
                Read(m0, Home(tabs, Parent(c))).(count := Read(m0, Home(tabs, Parent(c))).count + 1));
    }
    PutFramed(m, Bump(m0, tabs, Parent(c)), own, Home(tabs, c), TableWord(f, 0));
  }

  lemma LeafAdded(m: Memory, tabs: Tables, pages: Pages, c: Key, w: Word)
    requires Shape(tabs, pages) && Rep(m, tabs, pages)
    requires 2 <= c.level <= 4 && Hangs(tabs, c) && c !in LiveNodes(tabs, pages) && Filled(tabs, pages, {Parent(c)})
    requires w.present && (c.level < 4 ==> w.large)
    ensures Read(m, Home(tabs, Parent(c))).count < 1023
    ensures Shape(tabs, pages[c := w]) && Filled(tabs, pages[c := w], {})
    ensures var m' := Put(Bump(m, tabs, Parent(c)), Home(tabs, c), w);
            Rep(m', tabs, pages[c := w]) && OnlyFrames(m, m', tabs.Values)
  {
    hide Rep, Filled, Read, CellAt, Render, Num, Slot;
    AddPage(m, tabs, pages, c, w);
    FilledAfterPage(tabs, pages, c, w);
    assert TableNode(tabs, Parent(c));
    HomesInTables(tabs, c);
    HomesInTables(tabs, Parent(c));
    PutFramed(m, m, tabs.Values, Home(tabs, Parent(c)),
              Read(m, Home(tabs, Parent(c))).(count := Read(m, Home(tabs, Parent(c))).count + 1));
    PutFramed(m, Bump(m, tabs, Parent(c)), tabs.Values, Home(tabs, c), w);
  }

  /** A frame of the pool rewritten after other changes to the pool. */
  lemma FrameInPool(m: Memory, m': Memory, m'': Memory, pool: set<Frame>, f: Frame)
    requires OnlyFrames(m, m', pool) && OnlyFrame(m', m'', f) && f in pool
    ensures OnlyFrames(m, m'', pool)
  {
    forall a: nat | a / 4096 !in pool
      ensures CellAt(m'', a) == CellAt(m, a)
    {
      assert a / 4096 != f;
    }
  }

  lemma PutFramed(m: Memory, m': Memory, fs: set<Frame>, a: nat, w: Word)
    requires OnlyFrames(m, m', fs) && a / 4096 in fs
    ensures OnlyFrames(m, Put(m', a, w), fs)
  {
  }

  lemma HomeFrame(tabs: Tables, c: Key)
    requires Hangs(tabs, c)
    ensures Home(tabs, c) / 4096 == tabs[Parent(c)] && Home(tabs, c) % 8 == 0
  {
  }

  lemma HomesInTables(tabs: Tables, c: Key)
    requires Hangs(tabs, c)
    ensures Home(tabs, c) / 4096 in tabs.Values
  {
    assert tabs[Parent(c)] in tabs.Values;
    HomeFrame(tabs, c);
  }

  lemma NewValues(tabs: Tables, c: Key, f: Frame)
    requires c !in tabs
    ensures tabs[c := f].Values == tabs.Values + {f}
  {
    var tabs' := tabs[c := f];
    forall x | x in tabs.Values
      ensures x in tabs'.Values
    {
      var k :| k in tabs && tabs[k] == x;
      assert tabs'[k] == x;
    }
    assert tabs'[c] == f;
  }

  // ----- mapping a range -----

  /** A page of type `t` around `v` can be added. */
  ghost predicate Mappable(pages: Pages, v: nat, t: PageType) {
    Canonical(v) && !(exists q :: q in pages && Overlap(q, NodeOf(v, TypeDepth(t))))
  }

  /** Every page of the range of `size` bytes at `v` can be added. */
  ghost predicate RangeMappable(pages: Pages, v: nat, t: PageType, size: nat) {
    && size > 0 && v % TypeSize(t) == 0 && v + (size - 1) < TWO64
    && MappableUpTo(pages, v, t, size)
  }

  ghost predicate MappableAt(pages: Pages, v: nat, t: PageType, o: nat) { Mappable(pages, v + o, t) }

  /** The pages of `cs` have blocks of their own, outside the free frames and the tables. */
  ghost predicate OwnBlocks(s: State, cs: set<Key>) {
    && cs <= s.pages.Keys
    && (forall c :: c in cs ==> BackingFrames(s.pages, c) !! s.pool + s.tabs.Values)
    && (forall c, d :: c in cs && d in cs && c != d ==> BackingFrames(s.pages, c) !! BackingFrames(s.pages, d))
  }

  /** From `s0` to `s` exactly the pages of `cs` were added, with fresh memory behind them;
      the frames that left the pool are those pages and the new tables. */
  ghost predicate Added(s0: State, s: State, cs: set<Key>) {
    && cs !! s0.pages.Keys && s.pages.Keys == s0.pages.Keys + cs
    && (forall c :: c in s0.pages ==> s.pages[c] == s0.pages[c])
    && SubTables(s0.tabs, s.tabs) && s0.tabs.Values <= s.tabs.Values
    && OwnBlocks(s, cs)
    && s.pool <= s0.pool
    && s0.pool == s.pool + (s.tabs.Values - s0.tabs.Values) + AllBackingFrames(s.pages, cs)
    && OnlyFrames(s0.words, s.words, s0.tabs.Values + s0.pool)
  }

  lemma NothingAdded(s: State)
    ensures Added(s, s, {})
  {
    assert AllBackingFrames(s.pages, {}) == {};
    OnlyFramesSelf(s.words, s.tabs.Values + s.pool);
  }

  /** The backing block of a freshly written entry is the block it was made from. */
  lemma FreshBacking(pages: Pages, c: Key, p: nat, write: bool, exec: bool, large: bool)
    requires 2 <= c.level <= 4 && p % Span(c.level) == 0 && p % 4096 == 0 && p + Span(c.level) <= TWO52
    ensures p / 4096 < TWO40
    ensures var pages' := pages[c := LeafWord(p / 4096, write, exec, large)];
            Backing(pages', c) == (p, Span(c.level)) && BackingFrames(pages', c) == Frames(p, Span(c.level))
  {
    assert p / 4096 * 4096 == p;
    Quotient(p, Span(c.level), p / Span(c.level));
    Digit(p, 0, Span(c.level), p / Span(c.level));
  }

  /** One more page: `s1` with a block of the pool taken and filled, then mapped at `c`. */
  lemma AddedStep(s0: State, s1: State, m: Memory, s2: State, cs: set<Key>, c: Key, w: Word, p: nat)
    requires Added(s0, s1, cs) && s1.tabs.Values !! s1.pool && c !in s1.pages
    requires Frames(p, Span(c.level)) <= s1.pool
    requires OnlyFrames(s1.words, m, s1.pool)
    requires s2.pages == s1.pages[c := w] && BackingFrames(s2.pages, c) == Frames(p, Span(c.level))
    requires Extended(s1.tabs, s1.pool - Frames(p, Span(c.level)), s2.tabs, s2.pool)
    requires OnlyFrames(m, s2.words, s2.tabs.Values + s2.pool)
    ensures Added(s0, s2, cs + {c})
  {
    hide OnlyFrames, Frames, Span, BackingFrames, AllBackingFrames, OwnBlocks;
    var block := Frames(p, Span(c.level));
    forall d | d in cs
      ensures d in s2.pages && BackingFrames(s2.pages, d) == BackingFrames(s1.pages, d)
    {
      SameBacking(s1.pages, s2.pages, d);
    }
    AddedBlocks(s1, s2, cs, c, block);
    AllFramesAdd(s1.pages, s2.pages, cs, c);
    var all := s0.tabs.Values + s0.pool;
    OnlyFramesWiden(s1.words, m, s1.pool, all);
    OnlyFramesWiden(m, s2.words, s2.tabs.Values + s2.pool, all);
    OnlyFramesStep(s0.words, s1.words, m, all, all);
    OnlyFramesStep(s0.words, m, s2.words, all, all);
  }

  lemma SameBacking(pages: Pages, pages': Pages, d: Key)
    requires d in pages && d in pages' && pages[d] == pages'[d]
    ensures BackingFrames(pages', d) == BackingFrames(pages, d) && Backing(pages', d) == Backing(pages, d)
  {
  }

  lemma AllFramesAdd(pages: Pages, pages': Pages, cs: set<Key>, c: Key)
    requires cs <= pages.Keys && cs <= pages'.Keys && c in pages'
    requires forall d :: d in cs ==> BackingFrames(pages', d) == BackingFrames(pages, d)
    ensures AllBackingFrames(pages', cs + {c}) == AllBackingFrames(pages, cs) + BackingFrames(pages', c)
  {
    hide BackingFrames;
  }

  lemma AddedBlocks(s1: State, s2: State, cs: set<Key>, c: Key, block: set<Frame>)
    requires OwnBlocks(s1, cs) && c !in s1.pages && s1.tabs.Values !! s1.pool
    requires block <= s1.pool
    requires s2.pages.Keys == s1.pages.Keys + {c} && BackingFrames(s2.pages, c) == block
    requires forall d :: d in cs ==> d in s2.pages && BackingFrames(s2.pages, d) == BackingFrames(s1.pages, d)
    requires Extended(s1.tabs, s1.pool - block, s2.tabs, s2.pool)
    ensures OwnBlocks(s2, cs + {c})
  {
  }

  /** Where mapping a range stands: the pages of the first `off` bytes at `v` are in. */
  ghost predicate Growing(s0: State, s: State, t: PageType, v: nat, off: nat) {
    && v % TypeSize(t) == 0 && off % TypeSize(t) == 0 && v + off <= TWO64
    && Tiled(s.pages, v, v + off)
    && Added(s0, s, PagesFrom(s.pages, v, v + off))
    && OfDepth(PagesFrom(s.pages, v, v + off), TypeDepth(t))
    && MappableUpTo(s0.pages, v, t, off)
  }

  ghost predicate OfDepth(cs: set<Key>, depth: nat) { forall c :: c in cs ==> c.level == depth }

  ghost predicate MappableUpTo(pages: Pages, v: nat, t: PageType, off: nat) {
    forall o: nat :: o < off && o % TypeSize(t) == 0 ==> MappableAt(pages, v, t, o)
  }

  lemma GrowingStart(s: State, t: PageType, v: nat)
    requires v % TypeSize(t) == 0 && v <= TWO64
    ensures Growing(s, s, t, v, 0)
  {
    assert PagesFrom(s.pages, v, v) == {};
    NothingAdded(s);
  }

  lemma NodeInRange(v: nat, level: nat)
    requires 1 <= level <= 4
    ensures InRange(NodeOf(v, level))
  {
  }

  lemma Aligned(v: nat, off: nat, t: PageType)
    requires v % TypeSize(t) == 0 && off % TypeSize(t) == 0
    ensures (v + off) % TypeSize(t) == 0 && (off + TypeSize(t)) % TypeSize(t) == 0
  {
    hide TypeSize;
    var n := TypeSize(t);
    PageSizes(t);
    Spread(n, v / n, off / n);
    Digit(v + off, 0, n, v / n + off / n);
    Spread(n, off / n, 1);
    Digit(off + n, 0, n, off / n + 1);
  }

  lemma NextMultiple(o: nat, off: nat, t: PageType)
    requires o % TypeSize(t) == 0 && off % TypeSize(t) == 0 && o < off + TypeSize(t)
    ensures o <= off
  {
    match t
    case Page4K =>
    case Page2M =>
    case Page1G =>
  }

  /** The node at the end of the range starts exactly there. */
  lemma EndNode(v: nat, off: nat, t: PageType)
    requires v % TypeSize(t) == 0 && off % TypeSize(t) == 0 && Canonical(v + off)
    ensures Base(NodeOf(v + off, TypeDepth(t))) == v + off && InRange(NodeOf(v + off, TypeDepth(t)))
  {
    hide Base, Span, TypeSize;
    Aligned(v, off, t);
    NodeInRange(v + off, TypeDepth(t));
    BaseOfNode(v + off, TypeDepth(t));
  }

  /** The pages added so far do not get in the way of the next one. */
  lemma NextMappable(s0: State, s: State, t: PageType, v: nat, off: nat)
    requires Growing(s0, s, t, v, off)
    ensures Mappable(s.pages, v + off, t) <==> MappableAt(s0.pages, v, t, off)
  {
    var c := NodeOf(v + off, TypeDepth(t));
    NodeLevel(v + off, TypeDepth(t));
    if Canonical(v + off) {
      EndNode(v, off, t);
      hide NodeOf, Canonical, Tiled, Span, TypeSize, OnlyFrames, Base;
      forall q | q in PagesFrom(s.pages, v, v + off)
        ensures !Overlap(q, c)
      {
        BehindEnd(s.pages, v, v + off, q, c);
      }
      SameOverlaps(s0, s, PagesFrom(s.pages, v, v + off), c);
    }
  }

  lemma SameOverlaps(s0: State, s: State, cs: set<Key>, c: Key)
    requires Added(s0, s, cs) && forall q :: q in cs ==> !Overlap(q, c)
    ensures (exists q :: q in s.pages && Overlap(q, c)) <==> (exists q :: q in s0.pages && Overlap(q, c))
  {
    hide Overlap, OnlyFrames, OwnBlocks, AllBackingFrames;
    if q :| q in s.pages && Overlap(q, c) {
      assert q in s0.pages;
    }
    if q :| q in s0.pages && Overlap(q, c) {
      assert q in s.pages;
    }
  }

  /** Pages of one size that start at different addresses do not overlap. */
  lemma BehindEnd(pages: Pages, lo: nat, hi: nat, q: Key, c: Key)
    requires q in PagesFrom(pages, lo, hi) && q.level == c.level && Base(c) == hi
    ensures !Overlap(q, c)
  {
  }

  lemma MappableFresh(pages: Pages, v: nat, t: PageType)
    requires Mappable(pages, v, t)
    ensures Canonical(v) && NodeOf(v, TypeDepth(t)) !in pages
  {
    var c := NodeOf(v, TypeDepth(t));
    assert Overlap(c, c);
  }

  lemma GrowingStep(s0: State, s1: State, m: Memory, s2: State, t: PageType, v: nat, off: nat, w: Word, p: nat)
    requires Growing(s0, s1, t, v, off) && Shape(s2.tabs, s2.pages) && s1.tabs.Values !! s1.pool
    requires Mappable(s1.pages, v + off, t) && Frames(p, TypeSize(t)) <= s1.pool
    requires OnlyFrames(s1.words, m, s1.pool)
    requires s2.pages == s1.pages[NodeOf(v + off, TypeDepth(t)) := w]
    requires BackingFrames(s2.pages, NodeOf(v + off, TypeDepth(t))) == Frames(p, TypeSize(t))
    requires Extended(s1.tabs, s1.pool - Frames(p, TypeSize(t)), s2.tabs, s2.pool)
    requires OnlyFrames(m, s2.words, s2.tabs.Values + s2.pool)
    ensures Growing(s0, s2, t, v, off + TypeSize(t))
  {
    hide *;
    var c := NodeOf(v + off, TypeDepth(t));
    var n := TypeSize(t);
    PageSizes(t);
    GrowingParts(s0, s1, t, v, off);
    NodeLevel(v + off, TypeDepth(t));
    NextMappable(s0, s1, t, v, off);
    MappableFresh(s1.pages, v + off, t);
    EndNode(v, off, t);
    RangeGrows(s2.tabs, s1.pages, v, v + off, c, w);
    AddedStep(s0, s1, m, s2, PagesFrom(s1.pages, v, v + off), c, w, p);
    Aligned(v, off, t);
    MappableNext(s0.pages, v, t, off);
    DepthsAdd(PagesFrom(s1.pages, v, v + off), c);
    GrowingFrom(s0, s2, t, v, off + n);
  }

  lemma GrowingFrom(s0: State, s: State, t: PageType, v: nat, off: nat)
    requires v % TypeSize(t) == 0 && off % TypeSize(t) == 0 && v + off <= TWO64 && Tiled(s.pages, v, v + off)
    requires Added(s0, s, PagesFrom(s.pages, v, v + off)) && OfDepth(PagesFrom(s.pages, v, v + off), TypeDepth(t))
    requires MappableUpTo(s0.pages, v, t, off)
    ensures Growing(s0, s, t, v, off)
  {
  }

  lemma DepthsAdd(cs: set<Key>, c: Key)
    requires OfDepth(cs, c.level)
    ensures OfDepth(cs + {c}, c.level)
  {
  }

  lemma MappableNext(pages: Pages, v: nat, t: PageType, off: nat)
    requires MappableUpTo(pages, v, t, off) && off % TypeSize(t) == 0 && MappableAt(pages, v, t, off)
    ensures MappableUpTo(pages, v, t, off + TypeSize(t))
  {
    hide TypeSize, MappableAt;
    PageSizes(t);
    forall o: nat | o < off + TypeSize(t) && o % TypeSize(t) == 0
      ensures MappableAt(pages, v, t, o)
    {
      NextMultiple(o, off, t);
    }
  }

  // ----- entry words -----

  /** The 64-bit number of the entry of a fresh page: the address of its block, the present bit,
      and the flags asked for. */
  function EntryNumber(block: nat, t: PageType, write: bool, exec: bool): nat {
    block + 1 + (if write then 2 else 0) + (if t != Page4K then 128 else 0) + (if exec then 0 else TWO63)
  }

  /** The entries of the pages of the first `off` bytes at `v` carry exactly the flags asked for. */
  ghost predicate Flagged(pages: Pages, v: nat, off: nat, t: PageType, write: bool, exec: bool) {
    forall c :: c in PagesFrom(pages, v, v + off) ==>
      Encode(pages[c]) == EntryNumber(Backing(pages, c).0, t, write, exec)
  }

  lemma NothingFlagged(pages: Pages, v: nat, t: PageType, write: bool, exec: bool)
    ensures Flagged(pages, v, 0, t, write, exec)
  {
  }

  lemma FlaggedStep(s0: State, s1: State, s2: State, t: PageType, v: nat, off: nat, p: nat, write: bool, exec: bool)
    requires Growing(s0, s1, t, v, off) && Flagged(s1.pages, v, off, t, write, exec)
    requires Shape(s2.tabs, s2.pages) && Mappable(s1.pages, v + off, t) && p % 4096 == 0 && p / 4096 < TWO40
    requires s2.pages == s1.pages[NodeOf(v + off, TypeDepth(t)) := LeafWord(p / 4096, write, exec, t != Page4K)]
    requires Backing(s2.pages, NodeOf(v + off, TypeDepth(t))).0 == p
    ensures Flagged(s2.pages, v, off + TypeSize(t), t, write, exec)
  {
    var c := NodeOf(v + off, TypeDepth(t));
    NewWordBits(p / 4096, write, exec, t != Page4K);
    hide Encode, LeafWord, Growing, Tiled, NodeOf, Canonical, Mappable, Base, Shape, TypeSize, PagesFrom, PageOf;
    GrowingParts(s0, s1, t, v, off);
    PageSizes(t);
    NodeLevel(v + off, TypeDepth(t));
    MappableFresh(s1.pages, v + off, t);
    EndNode(v, off, t);
    RangeGrows(s2.tabs, s1.pages, v, v + off, c, s2.pages[c]);
    FlaggedMore(s1.pages, s2.pages, v, off, t, c, write, exec);
  }

  lemma FlaggedMore(pages: Pages, pages': Pages, v: nat, off: nat, t: PageType, c: Key, write: bool, exec: bool)
    requires Flagged(pages, v, off, t, write, exec) && c in pages' && pages' == pages[c := pages'[c]] && c !in pages
    requires PagesFrom(pages', v, v + off + TypeSize(t)) == PagesFrom(pages, v, v + off) + {c}
    requires Encode(pages'[c]) == EntryNumber(Backing(pages', c).0, t, write, exec)
    ensures Flagged(pages', v, off + TypeSize(t), t, write, exec)
  {
    hide Encode, EntryNumber, PageOf, TypeSize, Base;
  }

  // ----- rolling back -----

  lemma RollbackReady(s0: State, s: State, t: PageType, v: nat, off: nat)
    requires Growing(s0, s, t, v, off) && off > 0 && Shape(s.tabs, s.pages)
    ensures Covered(s.pages, v, off)
    ensures NoTableMapped(s.pages, s.tabs, v, v + off)
  {
    hide NodeOf, Canonical, Tiled, Span, TypeSize, OnlyFrames, Base, Frames, BackingFrames, Shape, PagesFrom, Touches;
    forall c | c in s.pages && Touches(c, v, v + off)
      ensures c in PagesFrom(s.pages, v, v + off)
    {
      TouchesTiled(s.tabs, s.pages, v, v + off, c);
    }
  }

  /** Unmapping what was added restores the maps and the tables; the pool is short by what
      was taken since. */
  lemma RolledBack(s0: State, s1: State, taken: set<Frame>, m: Memory, s2: State, log: seq<Block>, cs: set<Key>)
    requires Added(s0, s1, cs) && s1.tabs.Values !! s1.pool && taken <= s1.pool
    requires OnlyFrames(s1.words, m, s1.pool)
    requires Unmapped(State(s1.tabs, s1.pages, s1.pool - taken, m), s2, log, cs)
    requires Shape(s0.tabs, s0.pages) && Filled(s0.tabs, s0.pages, {})
    requires Shape(s2.tabs, s2.pages) && Filled(s2.tabs, s2.pages, {})
    ensures s2.pages == s0.pages && s2.tabs == s0.tabs && s2.pool == s0.pool - taken
    ensures OnlyFrames(s0.words, s2.words, s0.tabs.Values + s0.pool)
  {
    hide OnlyFrames, BackingFrames, AllBackingFrames, FreedOnce, Shape, Filled;
    assert s2.pages == s0.pages;
    TablesRestored(s0.tabs, s1.tabs, s2.tabs, s0.pages);
    OwnAll(s1, cs);
    var all := s0.tabs.Values + s0.pool;
    OnlyFramesWiden(s1.words, m, s1.pool, all);
    OnlyFramesWiden(m, s2.words, s1.tabs.Values + s2.pool, all);
    OnlyFramesStep(s0.words, s1.words, m, all, all);
    OnlyFramesStep(s0.words, m, s2.words, all, all);
  }

  lemma OwnAll(s: State, cs: set<Key>)
    requires OwnBlocks(s, cs)
    ensures AllBackingFrames(s.pages, cs) !! s.pool + s.tabs.Values
  {
    hide BackingFrames;
  }

  // ----- contents -----

  /** An address in a mapped page resolves into the block behind that page. */
  lemma ResolveIn(tabs: Tables, pages: Pages, u: nat, level: nat)
    requires Shape(tabs, pages) && InPage(pages, u, level)
    ensures Resolve(pages, u) == Some(Backing(pages, NodeOf(u, level)).0 + u % Span(level))
    ensures Backing(pages, NodeOf(u, level)).1 == Span(level)
    ensures Resolve(pages, u).value / 4096 in BackingFrames(pages, NodeOf(u, level))
  {
    TablesBelowWalk(tabs, pages, u, level);
    var w, n := pages[NodeOf(u, level)], Span(level);
    RoundedDown(w.frame, level);
    RoundedFits(w.frame, level);
    FrameOfByte(Backing(pages, NodeOf(u, level)).0, n, u % n);
  }

  lemma RoundedFits(frame: Frame, level: nat)
    requires 2 <= level <= 4
    ensures frame * 4096 / Span(level) * Span(level) + Span(level) <= TWO52
  {
    match level
    case 2 =>
    case 3 =>
    case 4 =>
  }

  /** Bytes already placed stay in place while memory outside their blocks changes. */
  lemma HoldsKept(t1: Tables, s1: State, s2: State, v: nat, off: nat, init: nat -> byte, changed: set<Frame>)
    requires Holds(s1.words, s1.pages, v, off, init) && Tiled(s1.pages, v, v + off)
    requires Shape(t1, s1.pages) && Shape(s2.tabs, s2.pages)
    requires forall c :: c in s1.pages ==> c in s2.pages && s2.pages[c] == s1.pages[c]
    requires forall c :: c in PagesFrom(s1.pages, v, v + off) ==> BackingFrames(s1.pages, c) !! changed
    requires OnlyFrames(s1.words, s2.words, changed)
    ensures Holds(s2.words, s2.pages, v, off, init)
  {
    hide ByteAt, OnlyFrames, BackingFrames, Backing, NodeOf, Span, Shape, Resolve, Canonical;
    forall o: nat | o < off
      ensures HoldsAt(s2.words, s2.pages, v, init, o)
    {
      assert TiledAt(s1.pages, v, v + off, v + o);
      var l: nat :| InPage(s1.pages, v + o, l) && Within(NodeOf(v + o, l), v, v + off);
      InPageLevel(s1.pages, v + o, l);
      var c := NodeOf(v + o, l);
      InPageLater(s1.pages, s2.pages, v + o, l);
      ResolveIn(t1, s1.pages, v + o, l);
      ResolveIn(s2.tabs, s2.pages, v + o, l);
      SameBacking(s1.pages, s2.pages, c);
      SpanPositive(c.level);
      assert c in PagesFrom(s1.pages, v, v + off);
      assert HoldsAt(s1.words, s1.pages, v, init, o);
      BytesKept(s1.words, s2.words, changed, Resolve(s1.pages, v + o).value);
    }
  }

  lemma SpanPositive(level: nat)
    ensures Span(level) > 0
  {
  }

  lemma InPageLater(pages: Pages, pages': Pages, u: nat, level: nat)
    requires InPage(pages, u, level) && pages.Keys <= pages'.Keys
    ensures InPage(pages', u, level)
  {
  }

  /** The bytes of the page mapped last. */
  lemma HoldsNew(s: State, m: Memory, changed: set<Frame>, t: PageType, v: nat, off: nat, p: nat, init: nat -> byte)
    requires Shape(s.tabs, s.pages) && v % TypeSize(t) == 0 && off % TypeSize(t) == 0 && Canonical(v + off)
    requires NodeOf(v + off, TypeDepth(t)) in s.pages && Backing(s.pages, NodeOf(v + off, TypeDepth(t))) == (p, TypeSize(t))
    requires BytesAre(m, p, TypeSize(t), init, off)
    requires OnlyFrames(m, s.words, changed) && BackingFrames(s.pages, NodeOf(v + off, TypeDepth(t))) !! changed
    ensures forall o: nat :: off <= o < off + TypeSize(t) ==> HoldsAt(s.words, s.pages, v, init, o)
  {
    hide ByteAt, OnlyFrames, BackingFrames, Backing, Shape, Resolve;
    var d := TypeDepth(t);
    var c := NodeOf(v + off, d);
    NodeLevel(v + off, d);
    EndNode(v, off, t);
    forall o: nat | off <= o < off + TypeSize(t)
      ensures HoldsAt(s.words, s.pages, v, init, o)
    {
      NodeRange(c, v + o);
      InPageLater(s.pages, s.pages, v + o, d);
      ResolveIn(s.tabs, s.pages, v + o, d);
      OffsetInPage(v, off, t, o);
      assert ByteFrom(m, p, o - off) == init(off + (o - off));
      BytesKept(m, s.words, changed, Resolve(s.pages, v + o).value);
    }
  }

  lemma OffsetInPage(v: nat, off: nat, t: PageType, o: nat)
    requires v % TypeSize(t) == 0 && off % TypeSize(t) == 0 && off <= o < off + TypeSize(t)
    ensures (v + o) % TypeSize(t) == o - off
  {
    Aligned(v, off, t);
    Digit(v + o, o - off, TypeSize(t), (v + off) / TypeSize(t));
  }

  // ----- the request as a whole -----

  /** `size` rounded up to whole pages. */
  function RoundUp(size: nat, t: PageType): nat { (size + TypeSize(t) - 1) / TypeSize(t) * TypeSize(t) }

  lemma RoundUpIs(size: nat, t: PageType, off: nat)
    requires off % TypeSize(t) == 0 && size <= off < size + TypeSize(t)
    ensures RoundUp(size, t) == off
  {
    var n := TypeSize(t);
    Digit(size + n - 1, size + n - 1 - off, n, off / n);
  }

  /** The pool lost exactly one aligned block of `n` bytes. */
  ghost predicate ShortByOneBlock(pool: set<Frame>, pool': set<Frame>, n: nat) {
    exists p: nat :: LostBlock(pool, pool', p, n)
  }

  ghost predicate LostBlock(pool: set<Frame>, pool': set<Frame>, p: nat, n: nat) {
    && n > 0 && p % n == 0 && p + n <= TWO52
    && Frames(p, n) <= pool && pool' == pool - Frames(p, n)
  }

  /** A lost block is missed. */
  lemma PoolShrinks(pool: set<Frame>, pool': set<Frame>, t: PageType)
    requires ShortByOneBlock(pool, pool', TypeSize(t))
    ensures pool' < pool
  {
    hide Frames;
    var p: nat :| LostBlock(pool, pool', p, TypeSize(t));
    PageAligned(p, t);
    FrameOfByte(p, TypeSize(t), 0);
  }

  /** The request is refused before any page of it is tried. */
  predicate Malformed(v: nat, t: PageType, size: nat) { size == 0 || v % TypeSize(t) != 0 || v + (size - 1) >= TWO64 }

  /** No entry of any table differs. */
  ghost predicate SameTableWords(m: Memory, m': Memory, tabs: Tables) {
    forall c: Key :: Hangs(tabs, c) ==> Read(m', Home(tabs, c)) == Read(m, Home(tabs, c))
  }

  lemma SameRep(m: Memory, m': Memory, tabs: Tables, pages: Pages)
    requires Rep(m, tabs, pages) && Rep(m', tabs, pages)
    ensures SameTableWords(m, m', tabs)
  {
    forall c: Key | Hangs(tabs, c)
      ensures Read(m', Home(tabs, c)) == Read(m, Home(tabs, c))
    {
      assert Read(m, Home(tabs, c)) == Render(tabs, pages, c);
    }
  }

  /** Memory that is not a table can change freely. */
  lemma RepElsewhere(m: Memory, m': Memory, tabs: Tables, pages: Pages, fs: set<Frame>)
    requires Rep(m, tabs, pages) && OnlyFrames(m, m', fs) && fs !! tabs.Values
    ensures Rep(m', tabs, pages)
  {
    forall c: Key | Hangs(tabs, c)
      ensures Read(m', Home(tabs, c)) == Render(tabs, pages, c)
    {
      HomesInTables(tabs, c);
      assert Read(m, Home(tabs, c)) == Render(tabs, pages, c);
    }
  }

  /** The same in the middle of an unmap. */
  lemma HoleElsewhere(m: Memory, m': Memory, tabs: Tables, pages: Pages, c: Key, fs: set<Frame>)
    requires RepWithHole(m, tabs, pages, c) && OnlyFrames(m, m', fs) && fs !! tabs.Values
    ensures RepWithHole(m', tabs, pages, c)
  {
    forall d: Key | Hangs(tabs, d) && d != c
      ensures Read(m', Home(tabs, d)) == Stale(tabs, pages, c, d)
    {
      HomesInTables(tabs, d);
      assert Read(m, Home(tabs, d)) == Stale(tabs, pages, c, d);
    }
  }

  /** A fresh entry can be mapped exactly where a page of its type fits. */
  lemma FreshEntry(pages: Pages, v: nat, t: PageType, f: Frame, write: bool, exec: bool)
    ensures CanMap(pages, v, t, LeafWord(f, write, exec, t != Page4K)) <==> Mappable(pages, v, t)
  {
  }

  lemma RangeRefused(pages: Pages, v: nat, t: PageType, size: nat, off: nat)
    requires off < size && off % TypeSize(t) == 0 && !MappableAt(pages, v, t, off)
    ensures !RangeMappable(pages, v, t, size)
  {
  }

  lemma RangeAccepted(s0: State, s: State, t: PageType, v: nat, size: nat, off: nat)
    requires Growing(s0, s, t, v, off) && 0 < size <= off && v + (size - 1) < TWO64
    ensures RangeMappable(s0.pages, v, t, size)
  {
  }

  lemma GrowingParts(s0: State, s: State, t: PageType, v: nat, off: nat)
    requires Growing(s0, s, t, v, off)
    ensures v % TypeSize(t) == 0 && off % TypeSize(t) == 0 && Tiled(s.pages, v, v + off)
    ensures Added(s0, s, PagesFrom(s.pages, v, v + off)) && OwnBlocks(s, PagesFrom(s.pages, v, v + off))
    ensures OfDepth(PagesFrom(s.pages, v, v + off), TypeDepth(t)) && MappableUpTo(s0.pages, v, t, off)
    ensures off == 0 ==> s.pages == s0.pages
  {
    if off == 0 {
      assert PagesFrom(s.pages, v, v) == {};
    }
  }

  /** When the first page is refused nothing has been added. */
  lemma NothingGrown(s0: State, s: State, t: PageType, v: nat)
    requires Growing(s0, s, t, v, 0)
    requires Shape(s0.tabs, s0.pages) && Filled(s0.tabs, s0.pages, {}) && Shape(s.tabs, s.pages) && Filled(s.tabs, s.pages, {})
    ensures s.pages == s0.pages && s.tabs == s0.tabs && s.pool == s0.pool
    ensures OnlyFrames(s0.words, s.words, s0.tabs.Values + s0.pool)
  {
    GrowingParts(s0, s, t, v, 0);
    TablesRestored(s0.tabs, s.tabs, s.tabs, s0.pages);
    assert PagesFrom(s.pages, v, v) == {};
    assert AllBackingFrames(s.pages, {}) == {};
  }

  /** The contents after one more page. */
  lemma HoldsStep(s0: State, s1: State, m: Memory, s2: State, t: PageType, v: nat, off: nat, p: nat, init: nat -> byte)
    requires Growing(s0, s1, t, v, off) && Growing(s0, s2, t, v, off + TypeSize(t))
    requires Shape(s1.tabs, s1.pages) && Shape(s2.tabs, s2.pages) && Canonical(v + off)
    requires forall c :: c in s1.pages ==> c in s2.pages && s2.pages[c] == s1.pages[c]
    requires NodeOf(v + off, TypeDepth(t)) in s2.pages && Backing(s2.pages, NodeOf(v + off, TypeDepth(t))) == (p, TypeSize(t))
    requires Holds(s1.words, s1.pages, v, off, init) && BytesAre(m, p, TypeSize(t), init, off)
    requires OnlyFrames(s1.words, m, s1.pool) && OnlyFrames(m, s2.words, s2.tabs.Values + s2.pool)
    requires Extended(s1.tabs, s1.pool - Frames(p, TypeSize(t)), s2.tabs, s2.pool)
    ensures Holds(s2.words, s2.pages, v, off + TypeSize(t), init)
  {
    hide Added, Tiled, Canonical, OnlyFrames, Backing, Shape, BytesAre, HoldsAt, NodeOf, TypeSize, Frames, Span, BackingFrames, MappableAt, Base;
    GrowingParts(s0, s1, t, v, off);
    GrowingParts(s0, s2, t, v, off + TypeSize(t));
    var d := TypeDepth(t);
    var c := NodeOf(v + off, d);
    EndNode(v, off, t);
    SpanPositive(d);
    assert c in PagesFrom(s2.pages, v, v + (off + TypeSize(t)));
    HoldsNew(s2, m, s2.tabs.Values + s2.pool, t, v, off, p, init);
    var changed := s1.tabs.Values + s1.pool;
    OnlyFramesWiden(s1.words, m, s1.pool, changed);
    OnlyFramesWiden(m, s2.words, s2.tabs.Values + s2.pool, changed);
    OnlyFramesStep(s1.words, m, s2.words, changed, changed);
    forall e | e in PagesFrom(s1.pages, v, v + off)
      ensures BackingFrames(s1.pages, e) !! changed
    {
      SameBacking(s1.pages, s2.pages, e);
    }
    HoldsKept(s1.tabs, s1, s2, v, off, init, changed);
  }

  lemma PageSizes(t: PageType)
    ensures TypeSize(t) > 0 && TypeSize(t) % 4096 == 0 && TypeSize(t) == Span(TypeDepth(t))
  {
  }

  lemma HoldsNothing(m: Memory, pages: Pages, v: nat, init: Option<nat -> byte>)
    ensures init.Some? ==> Holds(m, pages, v, 0, init.value)
  {
  }

  /** A malformed request is refused with nothing touched. */
  lemma Refusal(s: State, v: nat, t: PageType, size: nat)
    ensures RangeMappable(s.pages, v, t, size) ==> !Malformed(v, t, size)
    ensures Malformed(v, t, size) <==> size == 0 || v % TypeSize(t) != 0 || v + (size - 1) >= TWO64
    ensures SameTableWords(s.words, s.words, s.tabs)
    ensures OnlyFrames(s.words, s.words, s.tabs.Values + s.pool)
  {
  }

  lemma OneBlock(pool: set<Frame>, p: nat, n: nat)
    requires Frames(p, n) <= pool && n > 0 && p % n == 0 && p + n <= TWO52
    ensures ShortByOneBlock(pool, pool - Frames(p, n), n)
  {
    assert LostBlock(pool, pool - Frames(p, n), p, n);
  }

  lemma PageAligned(p: nat, t: PageType)
    requires p % TypeSize(t) == 0 && p + TypeSize(t) <= TWO52
    ensures p % 4096 == 0 && p / 4096 < TWO40
  {
    var n := match t case Page4K => 1 case Page2M => 512 case Page1G => 512 * 512;
    var q := p / TypeSize(t);
    assert p == 4096 * (n * q);
    Digit(p, 0, 4096, n * q);
  }
}
