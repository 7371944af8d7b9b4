/** Ranges of virtual addresses that are made up of whole mapped pages, and the physical
    blocks behind them. */
module PageCover {
  import opened Basics
  import opened Arith
  import opened PageWords
  import opened PageShape
  import opened PageAddr

  /** Frame `f` lies in the `size` bytes at `p`. */
  predicate FrameIn(p: nat, size: nat, f: nat) { p <= f * 4096 < p + size }

  function Frames(p: nat, size: nat): set<Frame> {
    set f: Frame | 0 <= f < TWO40 && FrameIn(p, size, f)
  }

  /** Only words of frame `f` differ. */
  ghost predicate OnlyFrame(m: Memory, m': Memory, f: nat) {
    forall a: nat {:trigger CellAt(m', a)} {:trigger CellAt(m, a)} :: !(f * 4096 <= a < f * 4096 + 4096) ==> CellAt(m', a) == CellAt(m, a)
  }

  /** Only words of frames in `fs` differ. */
  ghost predicate OnlyFrames(m: Memory, m': Memory, fs: set<Frame>) {
    forall a: nat {:trigger CellAt(m', a)} {:trigger CellAt(m, a)} :: a / 4096 !in fs ==> CellAt(m', a) == CellAt(m, a)
  }

  /** The physical block behind a page. */
  function Backing(pages: Pages, c: Key): (nat, nat)
    requires c in pages
  {
    (PageOf(pages[c], c.level, 0).0, Span(c.level))
  }

  function BackingFrames(pages: Pages, c: Key): set<Frame>
    requires c in pages
  {
    Frames(Backing(pages, c).0, Backing(pages, c).1)
  }

  function AllBackingFrames(pages: Pages, cs: set<Key>): set<Frame> {
    set c, f | c in cs && c in pages && f in BackingFrames(pages, c) :: f
  }

  predicate Within(c: Key, lo: nat, hi: nat) { lo <= Base(c) && Base(c) + Span(c.level) <= hi }

  predicate Touches(c: Key, lo: nat, hi: nat) { Base(c) < hi && lo < Base(c) + Span(c.level) }

  predicate InPage(pages: Pages, u: nat, level: nat) { 2 <= level <= 4 && NodeOf(u, level) in pages }

  /** Every address from `lo` up to `hi` lies in a mapped page that lies inside the range. */
  ghost predicate Tiled(pages: Pages, lo: nat, hi: nat) {
    forall u: nat :: lo <= u < hi ==> TiledAt(pages, lo, hi, u)
  }

  ghost predicate TiledAt(pages: Pages, lo: nat, hi: nat, u: nat) {
    Canonical(u) && exists level: nat :: InPage(pages, u, level) && Within(NodeOf(u, level), lo, hi)
  }

  /** The range of `size` bytes at `v` is covered exactly by whole mapped pages. */
  ghost predicate Covered(pages: Pages, v: nat, size: nat) {
    size > 0 && v + size <= TWO64 && Tiled(pages, v, v + size)
  }

  function PagesFrom(pages: Pages, lo: nat, hi: nat): set<Key> {
    set c | c in pages && lo <= Base(c) < hi
  }

  /** No page touching the range maps a table. */
  ghost predicate NoTableMapped(pages: Pages, tabs: Tables, lo: nat, hi: nat) {
    forall c :: c in pages && Touches(c, lo, hi) ==> BackingFrames(pages, c) !! tabs.Values
  }

  lemma BackingNotEmpty(pages: Pages, c: Key)
    requires c in pages && 2 <= c.level <= 4
    ensures Backing(pages, c).0 / 4096 in BackingFrames(pages, c)
  {
    var p := Backing(pages, c).0;
    var f := p / 4096;
    RoundedDown(pages[c].frame, c.level);
    assert f * 4096 == p && f < TWO40;
    assert FrameIn(p, Span(c.level), f);
  }

  lemma RoundedDown(frame: Frame, level: nat)
    requires 2 <= level <= 4
    ensures frame * 4096 / Span(level) * Span(level) <= frame * 4096
    ensures frame * 4096 / Span(level) * Span(level) % 4096 == 0
  {
    match level
    case 2 => PageMultiple(frame * 4096 / 0x4000_0000, 0x4_0000);
    case 3 => PageMultiple(frame * 4096 / 0x20_0000, 512);
    case 4 => PageMultiple(frame * 4096 / 0x1000, 1);
  }

  lemma PageMultiple(q: nat, k: nat)
    ensures q * (4096 * k) % 4096 == 0
  {
    Reorder(q, k);
    Digit(q * (4096 * k), 0, 4096, q * k);
  }

  lemma Reorder(q: nat, k: nat)
    ensures q * (4096 * k) == 4096 * (q * k)
  {
  }

  // ----- walking over the pages of a range -----

  /** A page that starts where the tiled range ends: the next page begins exactly there. */
  lemma NextPageBase(tabs: Tables, pages: Pages, lo: nat, pos: nat, level: nat)
    requires Shape(tabs, pages) && lo < pos && Tiled(pages, lo, pos) && Canonical(pos) && InPage(pages, pos, level)
    ensures Base(NodeOf(pos, level)) == pos
  {
    var c := NodeOf(pos, level);
    NodesInRange(tabs, pages, c);
    NodeRange(c, pos);
    if Base(c) < pos {
      var u := pos - 1;
      NodeRange(c, u);
      assert TiledAt(pages, lo, pos, u);
      var l: nat :| InPage(pages, u, l) && Within(NodeOf(u, l), lo, pos);
      OnePage(tabs, pages, u, l, level);
      assert false;
    }
  }

  /** The tiled range grows by the page at its end. */
  lemma TiledGrows(tabs: Tables, pages: Pages, lo: nat, pos: nat, c: Key)
    requires Shape(tabs, pages) && lo <= pos && Tiled(pages, lo, pos) && c in pages && Base(c) == pos
    ensures 2 <= c.level <= 4 && pos + Span(c.level) <= TWO64
    ensures Tiled(pages, lo, pos + Span(c.level))
    ensures PagesFrom(pages, lo, pos + Span(c.level)) == PagesFrom(pages, lo, pos) + {c}
  {
    assert PageNode(tabs, pages, c);
    NodesInRange(tabs, pages, c);
    NodeRange(c, pos);
    var hi := pos + Span(c.level);
    forall u: nat | lo <= u < hi
      ensures TiledAt(pages, lo, hi, u)
    {
      if u < pos {
        assert TiledAt(pages, lo, pos, u);
        var l: nat :| InPage(pages, u, l) && Within(NodeOf(u, l), lo, pos);
        assert InPage(pages, u, l) && Within(NodeOf(u, l), lo, hi);
      } else {
        NodeRange(c, u);
        assert InPage(pages, u, c.level) && Within(NodeOf(u, c.level), lo, hi);
      }
    }
    forall d | d in pages && pos <= Base(d) < hi
      ensures d == c
    {
      assert PageNode(tabs, pages, d);
      NodesInRange(tabs, pages, d);
      NodeRange(d, Base(d));
      NodeRange(c, Base(d));
      OnePage(tabs, pages, Base(d), c.level, d.level);
    }
  }

  /** Pages already passed do not matter for an address at or after the end of the range. */
  lemma LookupAhead(tabs: Tables, pages: Pages, lo: nat, pos: nat, u: nat, level: nat)
    requires Shape(tabs, pages) && Tiled(pages, lo, pos) && pos <= u && Canonical(u) && 2 <= level <= 4
    ensures InPage(pages - PagesFrom(pages, lo, pos), u, level) <==> InPage(pages, u, level)
  {
    var c := NodeOf(u, level);
    if c in PagesFrom(pages, lo, pos) {
      var b := Base(c);
      NodesInRange(tabs, pages, c);
      NodeRange(c, u);
      assert TiledAt(pages, lo, pos, b);
      var l: nat :| InPage(pages, b, l) && Within(NodeOf(b, l), lo, pos);
      OnePage(tabs, pages, b, level, l);
      assert false;
    }
  }

  /** Where an unmap of `size` bytes at `v` stands: the pages from `lo` up to `pos` are done
      and the next address to look up is `at`. */
  ghost predicate Progress(pages: Pages, v: nat, size: nat, lo: nat, pos: nat, at: nat) {
    && lo <= v <= at && lo <= pos <= at < v + size
    && (if lo == pos then at == v else at == pos)
    && Tiled(pages, lo, pos)
    && (Covered(pages, v, size) ==> lo == v && pos <= v + size)
    && (forall d :: d in PagesFrom(pages, lo, pos) ==> Touches(d, v, v + size))
  }

  /** The page that a covered range has at an address inside it. */
  lemma CoveredAt(tabs: Tables, pages: Pages, v: nat, size: nat, u: nat)
    requires Shape(tabs, pages) && Covered(pages, v, size) && v <= u < v + size
    ensures Canonical(u) && (exists level: nat :: InPage(pages, u, level))
    ensures forall level: nat :: InPage(pages, u, level) ==> Within(NodeOf(u, level), v, v + size)
  {
    assert TiledAt(pages, v, v + size, u);
    var l: nat :| InPage(pages, u, l) && Within(NodeOf(u, l), v, v + size);
    forall level: nat | InPage(pages, u, level)
      ensures Within(NodeOf(u, level), v, v + size)
    {
      OnePage(tabs, pages, u, l, level);
    }
  }

  lemma ProgressStart(tabs: Tables, pages: Pages, v: nat, size: nat, level: nat)
    requires Shape(tabs, pages) && size > 0 && Canonical(v) && InPage(pages, v, level)
    ensures Base(NodeOf(v, level)) <= v
    ensures Progress(pages, v, size, Base(NodeOf(v, level)), Base(NodeOf(v, level)), v)
  {
    var c := NodeOf(v, level);
    NodesInRange(tabs, pages, c);
    NodeRange(c, v);
    if Covered(pages, v, size) { CoveredAt(tabs, pages, v, size, v); }
  }

  /** The page looked up next starts where the finished part ends, and joins it. */
  lemma ProgressStep(tabs: Tables, pages: Pages, v: nat, size: nat, lo: nat, pos: nat, at: nat, level: nat)
    requires Shape(tabs, pages) && Progress(pages, v, size, lo, pos, at) && Canonical(at) && InPage(pages, at, level)
    requires lo == pos ==> lo == Base(NodeOf(at, level))
    ensures var c := NodeOf(at, level);
            var next := pos + Span(level);
            && Base(c) == pos && next <= TWO64 && Tiled(pages, lo, next)
            && PagesFrom(pages, lo, next) == PagesFrom(pages, lo, pos) + {c} && c !in PagesFrom(pages, lo, pos)
            && (forall d :: d in PagesFrom(pages, lo, next) ==> Touches(d, v, v + size))
            && (Covered(pages, v, size) ==> lo == v && next <= v + size)
            && (next < v + size ==> Progress(pages, v, size, lo, next, next))
            && next > lo && (lo == pos ==> next > v)
  {
    var c := NodeOf(at, level);
    NodesInRange(tabs, pages, c);
    NodeRange(c, at);
    if lo < pos { NextPageBase(tabs, pages, lo, pos, level); }
    TiledGrows(tabs, pages, lo, pos, c);
    if Covered(pages, v, size) { CoveredAt(tabs, pages, v, size, at); }
  }

  /** Finishing with exactly the requested number of bytes means the range was covered. */
  lemma ProgressEnd(pages: Pages, v: nat, size: nat, lo: nat, end: nat)
    requires size > 0 && lo <= v && v + size <= end <= TWO64 && Tiled(pages, lo, end)
    requires Covered(pages, v, size) ==> lo == v && end <= v + size
    ensures end - lo == size <==> Covered(pages, v, size)
    ensures end - lo == size ==> lo == v && end == v + size
  {
  }

  // ----- the log of freed blocks -----

  /** `tabs'` is what is left of `tabs`. */
  ghost predicate SubTables(tabs': Tables, tabs: Tables) {
    forall k :: k in tabs' ==> k in tabs && tabs[k] == tabs'[k]
  }

  ghost predicate Injective(tabs: Tables) {
    forall j, k :: j in tabs && k in tabs && tabs[j] == tabs[k] ==> j == k
  }

  type Block = (nat, nat)

  function TableBlock(tabs: Tables, k: Key): Block
    requires k in tabs
  {
    (Slot(tabs[k], 0), 4096)
  }

  /** The block freed for a page of `gone`, or for a table. */
  function BlockOf(pages: Pages, gone: set<Key>, tabs: Tables, k: Key): Block
    requires k in gone ==> k in pages
    requires k !in gone ==> k in tabs
  {
    if k in gone then Backing(pages, k) else TableBlock(tabs, k)
  }

  /** The log is one block for each node of `order`, which lists the pages of `gone` and the
      tables of `goneTabs` once each. */
  ghost predicate FreedAs(log: seq<Block>, order: seq<Key>, pages: Pages, gone: set<Key>, tabs: Tables, goneTabs: set<Key>)
    requires gone <= pages.Keys && goneTabs <= tabs.Keys
  {
    && |order| == |log| && Distinct(order) && gone !! goneTabs
    && (forall k :: k in order <==> k in gone || k in goneTabs)
    && (forall i :: 0 <= i < |log| ==> order[i] in order && log[i] == BlockOf(pages, gone, tabs, order[i]))
  }

  /** The log names each page of `gone` and each table of `goneTabs` once and nothing else. */
  ghost predicate FreedOnce(log: seq<Block>, pages: Pages, gone: set<Key>, tabs: Tables, goneTabs: set<Key>) {
    && gone <= pages.Keys && goneTabs <= tabs.Keys
    && exists order :: FreedAs(log, order, pages, gone, tabs, goneTabs)
  }

  /** The log names each table of `gone` once and nothing else. */
  ghost predicate TablesLogged(log: seq<Block>, tabs: Tables, gone: set<Key>) { FreedOnce(log, map[], {}, tabs, gone) }

  lemma NoneLogged(tabs: Tables)
    ensures TablesLogged([], tabs, tabs.Keys - tabs.Keys)
  {
    assert FreedAs([], [], map[], {}, tabs, tabs.Keys - tabs.Keys);
  }

  lemma DistinctConcat(a: seq<Key>, b: seq<Key>)
    requires Distinct(a) && Distinct(b) && (forall x :: x in a ==> x !in b)
    ensures Distinct(a + b)
  {
    forall i, j | 0 <= i < j < |a + b|
      ensures (a + b)[i] != (a + b)[j]
    {
      if i < |a| <= j {
        assert a[i] in a && b[j - |a|] in b;
      }
    }
  }

  lemma LogTable(log: seq<Block>, tabs: Tables, gone: set<Key>, p: Key)
    requires TablesLogged(log, tabs, gone) && p in tabs && p !in gone
    ensures TablesLogged(log + [TableBlock(tabs, p)], tabs, gone + {p})
  {
    var order :| FreedAs(log, order, map[], {}, tabs, gone);
    DistinctConcat(order, [p]);
    assert FreedAs(log + [TableBlock(tabs, p)], order + [p], map[], {}, tabs, gone + {p});
  }

  /** One page and the tables that emptied with it join the log. */
  lemma LogPage(log: seq<Block>, seg: seq<Block>, pages: Pages, gone: set<Key>, t0: Tables, t1: Tables, t2: Tables, c: Key)
    requires SubTables(t1, t0) && SubTables(t2, t1)
    requires FreedOnce(log, pages, gone, t0, t0.Keys - t1.Keys)
    requires TablesLogged(seg, t1, t1.Keys - t2.Keys)
    requires c in pages && c !in gone && pages.Keys !! t0.Keys
    ensures FreedOnce(log + seg + [Backing(pages, c)], pages, gone + {c}, t0, t0.Keys - t2.Keys)
  {
    hide Backing, TableBlock;
    var o1 :| FreedAs(log, o1, pages, gone, t0, t0.Keys - t1.Keys);
    var o2 :| FreedAs(seg, o2, map[], {}, t1, t1.Keys - t2.Keys);
    SameTableBlocks(t0, t1);
    DistinctConcat(o1, o2);
    DistinctConcat(o1 + o2, [c]);
    LogJoined(log, o1, seg, o2, pages, gone, t0, t1, t2, c);
  }

  lemma SameTableBlocks(t0: Tables, t1: Tables)
    requires SubTables(t1, t0)
    ensures forall k :: k in t1 ==> TableBlock(t1, k) == TableBlock(t0, k)
  {
  }

  lemma LogJoined(log: seq<Block>, o1: seq<Key>, seg: seq<Block>, o2: seq<Key>, pages: Pages, gone: set<Key>,
                  t0: Tables, t1: Tables, t2: Tables, c: Key)
    requires SubTables(t1, t0) && SubTables(t2, t1) && gone <= pages.Keys && c in pages && c !in gone && pages.Keys !! t0.Keys
    requires FreedAs(log, o1, pages, gone, t0, t0.Keys - t1.Keys) && FreedAs(seg, o2, map[], {}, t1, t1.Keys - t2.Keys)
    requires Distinct(o1 + o2 + [c]) && forall k :: k in t1 ==> TableBlock(t1, k) == TableBlock(t0, k)
    ensures FreedAs(log + seg + [Backing(pages, c)], o1 + o2 + [c], pages, gone + {c}, t0, t0.Keys - t2.Keys)
  {
    hide Backing, TableBlock, Distinct;
    var all, order, gone' := log + seg + [Backing(pages, c)], o1 + o2 + [c], gone + {c};
    forall i | 0 <= i < |all|
      ensures order[i] in order && all[i] == BlockOf(pages, gone', t0, order[i])
    {
      if i < |log| { assert order[i] == o1[i]; } else if i < |log| + |seg| { assert order[i] == o2[i - |log|]; }
    }
  }

  /** The pages of `cs` have blocks of their own, none of them holding a table. */
  ghost predicate Separate(pages: Pages, cs: set<Key>, tabs: Tables) {
    && cs <= pages.Keys
    && (forall c :: c in cs ==> 2 <= c.level <= 4 && BackingFrames(pages, c) !! tabs.Values)
    && (forall c, d :: c in cs && d in cs && c != d ==> BackingFrames(pages, c) !! BackingFrames(pages, d))
  }

  lemma BlocksDiffer(pages: Pages, cs: set<Key>, tabs: Tables, c: Key)
    requires Separate(pages, cs, tabs) && c in cs
    ensures forall d :: d in cs && d != c ==> Backing(pages, c) != Backing(pages, d)
    ensures forall k :: k in tabs ==> Backing(pages, c) != TableBlock(tabs, k)
  {
    BackingNotEmpty(pages, c);
    forall d | d in cs && d != c
      ensures Backing(pages, c) != Backing(pages, d)
    {
      BackingNotEmpty(pages, d);
    }
    forall k | k in tabs
      ensures Backing(pages, c) != TableBlock(tabs, k)
    {
      assert tabs[k] in tabs.Values;
      assert Slot(tabs[k], 0) / 4096 == tabs[k];
    }
  }

  /** Where no two pages share memory and none maps a table, no block is freed twice. */
  lemma BlocksFreedOnce(log: seq<Block>, pages: Pages, gone: set<Key>, tabs: Tables, goneTabs: set<Key>)
    requires FreedOnce(log, pages, gone, tabs, goneTabs) && Injective(tabs) && Separate(pages, gone, tabs)
    ensures Distinct(log)
  {
    hide Separate, BlockOf, Backing, Injective;
    var order :| FreedAs(log, order, pages, gone, tabs, goneTabs);
    forall i, j | 0 <= i < j < |log|
      ensures log[i] != log[j]
    {
      assert order[i] in order && order[j] in order && order[i] != order[j];
      TwoBlocks(pages, gone, tabs, order[i], order[j]);
    }
  }

  lemma TwoBlocks(pages: Pages, gone: set<Key>, tabs: Tables, a: Key, b: Key)
    requires Injective(tabs) && Separate(pages, gone, tabs) && a != b
    requires (a in gone || a in tabs) && (b in gone || b in tabs)
    ensures BlockOf(pages, gone, tabs, a) != BlockOf(pages, gone, tabs, b)
  {
    if a in gone { BlocksDiffer(pages, gone, tabs, a); }
    if b in gone { BlocksDiffer(pages, gone, tabs, b); }
    hide Separate, Backing, Frames;
  }

  // ----- the shape of the tree follows from the pages -----

  /** Two sets of tables for the same pages, with no empty tables, have the same nodes: a
      table exists exactly where some page lies below it. */
  lemma TablesDetermined(t1: Tables, t2: Tables, pages: Pages)
    requires Shape(t1, pages) && Filled(t1, pages, {}) && Shape(t2, pages) && Filled(t2, pages, {})
    ensures t1.Keys == t2.Keys
  {
    TablesIncluded(t1, t2, pages);
    TablesIncluded(t2, t1, pages);
  }

  lemma TablesIncluded(t1: Tables, t2: Tables, pages: Pages)
    requires Shape(t1, pages) && Filled(t1, pages, {}) && Shape(t2, pages)
    ensures t1.Keys <= t2.Keys
  {
    forall k | k in t1
      ensures k in t2
    {
      if k != ROOT {
        var v, level := PageBelow(t1, pages, k);
        TablesAbove(t2, pages, v, level, k.level);
      }
    }
  }

  /** Undoing what was added gives back the tables themselves. */
  lemma TablesRestored(t0: Tables, t1: Tables, t2: Tables, pages: Pages)
    requires Shape(t0, pages) && Filled(t0, pages, {}) && Shape(t2, pages) && Filled(t2, pages, {})
    requires SubTables(t0, t1) && SubTables(t2, t1)
    ensures t2 == t0
  {
    TablesDetermined(t0, t2, pages);
  }

  // ----- adding pages to a range -----

  lemma TiledMonotone(pages: Pages, pages': Pages, lo: nat, hi: nat)
    requires Tiled(pages, lo, hi) && pages.Keys <= pages'.Keys
    ensures Tiled(pages', lo, hi)
  {
    forall u: nat | lo <= u < hi
      ensures TiledAt(pages', lo, hi, u)
    {
      assert TiledAt(pages, lo, hi, u);
      var l: nat :| InPage(pages, u, l) && Within(NodeOf(u, l), lo, hi);
      assert InPage(pages', u, l) && Within(NodeOf(u, l), lo, hi);
    }
  }

  /** A page that touches a tiled range is one of the pages of the range. */
  lemma TouchesTiled(tabs: Tables, pages: Pages, lo: nat, hi: nat, c: Key)
    requires Shape(tabs, pages) && Tiled(pages, lo, hi) && c in pages && lo < hi && Touches(c, lo, hi)
    ensures c in PagesFrom(pages, lo, hi)
  {
    assert PageNode(tabs, pages, c);
    NodesInRange(tabs, pages, c);
    var u := if Base(c) < lo then lo else Base(c);
    NodeRange(c, u);
    assert TiledAt(pages, lo, hi, u);
    var l: nat :| InPage(pages, u, l) && Within(NodeOf(u, l), lo, hi);
    OnePage(tabs, pages, u, l, c.level);
  }

  /** The range grows by a page mapped at its end. */
  lemma RangeGrows(tabs: Tables, pages: Pages, lo: nat, pos: nat, c: Key, w: Word)
    requires Shape(tabs, pages[c := w]) && lo <= pos && Tiled(pages, lo, pos) && c !in pages && Base(c) == pos
    ensures 2 <= c.level <= 4 && pos + Span(c.level) <= TWO64
    ensures Tiled(pages[c := w], lo, pos + Span(c.level))
    ensures PagesFrom(pages[c := w], lo, pos + Span(c.level)) == PagesFrom(pages, lo, pos) + {c}
  {
    var pages' := pages[c := w];
    TiledMonotone(pages, pages', lo, pos);
    TiledGrows(tabs, pages', lo, pos, c);
    assert PagesFrom(pages', lo, pos) == PagesFrom(pages, lo, pos);
  }

  // ----- bytes of memory -----

  /** The byte at a physical address. */
  function ByteAt(m: Memory, a: nat): byte { AsBytes(CellAt(m, a - a % 8))[a % 8] }

  function PutByte(m: Memory, a: nat, b: byte): Memory {
    m[a - a % 8 := Raw(AsBytes(CellAt(m, a - a % 8))[a % 8 := b])]
  }

  lemma PutByteBytes(m: Memory, a: nat, b: byte, x: nat)
    ensures ByteAt(PutByte(m, a, b), x) == if x == a then b else ByteAt(m, x)
  {
    hide Encode, BytesOf;
    if a - a % 8 == x - x % 8 && x != a { assert x % 8 != a % 8; }
  }

  lemma BytesKept(m: Memory, m': Memory, fs: set<Frame>, a: nat)
    requires OnlyFrames(m, m', fs) && a / 4096 !in fs
    ensures ByteAt(m', a) == ByteAt(m, a)
  {
    hide AsBytes, CellAt;
    SameFrame(a);
  }

  lemma OnlyFramesSelf(m: Memory, fs: set<Frame>)
    ensures OnlyFrames(m, m, fs)
  {
  }

  lemma FrameOfByte(p: nat, n: nat, j: nat)
    requires p % 4096 == 0 && p + n <= TWO52 && j < n
    ensures (p + j) / 4096 in Frames(p, n)
  {
    var f := (p + j) / 4096;
    assert f < TWO40 && p <= f * 4096 <= p + j;
    assert FrameIn(p, n, f);
  }

  lemma SameFrame(a: nat)
    ensures (a - a % 8) / 4096 == a / 4096
  {
    var q, r := a / 8, a % 8;
    var h, l := q / 512, q % 512;
    Digit(a, 8 * l + r, 4096, h);
    Digit(a - r, 8 * l, 4096, h);
  }

  lemma PutCellFramed(m: Memory, m': Memory, fs: set<Frame>, a: nat, c: MemCell)
    requires OnlyFrames(m, m', fs) && a / 4096 in fs
    ensures OnlyFrames(m, m'[a := c], fs)
  {
  }

  lemma PutByteFramed(m: Memory, m': Memory, fs: set<Frame>, a: nat, b: byte)
    requires OnlyFrames(m, m', fs) && a / 4096 in fs
    ensures OnlyFrames(m, PutByte(m', a, b), fs)
  {
    hide AsBytes, CellAt, OnlyFrames;
    SameFrame(a);
    PutCellFramed(m, m', fs, a - a % 8, Raw(AsBytes(CellAt(m', a - a % 8))[a % 8 := b]));
  }

  function ByteFrom(m: Memory, p: nat, j: nat): byte { ByteAt(m, p + j) }

  /** The `n` bytes at physical address `p` read `init(start)` and so on. */
  ghost predicate BytesAre(m: Memory, p: nat, n: nat, init: nat -> byte, start: nat) {
    forall j: nat :: j < n ==> ByteFrom(m, p, j) == init(start + j)
  }

  lemma PutNextByte(m: Memory, p: nat, n: nat, init: nat -> byte, start: nat)
    requires BytesAre(m, p, n, init, start)
    ensures BytesAre(PutByte(m, p + n, init(start + n)), p, n + 1, init, start)
  {
    hide ByteAt, PutByte;
    var m' := PutByte(m, p + n, init(start + n));
    forall j: nat | j < n + 1
      ensures ByteFrom(m', p, j) == init(start + j)
    {
      PutByteBytes(m, p + n, init(start + n), p + j);
      assert j < n ==> ByteFrom(m, p, j) == init(start + j);
    }
  }

  /** Physical address that `v` resolves to. */
  function Resolve(pages: Pages, v: nat): Option<nat> {
    match FinalPage(pages, v)
    case None => None
    case Some(p) => Some(p.0 + p.1)
  }

  /** The `n` bytes of virtual memory at `v` read `init(0)`, `init(1)` and so on. */
  ghost predicate Holds(m: Memory, pages: Pages, v: nat, n: nat, init: nat -> byte) {
    forall o: nat :: o < n ==> HoldsAt(m, pages, v, init, o)
  }

  ghost predicate HoldsAt(m: Memory, pages: Pages, v: nat, init: nat -> byte, o: nat) {
    Resolve(pages, v + o).Some? && ByteAt(m, Resolve(pages, v + o).value) == init(o)
  }
}
