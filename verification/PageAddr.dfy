/** Virtual addresses: canonical form, the nodes of the table tree that an address
    passes through, the ranges that pages cover, and the abstract translation. */
module PageAddr {
  import opened Basics
  import opened Arith
  import opened PageWords
  import opened PageShape

  /** Sign-extends bit 47, as `((addr as i64) << 16) >> 16`. */
  function Canonicalize(v: nat): nat {
    var u := v % TWO48;
    if u < TWO48 / 2 then u else u + (TWO64 - TWO48)
  }

  predicate Canonical(v: nat) { v < TWO64 && Canonicalize(v) == v }

  /** Canonical addresses are the lowest and the highest 2^47, and making an address canonical
      keeps its low 48 bits. */
  lemma CanonicalMeaning(v: nat)
    ensures Canonical(v) <==> v < TWO48 / 2 || TWO64 - TWO48 / 2 <= v < TWO64
    ensures Canonical(Canonicalize(v)) && Canonicalize(v) % TWO48 == v % TWO48
  {
    var u, q := v % TWO48, v / TWO48;
    assert TWO64 == 0x1_0000 * TWO48;
    if u >= TWO48 / 2 { Digit(u + (TWO64 - TWO48), u, TWO48, 0xffff); }
    assert v == u + TWO48 * q;
  }

  /** Bytes of address space below a node at the given depth. */
  function Span(level: nat): (n: nat)
    ensures n > 0
  {
    match level
    case 0 => 0x1_0000_0000_0000
    case 1 => 0x80_0000_0000
    case 2 => 0x4000_0000
    case 3 => 0x20_0000
    case _ => 0x1000
  }

  /** The node at depth `level` on the walk of address `v`. */
  function NodeOf(v: nat, level: nat): Key { Key(level, v % TWO48 / Span(level)) }

  /** The nine address bits that pick the entry leading to depth `level`, `(v >> k) & 0x1ff`. */
  function Bits(v: nat, level: nat): nat { v / Span(level) % 512 }

  /** Each step of the walk uses the next nine address bits. */
  lemma NodeParent(v: nat, level: nat)
    requires 1 <= level <= 4
    ensures Parent(NodeOf(v, level)) == NodeOf(v, level - 1)
    ensures Index(NodeOf(v, level)) == Bits(v, level)
  {
    match level
    case 1 => NineBits(v, 0x80_0000_0000, 0x1_0000_0000_0000, 1);
    case 2 => NineBits(v, 0x4000_0000, 0x80_0000_0000, 512);
    case 3 => NineBits(v, 0x20_0000, 0x4000_0000, 512 * 512);
    case 4 => NineBits(v, 0x1000, 0x20_0000, 512 * 512 * 512);
  }

  lemma NineBits(v: nat, low: nat, high: nat, rest: nat)
    requires low > 0 && high == low * 512 && high * rest == TWO48
    ensures v % TWO48 / low / 512 == v % TWO48 / high
    ensures v % TWO48 / low % 512 == v / low % 512
  {
    var q, u := v / TWO48, v % TWO48;
    var a := u / low;
    assert low * a == low * (a % 512) + high * (a / 512) by { Scale(low, a % 512, a / 512); }
    assert low * (a % 512) <= low * 511 by { Monotone(low, a % 512, 511); }
    Digit(u, u % low + low * (a % 512), high, a / 512);
    assert TWO48 * q == low * (512 * (rest * q)) by { Regroup(low, rest, q); }
    assert low * (a + 512 * (rest * q)) == low * a + low * (512 * (rest * q)) by { Spread(low, a, 512 * (rest * q)); }
    Digit(v, u % low, low, a + 512 * (rest * q));
    Same512(a, rest * q);
  }

  lemma Same512(a: nat, t: nat)
    ensures (a + 512 * t) % 512 == a % 512
  {
  }

  lemma RootNode(v: nat)
    ensures NodeOf(v, 0) == ROOT
  {
  }

  // ----- pages as ranges of addresses -----

  predicate InRange(c: Key) { 1 <= c.level <= 4 && c.num < TWO48 / Span(c.level) }

  /** The first address of the range below node `c`. */
  function Base(c: Key): nat { Canonicalize(c.num * Span(c.level)) }

  /** The canonical addresses that pass through `c` are the `Span` addresses from its base. */
  lemma NodeRange(c: Key, v: nat)
    requires InRange(c)
    ensures Canonical(Base(c)) && NodeOf(Base(c), c.level) == c && Base(c) % Span(c.level) == 0
    ensures Base(c) + Span(c.level) <= TWO64
    ensures Canonical(v) ==> (NodeOf(v, c.level) == c <==> Base(c) <= v < Base(c) + Span(c.level))
    ensures Base(c) <= v < Base(c) + Span(c.level) ==> Canonical(v)
  {
    match c.level
    case 1 => SpanRange(c.num, 256, 0x80_0000_0000, v);
    case 2 => SpanRange(c.num, 256 * 512, 0x4000_0000, v);
    case 3 => SpanRange(c.num, 256 * 512 * 512, 0x20_0000, v);
    case 4 => SpanRange(c.num, 256 * 512 * 512 * 512, 0x1000, v);
  }

  lemma SpanRange(num: nat, half: nat, span: nat, v: nat)
    requires span > 0 && span * half == TWO48 / 2 && num < 2 * half
    ensures var b := Canonicalize(num * span);
            && Canonical(b) && b % TWO48 / span == num && b % span == 0 && b + span <= TWO64
            && (Canonical(v) ==> (v % TWO48 / span == num <==> b <= v < b + span))
            && (b <= v < b + span ==> Canonical(v))
  {
    hide Canonicalize, Canonical;
    var x := num * span;
    Halves(num, half, span);
    CanonicalBlock(x, span, v);
    Quotient(x, span, num);
    Quotient(v % TWO48, span, num);
    Multiple(num, half, span);
    assert Canonicalize(x) == x || Canonicalize(x) == x + (TWO64 - TWO48);
  }

  /** A block on one side of the canonical hole stays a block when sign-extended. */
  lemma CanonicalBlock(x: nat, span: nat, v: nat)
    requires span > 0 && x + span <= TWO48 && (x + span <= TWO48 / 2 || x >= TWO48 / 2)
    ensures var b := Canonicalize(x);
            && Canonical(b) && b % TWO48 == x && b + span <= TWO64
            && (b == x || b == x + (TWO64 - TWO48))
            && (Canonical(v) ==> (x <= v % TWO48 < x + span <==> b <= v < b + span))
            && (b <= v < b + span ==> Canonical(v))
  {
    var b := Canonicalize(x);
    assert x % TWO48 == x;
    assert b % TWO48 == x;
    if b <= v < b + span {
      assert v % TWO48 == x + (v - b);
    }
  }

  lemma Halves(num: nat, half: nat, span: nat)
    requires span > 0 && span * half == TWO48 / 2 && num < 2 * half
    ensures num * span + span <= TWO48
    ensures num < half ==> num * span + span <= TWO48 / 2
    ensures num >= half ==> num * span >= TWO48 / 2
  {
    if num < half { Monotone(span, num + 1, half); } else { Monotone(span, half, num); }
    Monotone(span, num + 1, 2 * half);
  }

  lemma Quotient(u: nat, span: nat, num: nat)
    requires span > 0
    ensures u / span == num <==> num * span <= u < num * span + span
  {
    if num * span <= u < num * span + span {
      Digit(u, u - num * span, span, num);
    }
  }

  /** Both possible bases are multiples of the span. */
  lemma Multiple(num: nat, half: nat, span: nat)
    requires span > 0 && span * half == TWO48 / 2
    ensures num * span % span == 0 && (num * span + (TWO64 - TWO48)) % span == 0
  {
    Digit(num * span, 0, span, num);
    var k := 2 * (TWO64 / TWO48 - 1);
    assert TWO64 - TWO48 == (TWO48 / 2) * k;
    assert span * half * k == span * (half * k) by { Associate(span, half, k); }
    assert num * span + (TWO64 - TWO48) == span * (num + half * k) by { Spread(span, num, half * k); }
    Digit(num * span + (TWO64 - TWO48), 0, span, num + half * k);
  }

  // ----- the walk of one address through the tree -----

  lemma NodesInRange(tabs: Tables, pages: Pages, c: Key)
    requires Shape(tabs, pages) && c in LiveNodes(tabs, pages) && c.level > 0
    ensures InRange(c)
    decreases c.level
  {
    if c in tabs { assert TableNode(tabs, c); } else { assert PageNode(tabs, pages, c); }
    var p := Parent(c);
    if p.level == 0 {
      assert TableNode(tabs, p);
    } else {
      NodesInRange(tabs, pages, p);
    }
  }

  /** Addresses that share a node share everything above it. */
  lemma SharedAncestors(u: nat, v: nat, level: nat, above: nat)
    requires above <= level <= 4 && NodeOf(u, level) == NodeOf(v, level)
    ensures NodeOf(u, above) == NodeOf(v, above)
    decreases level
  {
    if above < level {
      NodeParent(u, level);
      NodeParent(v, level);
      SharedAncestors(u, v, level - 1, above);
    }
  }

  /** Everything above a node in use is a table. */
  lemma TablesAbove(tabs: Tables, pages: Pages, v: nat, level: nat, above: nat)
    requires Shape(tabs, pages) && above < level <= 4
    requires NodeOf(v, level) in LiveNodes(tabs, pages)
    ensures NodeOf(v, above) in tabs
    decreases level
  {
    var c := NodeOf(v, level);
    if c in tabs { assert TableNode(tabs, c); } else { assert PageNode(tabs, pages, c); }
    NodeParent(v, level);
    if above < level - 1 { TablesAbove(tabs, pages, v, level - 1, above); }
  }

  /** An address lies in at most one page, and below no page is there a table. */
  lemma OnePage(tabs: Tables, pages: Pages, v: nat, level: nat, other: nat)
    requires Shape(tabs, pages) && level <= 4 && other <= 4
    requires NodeOf(v, level) in pages && NodeOf(v, other) in LiveNodes(tabs, pages)
    ensures other <= level && (NodeOf(v, other) in pages ==> other == level)
  {
    assert PageNode(tabs, pages, NodeOf(v, level));
    if level < other { TablesAbove(tabs, pages, v, other, level); }
    if other < level && NodeOf(v, other) in pages {
      assert PageNode(tabs, pages, NodeOf(v, other));
      TablesAbove(tabs, pages, v, level, other);
    }
  }

  /** Some address lies below both nodes. */
  ghost predicate Overlap(c: Key, d: Key) {
    exists v: nat :: Canonical(v) && NodeOf(v, c.level) == c && NodeOf(v, d.level) == d
  }

  /** A page lies below every table other than an unfilled one. */
  lemma PageBelow(tabs: Tables, pages: Pages, k: Key) returns (v: nat, level: nat)
    requires Shape(tabs, pages) && Filled(tabs, pages, {}) && k in tabs && k != ROOT
    ensures Canonical(v) && k.level < level <= 4 && NodeOf(v, k.level) == k && NodeOf(v, level) in pages
    decreases 4 - k.level
  {
    assert TableNode(tabs, k);
    var live := LiveNodes(tabs, pages);
    assert Num(live, k) >= 1;
    var i :| i in Kids(live, k);
    var c := Child(k, i);
    ChildParent(k, i);
    NodesInRange(tabs, pages, c);
    if c in tabs {
      v, level := PageBelow(tabs, pages, c);
    } else {
      v, level := Base(c), c.level;
      assert PageNode(tabs, pages, c);
      NodeRange(c, v);
    }
    NodeParent(v, c.level);
  }

  /** The two tests that the mapper makes on the walk of `v` decide whether the page of
      depth `depth` around `v` would overlap a mapped page. */
  lemma OverlapOnWalk(tabs: Tables, pages: Pages, v: nat, depth: nat)
    requires Shape(tabs, pages) && Filled(tabs, pages, {}) && Canonical(v) && 2 <= depth <= 4
    ensures (exists q :: q in pages && Overlap(q, NodeOf(v, depth)))
       <==> NodeOf(v, 2) in pages || NodeOf(v, 3) in pages || NodeOf(v, 4) in pages || NodeOf(v, depth) in tabs
  {
    var t := NodeOf(v, depth);
    if q :| q in pages && Overlap(q, t) {
      assert PageNode(tabs, pages, q);
      var u: nat :| Canonical(u) && NodeOf(u, q.level) == q && NodeOf(u, t.level) == t;
      if q.level <= depth {
        SharedAncestors(u, v, depth, q.level);
      } else {
        TablesAbove(tabs, pages, u, q.level, depth);
      }
    }
    if t in tabs {
      assert TableNode(tabs, t);
      var u, level := PageBelow(tabs, pages, t);
      assert Overlap(NodeOf(u, level), t);
    } else if NodeOf(v, 2) in pages {
      assert Overlap(NodeOf(v, 2), t);
    } else if NodeOf(v, 3) in pages {
      assert Overlap(NodeOf(v, 3), t);
    } else if NodeOf(v, 4) in pages {
      assert Overlap(NodeOf(v, 4), t);
    }
  }

  // ----- translation -----

  /** The state of a translation: the entry addresses passed and the final page. */
  datatype Mapping = Mapping(pml4e: Option<nat>, pdpe: Option<nat>, pde: Option<nat>, pte: Option<nat>,
                             page: Option<(nat, nat)>)

  /** Physical base of the page with entry `w` at depth `level`, and the offset of `v` in it. */
  function PageOf(w: Word, level: nat, v: nat): (nat, nat) {
    (w.frame * 4096 / Span(level) * Span(level), v % Span(level))
  }

  /** The page that `v` falls in, by the abstract map alone. */
  function FinalPage(pages: Pages, v: nat): Option<(nat, nat)> {
    if NodeOf(v, 2) in pages then Some(PageOf(pages[NodeOf(v, 2)], 2, v))
    else if NodeOf(v, 3) in pages then Some(PageOf(pages[NodeOf(v, 3)], 3, v))
    else if NodeOf(v, 4) in pages then Some(PageOf(pages[NodeOf(v, 4)], 4, v))
    else None
  }

  function EntryOf(tabs: Tables, v: nat, level: nat): Option<nat> {
    var k := NodeOf(v, level);
    if k in tabs then Some(Slot(tabs[k], Bits(v, level + 1))) else None
  }

  /** What translating `v` reports, by the abstract maps. */
  function Walk(tabs: Tables, pages: Pages, v: nat): Mapping {
    Mapping(EntryOf(tabs, v, 0), EntryOf(tabs, v, 1), EntryOf(tabs, v, 2), EntryOf(tabs, v, 3), FinalPage(pages, v))
  }

  lemma EntryIsHome(tabs: Tables, v: nat, level: nat)
    requires level <= 3
    ensures EntryOf(tabs, v, level) == if NodeOf(v, level) in tabs then Some(Home(tabs, NodeOf(v, level + 1))) else None
  {
    NodeParent(v, level + 1);
  }

  datatype PageType = Page4K | Page2M | Page1G

  function TypeSize(t: PageType): nat {
    match t
    case Page4K => 4096
    case Page2M => 2 * 1024 * 1024
    case Page1G => 1024 * 1024 * 1024
  }

  /** Depth of the node of a page of this type. */
  function TypeDepth(t: PageType): (d: nat)
    ensures 2 <= d <= 4 && Span(d) == TypeSize(t)
  {
    match t
    case Page1G => 2
    case Page2M => 3
    case Page4K => 4
  }

  /** Nine index bits recovered from an entry address, `(e & 0xfff) / 8`. */
  function IndexOf(e: Option<nat>): nat {
    match e
    case None => 0
    case Some(a) => a % 4096 / 8
  }

  /** `i << 39 | j << 30 | k << 21 | l << 12` for nine-bit fields. */
  function Assemble(i: nat, j: nat, k: nat, l: nat): nat {
    i * 0x80_0000_0000 + j * 0x4000_0000 + k * 0x20_0000 + l * 0x1000
  }

  /** `Mapping::virt_base`. */
  function VirtBase(m: Mapping): Option<nat> {
    if m.page.None? then None
    else Some(Canonicalize(Assemble(IndexOf(m.pml4e), IndexOf(m.pdpe), IndexOf(m.pde), IndexOf(m.pte))))
  }

  /** `Mapping::size`. */
  function SizeOf(m: Mapping): Option<PageType> {
    if m.page.None? then None
    else if m.pde.None? then Some(Page1G)
    else if m.pte.None? then Some(Page2M)
    else Some(Page4K)
  }

  /** The entry addresses of a walk that ends in a page give back the base address and
      the size of that page: `virt_base` and `size` invert the index split. */
  lemma WalkInverts(tabs: Tables, pages: Pages, v: nat, level: nat)
    requires Shape(tabs, pages) && Canonical(v) && 2 <= level <= 4 && NodeOf(v, level) in pages
    ensures var m := Walk(tabs, pages, v);
            && m.page == Some(PageOf(pages[NodeOf(v, level)], level, v))
            && VirtBase(m) == Some(Base(NodeOf(v, level)))
            && SizeOf(m).Some? && TypeDepth(SizeOf(m).value) == level
            && Base(NodeOf(v, level)) == v - v % Span(level)
  {
    TablesBelowWalk(tabs, pages, v, level);
    BaseFromIndices(tabs, pages, v, level);
    NodesInRange(tabs, pages, NodeOf(v, level));
    BaseOfNode(v, level);
  }

  lemma BaseFromIndices(tabs: Tables, pages: Pages, v: nat, level: nat)
    requires 2 <= level <= 4 && NodeOf(v, level) in pages
    requires forall j: nat :: j <= 4 ==> (NodeOf(v, j) in tabs <==> j < level)
    ensures VirtBase(Walk(tabs, pages, v)) == Some(Base(NodeOf(v, level)))
  {
    IndexDigits(v, level);
    IndexRecovered(tabs, v, 0);
    IndexRecovered(tabs, v, 1);
    IndexRecovered(tabs, v, 2);
    IndexRecovered(tabs, v, 3);
    assert FinalPage(pages, v).Some?;
  }

  lemma IndexRecovered(tabs: Tables, v: nat, level: nat)
    requires level <= 3
    ensures IndexOf(EntryOf(tabs, v, level)) == if NodeOf(v, level) in tabs then Bits(v, level + 1) else 0
  {
    if NodeOf(v, level) in tabs {
      var f: nat, b := tabs[NodeOf(v, level)], Bits(v, level + 1);
      assert b < 512;
      hide Bits, NodeOf;
      Digit(Slot(f, b), 8 * b, 4096, f);
      Digit(8 * b, 0, 8, b);
    }
  }

  /** The base of the node around `v` is `v` rounded down. */
  lemma NodeOfLevel(v: nat, level: nat)
    ensures NodeOf(v, level).level == level && Span(level) > 0
  {
  }

  lemma LowEnd(v: nat, b: nat, n: nat)
    requires n > 0 && b % n == 0 && b <= v < b + n
    ensures b == v - v % n
  {
    Digit(v, v - b, n, b / n);
  }

  lemma BaseOfNode(v: nat, level: nat)
    requires Canonical(v) && 1 <= level <= 4 && InRange(NodeOf(v, level))
    ensures Base(NodeOf(v, level)) == v - v % Span(level)
  {
    hide *;
    NodeOfLevel(v, level);
    NodeRange(NodeOf(v, level), v);
    LowEnd(v, Base(NodeOf(v, level)), Span(level));
  }

  lemma TablesBelowWalk(tabs: Tables, pages: Pages, v: nat, level: nat)
    requires Shape(tabs, pages) && 2 <= level <= 4 && NodeOf(v, level) in pages
    ensures forall j: nat :: j <= 4 ==> (NodeOf(v, j) in tabs <==> j < level)
    ensures forall j: nat :: j <= 4 ==> (NodeOf(v, j) in pages <==> j == level)
  {
    forall j: nat | j <= 4
      ensures NodeOf(v, j) in tabs <==> j < level
      ensures NodeOf(v, j) in pages <==> j == level
    {
      assert PageNode(tabs, pages, NodeOf(v, level));
      if j < level { TablesAbove(tabs, pages, v, level, j); }
      if NodeOf(v, j) in LiveNodes(tabs, pages) { OnePage(tabs, pages, v, level, j); }
    }
  }

  /** The four index fields make up the low 48 bits above the offset. */
  lemma IndexDigits(v: nat, level: nat)
    requires 2 <= level <= 4
    ensures NodeOf(v, level).num * Span(level)
         == Assemble(Bits(v, 1), Bits(v, 2), if level > 2 then Bits(v, 3) else 0, if level > 3 then Bits(v, 4) else 0)
  {
    NodeStep(v, 1);
    NodeStep(v, 2);
    NodeStep(v, 3);
    NodeStep(v, 4);
    RootNode(v);
    Nested(Bits(v, 1), Bits(v, 2), Bits(v, 3), Bits(v, 4), NodeOf(v, 2).num, NodeOf(v, 3).num, NodeOf(v, 4).num);
  }

  lemma NodeStep(v: nat, level: nat)
    requires 1 <= level <= 4
    ensures NodeOf(v, level).num == 512 * NodeOf(v, level - 1).num + Bits(v, level)
  {
    NodeParent(v, level);
    ParentChild(NodeOf(v, level));
  }

  lemma Nested(i: nat, j: nat, k: nat, l: nat, n2: nat, n3: nat, n4: nat)
    requires n2 == 512 * i + j && n3 == 512 * n2 + k && n4 == 512 * n3 + l
    ensures n2 * 0x4000_0000 == Assemble(i, j, 0, 0)
    ensures n3 * 0x20_0000 == Assemble(i, j, k, 0)
    ensures n4 * 0x1000 == Assemble(i, j, k, l)
  {
  }
}
