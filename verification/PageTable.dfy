/** 4-level x86_64 page tables kept in physical memory: creating them, translating,
    mapping and unmapping. A method that the source would end with a panic (a failed
    `expect`, `unwrap` or `assert!`, or no memory left) reports `Panicked`; nothing is
    promised about the state then, since the run ends there. */
module PageTables {
  import opened Basics
  import opened PageWords
  import opened PageShape
  import opened PageAddr
  import opened PageCover
  import opened PageSteps

  /** Physical memory and the allocator's view of which frames are free. */
  class PhysMem {
    var words: Memory
    var pool: set<Frame>

    /** Every block handed to `FreePhys`, oldest first. */
    ghost var freed: seq<Block>

    /** Writes an allocator may make for itself: any words of free frames. */
    method Scribble()
      modifies this`words
      ensures OnlyFrames(old(words), words, pool)
    {
      OnlyFramesSelf(words, pool);
      var n: int := *;
      while n > 0
        invariant OnlyFrames(old(words), words, pool)
      {
        var a: nat := *;
        var w: Word := *;
        if a / 4096 in pool {
          PutFramed(old(words), words, pool, a, w);
          words := Put(words, a, w);
        }
        n := n - 1;
      }
    }

    /** An allocator that may hand out any aligned block of free frames, or give up. It may
        keep its own records inside free frames. */
    method AllocPhys(size: nat, align: nat) returns (r: Outcome<nat>)
      requires size > 0 && align > 0 && align % 4096 == 0 && size % 4096 == 0
      modifies this`pool, this`words
      ensures OnlyFrames(old(words), words, old(pool))
      ensures r.Panicked? ==> pool == old(pool)
      ensures r.Returned? ==> r.value % align == 0 && r.value + size <= TWO52
      ensures r.Returned? ==> Frames(r.value, size) <= old(pool) && pool == old(pool) - Frames(r.value, size)
    {
      Scribble();
      var p: nat := *;
      if p % align == 0 && p + size <= TWO52 && Frames(p, size) <= pool {
        pool := pool - Frames(p, size);
        return Returned(p);
      }
      return Panicked;
    }

    method FreePhys(p: nat, size: nat)
      modifies this`pool, this`freed, this`words
      ensures OnlyFrames(old(words), words, pool)
      ensures pool == old(pool) + Frames(p, size)
      ensures freed == old(freed) + [(p, size)]
    {
      pool := pool + Frames(p, size);
      freed := freed + [(p, size)];
      Scribble();
    }

    /** Clears one 4 KiB page. */
    method ZeroPage(f: Frame)
      modifies this`words
      ensures forall i: nat :: i < 512 ==> Read(words, Slot(f, i)) == ZERO
      ensures OnlyFrame(old(words), words, f)
    {
      var i := 0;
      while i < 512
        invariant 0 <= i <= 512
        invariant forall j: nat :: j < i ==> Read(words, Slot(f, j)) == ZERO
        invariant OnlyFrame(old(words), words, f)
      {
        words := Put(words, Slot(f, i), ZERO);
        i := i + 1;
      }
    }

    /** Writes `init(start)`, `init(start + 1)` and so on into the `n` bytes at `p`. */
    method FillBytes(p: nat, n: nat, init: nat -> byte, start: nat)
      requires p % 4096 == 0 && p + n <= TWO52
      modifies this`words
      ensures BytesAre(words, p, n, init, start)
      ensures OnlyFrames(old(words), words, Frames(p, n))
    {
      assert BytesAre(words, p, 0, init, start);
      hide ByteAt, PutByte, OnlyFrames, Frames, BytesAre;
      OnlyFramesSelf(words, Frames(p, n));
      var off := 0;
      while off < n
        invariant 0 <= off <= n
        invariant BytesAre(words, p, off, init, start)
        invariant OnlyFrames(old(words), words, Frames(p, n))
      {
        FrameOfByte(p, n, off);
        PutByteFramed(old(words), words, Frames(p, n), p + off, init(start + off));
        PutNextByte(words, p, off, init, start);
        words := PutByte(words, p + off, init(start + off));
        off := off + 1;
      }
    }

    /** `alloc_phys_zeroed` for one page. */
    method AllocZeroedPage() returns (r: Outcome<nat>)
      modifies this`pool, this`words
      ensures r.Panicked? ==> pool == old(pool)
      ensures OnlyFrames(old(words), words, old(pool))
      ensures r.Returned? ==>
                var f := r.value / 4096;
                && r.value == f * 4096 && f < TWO40 && f in old(pool) && pool == old(pool) - {f}
                && (forall i: nat :: i < 512 ==> Read(words, Slot(f, i)) == ZERO)
    {
      r := AllocPhys(4096, 4096);
      if r.Returned? {
        OneFrame(r.value / 4096);
        ghost var m := words;
        ZeroPage(r.value / 4096);
        FrameInPool(old(words), m, words, old(pool), r.value / 4096);
      }
    }
  }

  class PageTable {
    /** Physical address of the top-level table. */
    var table: nat

    ghost var tabs: Tables
    ghost var pages: Pages

    /** The tables in memory are exactly the tree of `tabs` and `pages`, every table but
        the root and those in `skip` is in use, and no table lies in free memory. */
    ghost predicate Building(pm: PhysMem, skip: set<Key>)
      reads this, pm
    {
      && Shape(tabs, pages)
      && Filled(tabs, pages, skip)
      && Rep(pm.words, tabs, pages)
      && table == Slot(tabs[ROOT], 0)
      && tabs.Values !! pm.pool
    }

    ghost predicate Valid(pm: PhysMem)
      reads this, pm
    {
      Building(pm, {})
    }

    constructor (f: Frame, ghost pm: PhysMem)
      requires f !in pm.pool
      requires forall i: nat :: i < 512 ==> Read(pm.words, Slot(f, i)) == ZERO
      ensures Valid(pm) && tabs == map[ROOT := f] && pages == map[] && table == f * 4096
    {
      table := f * 4096;
      tabs := map[ROOT := f];
      pages := map[];
    }

    /** `PageTable::new`. */
    static method New(pm: PhysMem) returns (r: Outcome<PageTable>)
      modifies pm
      ensures r.Returned? ==> fresh(r.value) && r.value.Valid(pm) && r.value.pages == map[]
      ensures r.Returned? ==> r.value.tabs.Keys == {ROOT} && r.value.tabs.Values == old(pm.pool) - pm.pool
    {
      var a := pm.AllocZeroedPage();
      if a.Panicked? { return Panicked; }
      var pt := new PageTable(a.value / 4096, pm);
      assert pt.tabs[ROOT] in pt.tabs.Values;
      return Returned(pt);
    }

    /** Translates one address by reading the tables. The report is the one that the
        abstract map gives, and an address that is not canonical has none. */
    method Translate(pm: PhysMem, v: nat) returns (r: Option<Mapping>)
      requires Valid(pm) && v < TWO64
      ensures r == if Canonical(v) then Some(Walk(tabs, pages, v)) else None
    {
      hide Rep, Filled, Shape, Num, Render, NodeOf, FinalPage, Bits;
      ValidParts(pm);
      if Canonicalize(v) != v { return None; }
      var ret := Mapping(None, None, None, None, None);
      var t := table;
      var depth := 0;
      RootNode(v);
      while depth < 4
        invariant 0 <= depth <= 3
        invariant NodeOf(v, depth) in tabs && t == Slot(tabs[NodeOf(v, depth)], 0)
        invariant ret == Partial(tabs, v, depth)
        decreases 4 - depth
      {
        var ptp := t + Bits(v, depth + 1) * 8;
        match depth {
          case 0 => ret := ret.(pml4e := Some(ptp));
          case 1 => ret := ret.(pdpe := Some(ptp));
          case 2 => ret := ret.(pde := Some(ptp));
          case _ => ret := ret.(pte := Some(ptp));
        }
        var ent := Read(pm.words, ptp);
        EntryTells(pm.words, tabs, pages, v, depth);
        if !ent.present {
          WalkEnds(tabs, pages, v, depth);
          return Some(ret);
        }
        t := ent.frame * 4096;
        if depth == 3 || ent.large {
          if depth == 0 { return Some(ret); }
          WalkEndsInPage(tabs, pages, v, depth);
          ret := ret.(page := Some((t / Span(depth + 1) * Span(depth + 1), v % Span(depth + 1))));
          return Some(ret);
        }
        depth := depth + 1;
      }
    }

    /** Adds a level: a cleared table for node `NodeOf(v, ii)`, linked at `link`, with the
        count of the table above, kept at `above`, going up. Returns the table's frame. */
    method AddLevel(pm: PhysMem, ghost v: nat, ii: nat, link: nat, above: Option<nat>) returns (r: Outcome<Frame>)
      requires 1 <= ii <= 3 && NodeOf(v, ii - 1) in tabs && NodeOf(v, ii) !in LiveNodes(tabs, pages)
      requires Building(pm, {NodeOf(v, ii - 1)})
      requires link == Home(tabs, NodeOf(v, ii))
      requires ii >= 2 ==> above == Some(Home(tabs, NodeOf(v, ii - 1)))
      modifies this`tabs, pm
      ensures r.Returned? ==>
                && r.value in old(pm.pool)
                && tabs == old(tabs)[NodeOf(v, ii) := r.value]
                && pm.pool == old(pm.pool) - {r.value}
                && Building(pm, {NodeOf(v, ii)})
                && OnlyFrames(old(pm.words), pm.words, tabs.Values + pm.pool)
                && pm.freed == old(pm.freed)
    {
      hide Rep, Filled, Num, OnlyFrames, OnlyFrame, Span, Render;
      var a := pm.AllocZeroedPage();
      if a.Panicked? { return Panicked; }
      var f: Frame := a.value / 4096;
      ghost var c, m0 := NodeOf(v, ii), pm.words;
      NodeParent(v, ii);
      LevelAdded(old(pm.words), m0, tabs, pages, c, f, old(pm.pool));
      if ii >= 2 {
        var nent := Read(pm.words, above.value);
        pm.words := Put(pm.words, above.value, nent.(count := nent.count + 1));
      }
      pm.words := Put(pm.words, link, TableWord(f, 0));
      tabs := tabs[c := f];
      assert tabs.Values + pm.pool == old(tabs).Values + old(pm.pool);
      return Returned(f);
    }

    /** Writes the entry of the page itself, after counting it in the table it goes to. */
    method WriteLeaf(pm: PhysMem, ghost v: nat, depth: nat, link: nat, above: nat, raw: Word)
      requires 2 <= depth <= 4 && NodeOf(v, depth - 1) in tabs && NodeOf(v, depth) !in LiveNodes(tabs, pages)
      requires Building(pm, {NodeOf(v, depth - 1)})
      requires raw.present && (depth < 4 ==> raw.large)
      requires link == Home(tabs, NodeOf(v, depth)) && above == Home(tabs, NodeOf(v, depth - 1))
      modifies this`pages, pm`words
      ensures pages == old(pages)[NodeOf(v, depth) := raw]
      ensures Valid(pm)
      ensures OnlyFrames(old(pm.words), pm.words, tabs.Values)
    {
      hide Rep, Filled, Read, CellAt, Render, Num, Slot, Span, OnlyFrames;
      ghost var c := NodeOf(v, depth);
      NodeParent(v, depth);
      LeafAdded(pm.words, tabs, pages, c, raw);
      var nent := Read(pm.words, above);
      pm.words := Put(pm.words, above, nent.(count := nent.count + 1));
      pm.words := Put(pm.words, link, raw);
      pages := pages[c := raw];
    }

    /** Adds the tables missing on the way down to depth `depth`, where nothing is mapped yet.
        `walk` is where the entries on the way are; the result is the same once all exist. */
    method BuildLevels(pm: PhysMem, v: nat, depth: nat, walk: seq<Option<nat>>) returns (r: Outcome<seq<Option<nat>>>)
      requires Valid(pm) && 2 <= depth <= 4 && NodeOf(v, depth) !in tabs
      requires forall j: nat :: 1 <= j < depth ==> NodeOf(v, j) !in pages
      requires |walk| == 4 && forall j: nat :: j < 4 ==> walk[j] == EntryOf(tabs, v, j)
      modifies this`tabs, pm
      ensures r.Returned? ==>
                && |r.value| == 4 && (forall j: nat :: j < 4 ==> r.value[j] == EntryOf(tabs, v, j))
                && Building(pm, {NodeOf(v, depth - 1)}) && (forall j: nat :: j < depth ==> NodeOf(v, j) in tabs)
                && NodeOf(v, depth) !in tabs && Extended(old(tabs), old(pm.pool), tabs, pm.pool)
                && OnlyFrames(old(pm.words), pm.words, tabs.Values + pm.pool) && pm.freed == old(pm.freed)
    {
      hide Rep, Filled, Num, OnlyFrames, Span, Bits, Home, Extended, NodeOf, Shape, Slot, EntryOf;
      var entries := walk;
      RootNode(v);
      FilledWeaker(tabs, pages, {NodeOf(v, 0)});
      NothingYet(tabs, pm.pool, pm.words);
      var ii := 1;
      while ii < depth
        invariant 1 <= ii <= depth
        invariant Building(pm, {NodeOf(v, ii - 1)})
        invariant |entries| == 4 && forall j: nat :: j < 4 ==> entries[j] == EntryOf(tabs, v, j)
        invariant forall j: nat :: j < ii ==> NodeOf(v, j) in tabs
        invariant NodeOf(v, depth) !in tabs && pages == old(pages)
        invariant Extended(old(tabs), old(pm.pool), tabs, pm.pool)
        invariant OnlyFrames(old(pm.words), pm.words, tabs.Values + pm.pool) && pm.freed == old(pm.freed)
      {
        EntryIsHome(tabs, v, ii);
        EntryIsHome(tabs, v, ii - 1);
        if ii >= 2 { EntryIsHome(tabs, v, ii - 2); }
        NodeParent(v, ii);
        if entries[ii].None? {
          ghost var t0, m0, p0 := tabs, pm.words, pm.pool;
          var a := AddLevel(pm, v, ii, entries[ii - 1].value, if ii >= 2 then entries[ii - 2] else None);
          if a.Panicked? { return Panicked; }
          entries := entries[ii := Some(Slot(a.value, Bits(v, ii + 1)))];
          LevelDone(old(tabs), old(pm.pool), old(pm.words), t0, p0, m0, pm.words, v, ii, a.value, depth);
        } else {
          FilledDeeper(tabs, pages, NodeOf(v, ii));
        }
        ii := ii + 1;
      }
      return Returned(entries);
    }

    /** Maps the page of the given type around `v` to the raw entry `raw`. Succeeds exactly
        when `CanMap`, and then adds that one page to the map; otherwise nothing at all
        changes. */
    method MapRaw(pm: PhysMem, v: nat, t: PageType, raw: Word) returns (r: Outcome<bool>)
      requires Valid(pm) && v < TWO64
      modifies this`tabs, this`pages, pm
      ensures r.Returned? ==> (r.value <==> CanMap(old(pages), v, t, raw))
      ensures r == Returned(false) ==> unchanged(this) && unchanged(pm)
      ensures r == Returned(true) ==> Valid(pm) && pages == old(pages)[NodeOf(v, TypeDepth(t)) := raw]
      ensures r == Returned(true) ==> Extended(old(tabs), old(pm.pool), tabs, pm.pool)
      ensures r == Returned(true) ==> OnlyFrames(old(pm.words), pm.words, tabs.Values + pm.pool) && pm.freed == old(pm.freed)
    {
      hide Rep, Filled, Num, Overlap, OnlyFrames, FinalPage, Span, Bits, Home, Extended, NodeOf, Shape, Slot,
           Canonicalize;
      CanMapNeedsEntry(pages, v, t, raw);
      if !raw.present || (t != Page4K && !raw.large) { return Returned(false); }
      var m := Translate(pm, v);
      if m.None? { return Returned(false); }
      var depth := TypeDepth(t);
      CanMapTests(tabs, pages, v, t, raw);
      if m.value.page.Some? { return Returned(false); }
      var entries := [m.value.pml4e, m.value.pdpe, m.value.pde, m.value.pte];
      if depth < |entries| && entries[depth].Some? { return Returned(false); }
      var built := BuildLevels(pm, v, depth, entries);
      if built.Panicked? { return Panicked; }
      entries := built.value;
      EntryIsHome(tabs, v, depth - 1);
      EntryIsHome(tabs, v, depth - 2);
      ghost var m0 := pm.words;
      WriteLeaf(pm, v, depth, entries[depth - 1].value, entries[depth - 2].value, raw);
      OnlyFramesWiden(m0, pm.words, tabs.Values, tabs.Values + pm.pool);
      OnlyFramesStep(old(pm.words), m0, pm.words, tabs.Values + pm.pool, tabs.Values + pm.pool);
      return Returned(true);
    }

    /** Clears the entry of the page at depth `depth` around `v` and, going up, every entry
        whose table became empty, handing those tables back. */
    method UnlinkEntries(pm: PhysMem, ghost v: nat, depth: nat, entries: seq<nat>)
      requires Valid(pm) && 2 <= depth <= 4 && NodeOf(v, depth) in pages
      requires |entries| == depth && forall j: nat :: j < depth ==> entries[j] == EntryAt(tabs, v, j)
      modifies this`tabs, this`pages, pm
      ensures Valid(pm) && pages == old(pages) - {NodeOf(v, depth)}
      ensures SubTables(tabs, old(tabs)) && tabs.Values <= old(tabs).Values
      ensures pm.pool == old(pm.pool) + (old(tabs).Values - tabs.Values)
      ensures |pm.freed| >= |old(pm.freed)| && pm.freed[..|old(pm.freed)|] == old(pm.freed)
      ensures TablesLogged(pm.freed[|old(pm.freed)|..], old(tabs), old(tabs).Keys - tabs.Keys)
      ensures OnlyFrames(old(pm.words), pm.words, old(tabs).Values + old(pm.pool))
    {
      hide Rep, Render, Num, Filled, Read, CellAt, NodeOf, Home, Slot, TablesLogged, OnlyFrames, Span, Shape, RepWithHole,
           SubTables, LiveNodes, EntryAt, Injective;
      ghost var t0 := tabs;
      ghost var own := tabs.Values + pm.pool;
      ghost var log: seq<Block> := [];
      UnlinkStart(pm.words, tabs, pages, v, depth, own);
      pages := pages - {NodeOf(v, depth)};
      var ii := depth - 1;
      while true
        invariant 0 <= ii < depth && pages == old(pages) - {NodeOf(v, depth)}
        invariant Shape(tabs, pages) && NodeOf(v, ii) in tabs && Filled(tabs, pages, {NodeOf(v, ii)})
        invariant RepWithHole(pm.words, tabs, pages, NodeOf(v, ii + 1))
        invariant SubTables(tabs, t0) && tabs.Values <= t0.Values && ROOT in tabs && tabs[ROOT] == t0[ROOT]
        invariant tabs.Values !! pm.pool && pm.pool == old(pm.pool) + (t0.Values - tabs.Values)
        invariant forall j: nat :: j <= ii ==> entries[j] == EntryAt(tabs, v, j)
        invariant pm.freed == old(pm.freed) + log && TablesLogged(log, t0, t0.Keys - tabs.Keys)
        invariant OnlyFrames(old(pm.words), pm.words, own)
        decreases ii
      {
        UnlinkStep(pm.words, tabs, pages, v, ii);
        ClearInside(old(pm.words), pm.words, tabs, own, v, ii, ZERO);
        pm.words := Put(pm.words, entries[ii], ZERO);
        if ii == 0 { break; }
        var nent := Read(pm.words, entries[ii - 1]);
        var inUse := nent.count;
        if inUse == 1 {
          ghost var p, m := NodeOf(v, ii), pm.words;
          pm.FreePhys(entries[ii] / 4096 * 4096, 4096);
          TableFrame(tabs[p]);
          HoleElsewhere(m, pm.words, tabs - {p}, pages, p, pm.pool);
          OnlyFramesWiden(m, pm.words, pm.pool, own);
          OnlyFramesStep(old(pm.words), m, pm.words, own, own);
          DropTable(t0, tabs, log, p);
          log := log + [TableBlock(tabs, p)];
          EntriesKept(tabs, v, ii);
          tabs := tabs - {p};
          ii := ii - 1;
        } else {
          assert inUse > 0 && inUse <= 512;
          ClearInside(old(pm.words), pm.words, tabs, own, v, ii - 1, nent.(count := inUse - 1));
          pm.words := Put(pm.words, entries[ii - 1], nent.(count := inUse - 1));
          break;
        }
      }
      assert pm.freed[|old(pm.freed)|..] == log;
    }

    /** One turn of the unmap loop: unlinks the page around `v`, whose translation is `cur`,
        and hands its backing block back. */
    method FreePageAt(pm: PhysMem, ghost v: nat, ghost level: nat, cur: Mapping) returns (base: nat, size: nat, ghost seg: seq<Block>)
      requires Valid(pm) && Canonical(v) && InPage(pages, v, level) && cur == Walk(tabs, pages, v)
      requires BackingFrames(pages, NodeOf(v, level)) !! tabs.Values
      modifies this`tabs, this`pages, pm
      ensures Valid(pm) && pages == old(pages) - {NodeOf(v, level)}
      ensures base == Base(NodeOf(v, level)) && size == Span(level)
      ensures SubTables(tabs, old(tabs)) && tabs.Values <= old(tabs).Values
      ensures pm.pool == old(pm.pool) + (old(tabs).Values - tabs.Values) + BackingFrames(old(pages), NodeOf(v, level))
      ensures pm.freed == old(pm.freed) + seg + [Backing(old(pages), NodeOf(v, level))]
      ensures TablesLogged(seg, old(tabs), old(tabs).Keys - tabs.Keys)
      ensures OnlyFrames(old(pm.words), pm.words, old(tabs).Values + pm.pool)
    {
      hide Rep, Render, Num, Filled, NodeOf, Home, Shape, TablesLogged, OnlyFrames, SubTables, EntryAt, Canonical, Canonicalize,
           VirtBase, Bits, Slot, Frames;
      PageFacts(tabs, pages, v, level);
      base := VirtBase(cur).value;
      var pageSize := SizeOf(cur).value;
      size := TypeSize(pageSize);
      var entries := match pageSize
        case Page4K => [cur.pml4e.value, cur.pdpe.value, cur.pde.value, cur.pte.value]
        case Page2M => [cur.pml4e.value, cur.pdpe.value, cur.pde.value]
        case Page1G => [cur.pml4e.value, cur.pdpe.value];
      UnlinkEntries(pm, v, TypeDepth(pageSize), entries);
      seg := pm.freed[|old(pm.freed)|..];
      assert pm.freed == old(pm.freed) + seg;
      ghost var m := pm.words;
      pm.FreePhys(cur.page.value.0, size);
      RepElsewhere(m, pm.words, tabs, pages, pm.pool);
      OnlyFramesWiden(old(pm.words), m, old(tabs).Values + old(pm.pool), old(tabs).Values + pm.pool);
      OnlyFramesWiden(m, pm.words, pm.pool, old(tabs).Values + pm.pool);
      OnlyFramesStep(old(pm.words), m, pm.words, old(tabs).Values + pm.pool, old(tabs).Values + pm.pool);
    }

    /** Unmaps the `size` bytes at `vaddr`. Completes exactly when the range is covered by
        whole mapped pages, and then removes exactly those pages, handing to `free_phys` one
        block for each of them and one for each table that became empty. */
    method Free(pm: PhysMem, vaddr: nat, size: nat) returns (r: Outcome<()>)
      requires Valid(pm) && vaddr < TWO64 && size < TWO64
      requires NoTableMapped(pages, tabs, vaddr, vaddr + size)
      modifies this`tabs, this`pages, pm
      ensures r.Returned? <==> Covered(old(pages), vaddr, size)
      ensures r.Returned? ==> Valid(pm)
      ensures r.Returned? ==>
                && |pm.freed| >= |old(pm.freed)| && pm.freed[..|old(pm.freed)|] == old(pm.freed)
                && Unmapped(State(old(tabs), old(pages), old(pm.pool), old(pm.words)), State(tabs, pages, pm.pool, pm.words),
                            pm.freed[|old(pm.freed)|..], PagesFrom(old(pages), vaddr, vaddr + size))
    {
      hide *;
      ghost var s0 := State(tabs, pages, pm.pool, pm.words);
      ghost var log: seq<Block> := [];
      ValidParts(pm);
      CoveredNeeds(s0.pages, vaddr, size);
      if size == 0 { return Panicked; }
      if vaddr + (size - 1) >= TWO64 { return Panicked; }
      var end := vaddr + (size - 1);
      var freed := 0;
      var tr := Translate(pm, vaddr);
      FreeStart(s0, vaddr, size);
      if tr.None? || tr.value.page.None? { return Panicked; }
      var cur := tr.value;
      ghost var lo: nat, pos: nat, at: nat := VirtBase(cur).value, VirtBase(cur).value, vaddr;
      while true
        invariant Valid(pm) && Canonical(at) && cur == Walk(tabs, pages, at) && (lo == pos ==> VirtBase(cur) == Some(lo))
        invariant Progress(s0.pages, vaddr, size, lo, pos, at) && lo <= pos <= TWO64 && lo <= vaddr
        invariant pm.freed == old(pm.freed) + log
        invariant Unmapped(s0, State(tabs, pages, pm.pool, pm.words), log, PagesFrom(s0.pages, lo, pos))
        invariant freed == pos - lo
        decreases TWO64 - pos
      {
        ghost var s1 := State(tabs, pages, pm.pool, pm.words);
        ValidParts(pm);
        UnmappedPages(s0, s1, log, PagesFrom(s0.pages, lo, pos));
        ghost var level := FreeLookup(s0, s1, vaddr, size, lo, pos, at);
        if cur.page.None? { return Panicked; }
        FreeTurn(s0, s1, log, vaddr, size, lo, pos, at, level);
        var base, n;
        ghost var seg;
        base, n, seg := FreePageAt(pm, at, level, cur);
        ghost var s2 := State(tabs, pages, pm.pool, pm.words);
        UnmappedStep(s0, s1, s2, log, seg, PagesFrom(s0.pages, lo, pos), NodeOf(at, level));
        freed := freed + n;
        var next := base + n;
        log := log + seg + [Backing(s1.pages, NodeOf(at, level))];
        pos := next;
        if next >= TWO64 || next > end { break; }
        tr := Translate(pm, next);
        CoveredCanonical(s0.tabs, s0.pages, vaddr, size, next);
        if tr.None? { return Panicked; }
        cur := tr.value;
        at := next;
      }
      ProgressEnd(s0.pages, vaddr, size, lo, pos);
      if freed != size { return Panicked; }
      assert pm.freed[|old(pm.freed)|..] == log;
      return Returned(());
    }

    /** One turn of the mapping loop: takes and fills a block, maps it at `vaddr + off`, and if
        that is refused unmaps everything mapped so far. */
    method MapOne(pm: PhysMem, ghost s0: State, vaddr: nat, t: PageType, off: nat, write: bool, exec: bool, init: Option<nat -> byte>)
      returns (ok: Outcome<bool>)
      requires Valid(pm) && vaddr + off < TWO64
      requires Shape(s0.tabs, s0.pages) && Filled(s0.tabs, s0.pages, {}) && Rep(s0.words, s0.tabs, s0.pages)
      requires Growing(s0, State(tabs, pages, pm.pool, pm.words), t, vaddr, off)
      requires init.Some? ==> Holds(pm.words, pages, vaddr, off, init.value)
      requires Flagged(pages, vaddr, off, t, write, exec)
      modifies this`tabs, this`pages, pm
      ensures ok.Returned? ==> (ok.value <==> MappableAt(s0.pages, vaddr, t, off))
      ensures ok == Returned(true) ==>
                && Valid(pm) && Growing(s0, State(tabs, pages, pm.pool, pm.words), t, vaddr, off + TypeSize(t))
                && (init.Some? ==> Holds(pm.words, pages, vaddr, off + TypeSize(t), init.value))
                && Flagged(pages, vaddr, off + TypeSize(t), t, write, exec)
      ensures ok == Returned(false) ==>
                && Valid(pm) && tabs == s0.tabs && pages == s0.pages && SameTableWords(s0.words, pm.words, tabs)
                && ShortByOneBlock(s0.pool, pm.pool, TypeSize(t))
                && OnlyFrames(s0.words, pm.words, s0.tabs.Values + s0.pool)
    {
      hide *;
      ghost var s1 := State(tabs, pages, pm.pool, pm.words);
      ValidParts(pm);
      PageSizes(t);
      var a := pm.AllocPhys(TypeSize(t), TypeSize(t));
      if a.Panicked? { return Panicked; }
      var p := a.value;
      ghost var block := Frames(p, TypeSize(t));
      PageAligned(p, t);
      var ent := LeafWord(p / 4096, write, exec, t != Page4K);
      ghost var taken := pm.words;
      if init.Some? { pm.FillBytes(p, TypeSize(t), init.value, off); } else { OnlyFramesSelf(taken, block); }
      ghost var m := pm.words;
      OnlyFramesWiden(taken, m, block, s1.pool);
      OnlyFramesStep(s1.words, taken, m, s1.pool, s1.pool);
      StillValid(pm, s1.words, s1.pool);
      NextMappable(s0, s1, t, vaddr, off);
      FreshEntry(pages, vaddr + off, t, p / 4096, write, exec);
      var mapped := MapRaw(pm, vaddr + off, t, ent);
      if mapped.Panicked? { return Panicked; }
      if !mapped.value {
        GrowingParts(s0, s1, t, vaddr, off);
        if off > 0 {
          RollbackReady(s0, s1, t, vaddr, off);
          ghost var before := pm.freed;
          var undone := Free(pm, vaddr, off);
          ValidParts(pm);
          RolledBack(s0, s1, block, m, State(tabs, pages, pm.pool, pm.words), pm.freed[|before|..], PagesFrom(s1.pages, vaddr, vaddr + off));
        } else {
          NothingGrown(s0, s1, t, vaddr);
          OnlyFramesWiden(s1.words, m, s1.pool, s0.tabs.Values + s0.pool);
          OnlyFramesStep(s0.words, s1.words, m, s0.tabs.Values + s0.pool, s0.tabs.Values + s0.pool);
        }
        ValidParts(pm);
        SameRep(s0.words, pm.words, tabs, pages);
        OneBlock(s0.pool, p, TypeSize(t));
        return Returned(false);
      }
      ghost var s2 := State(tabs, pages, pm.pool, pm.words);
      ValidParts(pm);
      NodeLevel(vaddr + off, TypeDepth(t));
      FreshBacking(s1.pages, NodeOf(vaddr + off, TypeDepth(t)), p, write, exec, t != Page4K);
      GrowingStep(s0, s1, m, s2, t, vaddr, off, ent, p);
      FlaggedStep(s0, s1, s2, t, vaddr, off, p, write, exec);
      if init.Some? {
        MappableFresh(s1.pages, vaddr + off, t);
        HoldsStep(s0, s1, m, s2, t, vaddr, off, p, init.value);
      }
      return Returned(true);
    }

    /** Maps `size` bytes at `vaddr` with fresh pages, filled from `init` if it is given.
        Succeeds exactly when the range is well formed and every page of it can be added;
        then exactly those pages are added, with the flags asked for, and read back what `init`
        gave. Otherwise every map, table and table word is as before; the pool is as before for
        a malformed request and short by exactly the one block taken for the failing page for
        any other. */
    method MapInit(pm: PhysMem, vaddr: nat, t: PageType, size: nat, write: bool, exec: bool, init: Option<nat -> byte>)
      returns (r: Outcome<bool>)
      requires Valid(pm) && vaddr < TWO64 && size < TWO64
      modifies this`tabs, this`pages, pm
      ensures r.Returned? ==> (r.value <==> RangeMappable(old(pages), vaddr, t, size))
      ensures r == Returned(true) ==>
                && Valid(pm)
                && Growing(State(old(tabs), old(pages), old(pm.pool), old(pm.words)), State(tabs, pages, pm.pool, pm.words),
                           t, vaddr, RoundUp(size, t))
                && (init.Some? ==> Holds(pm.words, pages, vaddr, RoundUp(size, t), init.value))
                && Flagged(pages, vaddr, RoundUp(size, t), t, write, exec)
      ensures r == Returned(false) ==>
                && Valid(pm) && tabs == old(tabs) && pages == old(pages) && SameTableWords(old(pm.words), pm.words, tabs)
                && (if Malformed(vaddr, t, size) then pm.pool == old(pm.pool)
                    else ShortByOneBlock(old(pm.pool), pm.pool, TypeSize(t)))
                && OnlyFrames(old(pm.words), pm.words, old(tabs).Values + old(pm.pool))
    {
      hide *;
      ghost var s0 := State(tabs, pages, pm.pool, pm.words);
      ValidParts(pm);
      var pageSize := TypeSize(t);
      PageSizes(t);
      Refusal(s0, vaddr, t, size);
      if size <= 0 || vaddr % pageSize != 0 { return Returned(false); }
      if vaddr + (size - 1) >= TWO64 { return Returned(false); }
      var end := vaddr + (size - 1);
      var off := 0;
      GrowingStart(s0, t, vaddr);
      HoldsNothing(pm.words, pages, vaddr, init);
      NothingFlagged(pages, vaddr, t, write, exec);
      while vaddr + off <= end
        invariant Valid(pm) && 0 <= off && off % pageSize == 0 && (off == 0 || off < size + pageSize)
        invariant Growing(s0, State(tabs, pages, pm.pool, pm.words), t, vaddr, off)
        invariant init.Some? ==> Holds(pm.words, pages, vaddr, off, init.value)
        invariant Flagged(pages, vaddr, off, t, write, exec)
        decreases size + pageSize - off
      {
        var ok := MapOne(pm, s0, vaddr, t, off, write, exec, init);
        if ok.Panicked? { return Panicked; }
        if !ok.value {
          RangeRefused(s0.pages, vaddr, t, size, off);
          return Returned(false);
        }
        Aligned(vaddr, off, t);
        off := off + pageSize;
      }
      RoundUpIs(size, t, off);
      RangeAccepted(s0, State(tabs, pages, pm.pool, pm.words), t, vaddr, size, off);
      return Returned(true);
    }

    /** Taking frames from the pool and writing to them does not touch the tables. */
    lemma StillValid(pm: PhysMem, m: Memory, taken: set<Frame>)
      requires Shape(tabs, pages) && Filled(tabs, pages, {}) && Rep(m, tabs, pages)
      requires ROOT in tabs && table == Slot(tabs[ROOT], 0)
      requires OnlyFrames(m, pm.words, taken) && taken !! tabs.Values && tabs.Values !! pm.pool
      ensures Valid(pm)
    {
      hide Rep, OnlyFrames, Filled;
      RepElsewhere(m, pm.words, tabs, pages, taken);
    }

    /** Names the parts of the invariant. */
    lemma ValidParts(pm: PhysMem)
      requires Valid(pm)
      ensures Shape(tabs, pages) && Filled(tabs, pages, {}) && Rep(pm.words, tabs, pages) && tabs.Values !! pm.pool
      ensures ROOT in tabs && table == Slot(tabs[ROOT], 0)
    {
    }
  }
}
