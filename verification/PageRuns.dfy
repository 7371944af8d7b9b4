/** Sequences of page-table calls: what a refused request costs, and what mapping and freeing
    a range leave behind. */
module PageRuns {
  import opened Basics
  import opened PageWords
  import opened PageShape
  import opened PageAddr
  import opened PageCover
  import opened PageSteps
  import opened PageTables
  import opened PageTheorems

  /** The first address that is not canonical: no page can be mapped there. */
  const HOLE: nat := 0x8000_0000_0000

  /** A request that is always refused, and never gives its block back. */
  method RefusedRequestLeaks(pt: PageTable, pm: PhysMem) returns (r: Outcome<bool>)
    requires pt.Valid(pm)
    modifies pt`tabs, pt`pages, pm
    ensures r.Returned? ==> r == Returned(false) && pt.Valid(pm) && pt.pages == old(pt.pages) && pm.pool < old(pm.pool)
  {
    hide *;
    HoleRefused(pt.pages);
    r := pt.MapInit(pm, HOLE, Page4K, 4096, true, false, None);
    if r.Returned? { PoolShrinks(old(pm.pool), pm.pool, Page4K); }
  }

  lemma HoleRefused(pages: Pages)
    ensures 4096 < HOLE < TWO64 && !RangeMappable(pages, HOLE, Page4K, 4096) && !Malformed(HOLE, Page4K, 4096)
  {
    assert !Canonical(HOLE);
    assert !MappableAt(pages, HOLE, Page4K, 0);
  }

  /** Mapping a range and freeing it again: whenever the mapping succeeds the freeing completes,
      and the map, the tables, every table word and the pool are as before. */
  method MapThenFreeRange(pt: PageTable, pm: PhysMem, vaddr: nat, t: PageType, size: nat, write: bool, exec: bool)
    returns (mapped: Outcome<bool>, undone: Outcome<()>)
    requires pt.Valid(pm) && vaddr < TWO64 && size < TWO64
    modifies pt`tabs, pt`pages, pm
    ensures mapped.Returned? ==> (mapped.value <==> RangeMappable(old(pt.pages), vaddr, t, size))
    ensures mapped == Returned(true) ==>
              && undone.Returned? && pt.Valid(pm) && pt.pages == old(pt.pages) && pt.tabs == old(pt.tabs)
              && pm.pool == old(pm.pool) && SameTableWords(old(pm.words), pm.words, pt.tabs)
  {
    hide *;
    undone := Panicked;
    ghost var s0 := State(pt.tabs, pt.pages, pm.pool, pm.words);
    pt.ValidParts(pm);
    mapped := pt.MapInit(pm, vaddr, t, size, write, exec, None);
    if mapped == Returned(true) {
      ghost var s1, off := State(pt.tabs, pt.pages, pm.pool, pm.words), RoundUp(size, t);
      pt.ValidParts(pm);
      RoundUpBig(size, t);
      MappableNotEmpty(s0.pages, vaddr, t, size);
      GrowingParts(s0, s1, t, vaddr, off);
      RollbackReady(s0, s1, t, vaddr, off);
      NotAllOfIt(s0, s1, t, vaddr, off);
      ghost var before := pm.freed;
      undone := pt.Free(pm, vaddr, RoundUp(size, t));
      pt.ValidParts(pm);
      MapThenFree(s0, s1, State(pt.tabs, pt.pages, pm.pool, pm.words), pm.freed[|before|..], PagesFrom(s1.pages, vaddr, vaddr + off));
    }
  }

  lemma RoundUpBig(size: nat, t: PageType)
    ensures RoundUp(size, t) >= size
  {
    var n := TypeSize(t);
    assert (size + n - 1) / n * n + (size + n - 1) % n == size + n - 1;
  }

  lemma MappableNotEmpty(pages: Pages, v: nat, t: PageType, size: nat)
    requires RangeMappable(pages, v, t, size)
    ensures size > 0
  {
  }

  /** No range of mapped pages is the whole address space. */
  lemma NotAllOfIt(s0: State, s: State, t: PageType, v: nat, off: nat)
    requires Growing(s0, s, t, v, off)
    ensures off < TWO64
  {
    assert !Canonical(HOLE);
    assert v <= HOLE < v + off ==> TiledAt(s.pages, v, v + off, HOLE);
  }
}
