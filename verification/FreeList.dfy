/** The per-core list of free 4 KiB pages. The pages of the list are kept inside the free
    pages themselves: a node page holds a link, the number of unused slots, and up to 510
    page addresses. */
module FreeLists {
  import opened Basics
  import opened Ranges
  import opened RangeSets
  import opened Alignment
  import opened Allocation

  const SLOTS: nat := 510
  const WINDOW: nat := 64 * 1024 * 1024 * 1024

  type Words = map<nat, nat>

  function Word(m: Words, a: nat): nat { if a in m then m[a] else 0 }

  function Next(m: Words, p: nat): nat { Word(m, p) }

  function FreeSlots(m: Words, p: nat): nat { Word(m, p + 8) }

  function PageAt(m: Words, p: nat, j: nat): nat { Word(m, p + 16 + 8 * j) }

  /** The page addresses held by node `p` from slot `k` on. */
  function Held(m: Words, p: nat, k: nat): seq<nat>
    decreases SLOTS - k
  {
    if k >= SLOTS then [] else [PageAt(m, p, k)] + Held(m, p, k + 1)
  }

  /** The stack of free pages that a chain of nodes stands for, top first: the slots of a
      node, then the node page itself, then the nodes after it. */
  ghost function Stack(m: Words, nodes: seq<nat>): seq<nat> {
    if nodes == [] then []
    else Held(m, nodes[0], FreeSlots(m, nodes[0])) + [nodes[0]] + Stack(m, nodes[1..])
  }

  predicate PageOk(p: nat) { p > 0 && p % 4096 == 0 }

  predicate NodeOk(p: nat) { PageOk(p) && p + 4096 <= WINDOW }

  /** `nodes` are the distinct nodes linked from `head`, each of them completely full. */
  ghost predicate Full(m: Words, head: nat, nodes: seq<nat>)
    decreases |nodes|
  {
    if nodes == [] then head == 0
    else
      && head == nodes[0] && NodeOk(head) && head !in nodes[1..]
      && FreeSlots(m, head) == 0 && Full(m, Next(m, head), nodes[1..])
  }

  /** `nodes` are the distinct nodes linked from `head`, all but the first completely full. */
  ghost predicate Chain(m: Words, head: nat, nodes: seq<nat>) {
    if nodes == [] then head == 0
    else
      && head == nodes[0] && NodeOk(head) && head !in nodes[1..]
      && FreeSlots(m, head) <= SLOTS && Full(m, Next(m, head), nodes[1..])
  }

  /** Words of page `p` that differ between the two memories lie in page `p` only. */
  ghost predicate OnlyPage(m: Words, m': Words, p: nat) {
    forall a: nat {:trigger Word(m', a)} {:trigger Word(m, a)} :: !(p <= a < p + 4096) ==> Word(m', a) == Word(m, a)
  }

  lemma {:induction false} HeldSame(m: Words, m': Words, p: nat, k: nat)
    requires forall j: nat :: k <= j < SLOTS ==> PageAt(m', p, j) == PageAt(m, p, j)
    ensures Held(m', p, k) == Held(m, p, k)
    decreases SLOTS - k
  {
    if k < SLOTS { HeldSame(m, m', p, k + 1); }
  }

  /** Other pages keep what they hold. */
  lemma PageKept(m: Words, m': Words, p: nat, q: nat)
    requires OnlyPage(m, m', p) && p % 4096 == 0 && q % 4096 == 0 && p != q
    ensures Next(m', q) == Next(m, q) && FreeSlots(m', q) == FreeSlots(m, q)
    ensures forall j: nat :: j < SLOTS ==> PageAt(m', q, j) == PageAt(m, q, j)
  {
    assert q + 4096 <= p || p + 4096 <= q;
  }

  /** A full chain not containing the page written keeps its links and what it holds. */
  lemma {:induction false} FullKept(m: Words, m': Words, p: nat, head: nat, nodes: seq<nat>)
    requires OnlyPage(m, m', p) && p % 4096 == 0 && p !in nodes && Full(m, head, nodes)
    ensures Full(m', head, nodes) && Stack(m', nodes) == Stack(m, nodes)
    decreases |nodes|
  {
    hide OnlyPage, Next, FreeSlots, PageAt;
    if nodes != [] {
      PageKept(m, m', p, head);
      HeldSame(m, m', head, 0);
      FullKept(m, m', p, Next(m, head), nodes[1..]);
    }
  }

  lemma ChainKept(m: Words, m': Words, p: nat, head: nat, nodes: seq<nat>)
    requires OnlyPage(m, m', p) && p % 4096 == 0 && p !in nodes && Chain(m, head, nodes)
    ensures Chain(m', head, nodes) && Stack(m', nodes) == Stack(m, nodes)
  {
    hide OnlyPage, Next, FreeSlots, PageAt;
    if nodes != [] {
      PageKept(m, m', p, head);
      HeldSame(m, m', head, FreeSlots(m, head));
      FullKept(m, m', p, Next(m, head), nodes[1..]);
    }
  }

  lemma {:induction false} NodesOnStack(m: Words, nodes: seq<nat>, i: nat)
    requires i < |nodes|
    ensures nodes[i] in Stack(m, nodes)
    decreases |nodes|
  {
    hide Held, FreeSlots;
    if i > 0 {
      NodesOnStack(m, nodes[1..], i - 1);
      assert nodes[1..][i - 1] == nodes[i];
    } else {
      var own := Held(m, nodes[0], FreeSlots(m, nodes[0])) + [nodes[0]];
      assert own[|own| - 1] == nodes[0] && Stack(m, nodes) == own + Stack(m, nodes[1..]);
    }
  }

  // ----- pushing and popping -----

  lemma Rewrite(m: Words, a: nat, v: nat, b: nat)
    ensures Word(m[a := v], b) == if a == b then v else Word(m, b)
  {
  }

  /** A page made into a new first node. */
  function LinkNode(m: Words, page: nat, head: nat): Words { m[page + 8 := SLOTS][page := head] }

  lemma LinkedWords(m: Words, page: nat, head: nat)
    ensures var m' := LinkNode(m, page, head);
            OnlyPage(m, m', page) && Next(m', page) == head && FreeSlots(m', page) == SLOTS
  {
    Rewrite(m[page + 8 := SLOTS], page, head, page);
    Rewrite(m[page + 8 := SLOTS], page, head, page + 8);
    Rewrite(m, page + 8, SLOTS, page + 8);
    forall a: nat | !(page <= a < page + 4096)
      ensures Word(LinkNode(m, page, head), a) == Word(m, a)
    {
      Rewrite(m[page + 8 := SLOTS], page, head, a);
      Rewrite(m, page + 8, SLOTS, a);
    }
  }

  lemma NotANode(m: Words, nodes: seq<nat>, page: nat)
    requires page !in Stack(m, nodes)
    ensures page !in nodes
  {
    if page in nodes {
      var i :| 0 <= i < |nodes| && nodes[i] == page;
      NodesOnStack(m, nodes, i);
    }
  }

  /** An empty node in front of a full chain. */
  lemma Prepended(m: Words, head: nat, nodes: seq<nat>, page: nat)
    requires Full(m, head, nodes) && NodeOk(page) && page !in nodes
    requires Next(m, page) == head && FreeSlots(m, page) == SLOTS
    ensures Chain(m, page, [page] + nodes) && Stack(m, [page] + nodes) == [page] + Stack(m, nodes)
  {
    hide Next, FreeSlots, PageAt, NodeOk, Full;
    var all := [page] + nodes;
    assert all[1..] == nodes && all[0] == page;
    assert Held(m, page, SLOTS) == [];
    hide Held;
    assert Stack(m, all) == [] + [page] + Stack(m, nodes);
  }

  lemma LinkedNode(m: Words, head: nat, nodes: seq<nat>, page: nat)
    requires Chain(m, head, nodes) && NodeOk(page) && page !in Stack(m, nodes)
    requires nodes == [] || FreeSlots(m, head) == 0
    ensures Chain(LinkNode(m, page, head), page, [page] + nodes)
    ensures Stack(LinkNode(m, page, head), [page] + nodes) == [page] + Stack(m, nodes)
    ensures OnlyPage(m, LinkNode(m, page, head), page)
  {
    hide LinkNode, OnlyPage, Next, FreeSlots, PageAt, Stack, Held;
    var m' := LinkNode(m, page, head);
    LinkedWords(m, page, head);
    NotANode(m, nodes, page);
    assert Full(m, head, nodes);
    hide Full, Chain;
    FullKept(m, m', page, head, nodes);
    Prepended(m', head, nodes, page);
  }

  /** A page put into the next slot of the first node. */
  function FillSlot(m: Words, head: nat, page: nat): Words
    requires FreeSlots(m, head) > 0
  {
    var k := FreeSlots(m, head) - 1;
    m[head + 8 := k][head + 16 + 8 * k := page]
  }

  lemma FilledWords(m: Words, head: nat, page: nat)
    requires 0 < FreeSlots(m, head) <= SLOTS
    ensures var m', k := FillSlot(m, head, page), FreeSlots(m, head) - 1;
            && OnlyPage(m, m', head) && Next(m', head) == Next(m, head)
            && FreeSlots(m', head) == k && PageAt(m', head, k) == page
            && (forall j: nat :: k + 1 <= j < SLOTS ==> PageAt(m', head, j) == PageAt(m, head, j))
  {
    var k := FreeSlots(m, head) - 1;
    var m1, c := m[head + 8 := k], head + 16 + 8 * k;
    forall a: nat
      ensures Word(FillSlot(m, head, page), a) == if a == c then page else if a == head + 8 then k else Word(m, a)
    {
      Rewrite(m1, c, page, a);
      Rewrite(m, head + 8, k, a);
    }
  }

  lemma FilledSlot(m: Words, head: nat, nodes: seq<nat>, page: nat)
    requires Chain(m, head, nodes) && nodes != [] && FreeSlots(m, head) > 0
    ensures Chain(FillSlot(m, head, page), head, nodes)
    ensures Stack(FillSlot(m, head, page), nodes) == [page] + Stack(m, nodes)
    ensures OnlyPage(m, FillSlot(m, head, page), head)
  {
    var m', k := FillSlot(m, head, page), FreeSlots(m, head) - 1;
    FilledWords(m, head, page);
    hide FillSlot, OnlyPage, Next, FreeSlots, PageAt;
    HeadRewritten(m, m', head, nodes, k);
    HeldSame(m, m', head, k + 1);
    assert Held(m', head, k) == [page] + Held(m, head, k + 1);
    hide Held, Stack;
    OneMore(m', m, nodes, page);
  }

  /** Rewriting slots of the first node leaves the rest of the chain as it was. */
  lemma HeadRewritten(m: Words, m': Words, head: nat, nodes: seq<nat>, k: nat)
    requires Chain(m, head, nodes) && nodes != [] && OnlyPage(m, m', head)
    requires Next(m', head) == Next(m, head) && FreeSlots(m', head) == k <= SLOTS
    ensures Chain(m', head, nodes) && Stack(m', nodes[1..]) == Stack(m, nodes[1..])
  {
    hide OnlyPage, Next, FreeSlots, PageAt;
    FullKept(m, m', head, Next(m, head), nodes[1..]);
  }

  lemma OneMore(m: Words, m': Words, nodes: seq<nat>, x: nat)
    requires nodes != [] && Stack(m, nodes[1..]) == Stack(m', nodes[1..])
    requires Held(m, nodes[0], FreeSlots(m, nodes[0])) == [x] + Held(m', nodes[0], FreeSlots(m', nodes[0]))
    ensures Stack(m, nodes) == [x] + Stack(m', nodes)
  {
    hide Held, FreeSlots;
  }

  /** The first used slot of a node marked unused again. */
  function TakeSlot(m: Words, head: nat): Words { m[head + 8 := FreeSlots(m, head) + 1] }

  lemma TakenWords(m: Words, head: nat)
    requires FreeSlots(m, head) < SLOTS
    ensures var m', k := TakeSlot(m, head), FreeSlots(m, head);
            && OnlyPage(m, m', head) && Next(m', head) == Next(m, head) && FreeSlots(m', head) == k + 1
            && (forall j: nat :: k + 1 <= j < SLOTS ==> PageAt(m', head, j) == PageAt(m, head, j))
  {
    forall a: nat
      ensures Word(TakeSlot(m, head), a) == if a == head + 8 then FreeSlots(m, head) + 1 else Word(m, a)
    {
      Rewrite(m, head + 8, FreeSlots(m, head) + 1, a);
    }
  }

  /** The first used slot of the first node given out. */
  lemma TakenSlot(m: Words, head: nat, nodes: seq<nat>)
    requires Chain(m, head, nodes) && nodes != [] && FreeSlots(m, head) < SLOTS
    ensures var m' := TakeSlot(m, head);
            && Chain(m', head, nodes) && OnlyPage(m, m', head)
            && Stack(m, nodes) == [PageAt(m, head, FreeSlots(m, head))] + Stack(m', nodes)
  {
    TakenWords(m, head);
    hide OnlyPage, Next, FreeSlots, PageAt, TakeSlot;
    var m', k := TakeSlot(m, head), FreeSlots(m, head);
    HeadRewritten(m, m', head, nodes, k + 1);
    HeldSame(m, m', head, k + 1);
    assert Held(m, head, k) == [PageAt(m, head, k)] + Held(m', head, k + 1);
    hide Held, Stack;
    OneMore(m, m', nodes, PageAt(m, head, k));
  }

  /** A first node with no used slot given out itself. */
  lemma TakenNode(m: Words, head: nat, nodes: seq<nat>)
    requires Chain(m, head, nodes) && nodes != [] && FreeSlots(m, head) >= SLOTS
    ensures Chain(m, Next(m, head), nodes[1..])
    ensures Stack(m, nodes) == [head] + Stack(m, nodes[1..])
  {
    assert Held(m, head, FreeSlots(m, head)) == [];
  }

  // ----- the two operations as functions on memory -----

  /** A pushed page becomes a node when there is no node or the first node is full. */
  predicate NewNode(m: Words, head: nat) { head == 0 || FreeSlots(m, head) == 0 }

  function PushWords(m: Words, head: nat, page: nat): Words {
    if NewNode(m, head) then LinkNode(m, page, head) else FillSlot(m, head, page)
  }

  function PushHead(m: Words, head: nat, page: nat): nat { if NewNode(m, head) then page else head }

  ghost function PushNodes(m: Words, head: nat, nodes: seq<nat>, page: nat): seq<nat> {
    if NewNode(m, head) then [page] + nodes else nodes
  }

  function TakeWords(m: Words, head: nat): Words { if FreeSlots(m, head) < SLOTS then TakeSlot(m, head) else m }

  function TakeHead(m: Words, head: nat): nat { if FreeSlots(m, head) < SLOTS then head else Next(m, head) }

  function TakePage(m: Words, head: nat): nat {
    if FreeSlots(m, head) < SLOTS then PageAt(m, head, FreeSlots(m, head)) else head
  }

  ghost function TakeNodes(m: Words, head: nat, nodes: seq<nat>): seq<nat> {
    if FreeSlots(m, head) < SLOTS || nodes == [] then nodes else nodes[1..]
  }

  lemma ChainHead(m: Words, head: nat, nodes: seq<nat>)
    requires Chain(m, head, nodes)
    ensures head == 0 <==> nodes == []
    ensures head != 0 ==> head == nodes[0] && NodeOk(head) && FreeSlots(m, head) <= SLOTS && head in Stack(m, nodes)
    ensures nodes == [] ==> Stack(m, nodes) == []
  {
    if nodes != [] { NodesOnStack(m, nodes, 0); }
  }

  /** Pushing is pushing on the stack, and writes into one page that is free afterwards. */
  lemma Pushes(m: Words, head: nat, nodes: seq<nat>, page: nat)
    requires Chain(m, head, nodes) && PageOk(page) && page !in Stack(m, nodes)
    requires NewNode(m, head) ==> page + 4096 <= WINDOW
    ensures var m', head', nodes' := PushWords(m, head, page), PushHead(m, head, page), PushNodes(m, head, nodes, page);
            Chain(m', head', nodes') && Stack(m', nodes') == [page] + Stack(m, nodes) && OnlyPage(m, m', head')
  {
    hide Chain, Stack, OnlyPage, FreeSlots, LinkNode, FillSlot;
    ChainHead(m, head, nodes);
    if NewNode(m, head) { LinkedNode(m, head, nodes, page); } else { FilledSlot(m, head, nodes, page); }
  }

  /** Taking is popping the stack, and writes into one page that was free before. */
  lemma Takes(m: Words, head: nat, nodes: seq<nat>)
    requires Chain(m, head, nodes) && head != 0
    ensures var m', head', nodes' := TakeWords(m, head), TakeHead(m, head), TakeNodes(m, head, nodes);
            && Chain(m', head', nodes') && Stack(m, nodes) == [TakePage(m, head)] + Stack(m', nodes')
            && OnlyPage(m, m', head)
  {
    ChainHead(m, head, nodes);
    assert OnlyPage(m, m, head);
    hide Chain, Stack, OnlyPage, FreeSlots, TakeSlot, Next, PageAt;
    if FreeSlots(m, head) < SLOTS { TakenSlot(m, head, nodes); } else { TakenNode(m, head, nodes); }
  }

  /** Page zero cannot be a node, since a link of zero ends the list: pushed where a node is
      needed it is lost, and every page of the list with it. */
  lemma ZeroLosesList(m: Words, head: nat)
    requires NewNode(m, head)
    ensures PushHead(m, head, 0) == 0 && OnlyPage(m, PushWords(m, head, 0), 0)
    ensures Chain(PushWords(m, head, 0), 0, []) && Stack(PushWords(m, head, 0), []) == []
  {
    LinkedWords(m, 0, head);
  }

  /** The page given is lost, and the list with it. */
  predicate Loses(m: Words, head: nat, page: nat) { page == 0 && NewNode(m, head) }

  // ----- the list -----

  const BATCH: nat := 1024 * 1024

  /** `n` pages from `base` up, as a stack they were pushed on in order. */
  function Batch(base: nat, n: nat): seq<nat> {
    if n == 0 then [] else [base + 4096 * (n - 1)] + Batch(base, n - 1)
  }

  /** What a refill puts on an empty list: nothing if the end of the block wraps to zero, all
      pages but page zero, which is lost, if the block starts at zero, and otherwise all. */
  function Refilled(alc: nat): seq<nat> {
    if alc + BATCH > MAX then [] else if alc == 0 then Batch(4096, 255) else Batch(alc, 256)
  }

  function BatchRequest(region: Option<Range>): Request { Request(BATCH, 4096, region, MAX) }

  /** The set gives out nothing: no bytes are asked for, the alignment is not a power of two, or
      the search gives up. */
  ghost predicate NoBlock(s: seq<Range>, q: Request) {
    q.size == 0 || q.align == 0 || Ones(q.align) != 1 || GivesUp(s, q)
  }

  /** Taking the block out would split a range of a set that has no room for one more. */
  ghost predicate CannotTake(s: seq<Range>, inUse: nat, c: Choice) {
    inUse == CAPACITY && SomeSplits(s, Range(c.base, c.end))
  }

  /** A refill panics: the search for a block gives up, or the block cannot be taken out, or its
      first page lies outside the window. From the very top of the address space no page is pushed. */
  ghost predicate RefillFails(s: seq<Range>, inUse: nat, region: Option<Range>, c: Choice) {
    GivesUp(s, BatchRequest(region)) || CannotTake(s, inUse, c) || (c.end < MAX && c.ptr + 4096 > WINDOW)
  }

  lemma {:induction false} BatchPages(base: nat, n: nat)
    ensures |Batch(base, n)| == n
    ensures forall i :: 0 <= i < n ==> Batch(base, n)[i] == base + 4096 * (n - 1 - i)
  {
    if n > 0 { BatchPages(base, n - 1); }
  }

  lemma BatchNew(base: nat, n: nat)
    ensures base + 4096 * n !in Batch(base, n)
  {
    BatchPages(base, n);
  }

  /** Physical memory as the list sees it. */
  class PhysWords {
    var words: Words
  }

  class PageFreeList {
    var head: nat
    ghost var nodes: seq<nat>

    ghost predicate Valid(mem: PhysWords)
      reads this, mem
    {
      Chain(mem.words, head, nodes)
    }

    /** The free pages, the one to be given out next first. */
    ghost function Pages(mem: PhysWords): seq<nat>
      reads this, mem
    {
      Stack(mem.words, nodes)
    }

    constructor (ghost mem: PhysWords)
      ensures Valid(mem) && Pages(mem) == [] && head == 0
    {
      head := 0;
      nodes := [];
    }

    /** Puts a page on top. It must lie in the window onto physical memory when it becomes a
        node, and only then. Page zero cannot become a node: then the list is lost. */
    method Push(mem: PhysWords, page: nat) returns (r: Outcome<()>)
      requires Valid(mem) && page % 4096 == 0 && page !in Pages(mem)
      modifies this, mem
      ensures r.Panicked? <==> page + 4096 > WINDOW && NewNode(old(mem.words), old(head))
      ensures r.Returned? ==> Valid(mem)
      ensures r.Returned? ==>
                Pages(mem) == if Loses(old(mem.words), old(head), page) then [] else [page] + old(Pages(mem))
      ensures r.Returned? ==> mem.words == PushWords(old(mem.words), old(head), page)
      ensures r.Returned? ==> head == PushHead(old(mem.words), old(head), page)
      ensures r.Returned? ==> OnlyPage(old(mem.words), mem.words, head)
    {
      hide Chain, Stack, OnlyPage;
      ChainHead(mem.words, head, nodes);
      if head == 0 || FreeSlots(mem.words, head) == 0 {
        if page + (4096 - 1) >= WINDOW { return Panicked; }
        if page == 0 { ZeroLosesList(mem.words, head); } else { Pushes(mem.words, head, nodes, page); }
        nodes := if page == 0 then [] else [page] + nodes;
        mem.words := mem.words[page + 8 := SLOTS];
        mem.words := mem.words[page := head];
        head := page;
      } else {
        FilledSlot(mem.words, head, nodes, page);
        var k := FreeSlots(mem.words, head) - 1;
        mem.words := mem.words[head + 8 := k];
        mem.words := mem.words[head + 16 + 8 * k := page];
      }
      return Returned(());
    }

    /** Pushes the 256 pages of a block onto an empty list, lowest first. The end of the block
        is a 64-bit number: for a block at the very top it wraps to zero, and no page is pushed. */
    method Populate(mem: PhysWords, alc: nat) returns (r: Outcome<()>)
      requires Valid(mem) && head == 0 && alc % 4096 == 0 && alc + BATCH <= MAX + 1
      modifies this, mem
      ensures r.Returned? <==> alc + BATCH > MAX || alc + 4096 <= WINDOW
      ensures r.Returned? ==> Valid(mem) && Pages(mem) == Refilled(alc) && (head == 0 <==> alc + BATCH > MAX)
      ensures r.Returned? && alc + BATCH > MAX ==> mem.words == old(mem.words)
    {
      ChainHead(mem.words, head, nodes);
      hide Chain, Stack, OnlyPage, PushWords, PushHead, Loses, NewNode, Filling, Refilled, FreeSlots;
      var end := (alc + BATCH) % (MAX + 1);
      WrappedEnd(alc);
      FillStart(mem.words, head, alc);
      var paddr := alc;
      ghost var n: nat := 0;
      while paddr < end
        invariant n <= 256 && paddr == alc + 4096 * n && (n > 0 ==> end == alc + BATCH)
        invariant Valid(mem) && Filling(mem.words, head, Pages(mem), alc, n)
        invariant n == 0 ==> mem.words == old(mem.words)
        decreases 256 - n
      {
        FillNext(mem.words, head, Pages(mem), alc, n);
        var pushed := Push(mem, paddr);
        if pushed.Panicked? { return Panicked; }
        paddr := paddr + 4096;
        n := n + 1;
      }
      FillEnd(mem.words, head, Pages(mem), alc, n);
      return Returned(());
    }

    /** Refills an empty list with the 256 pages of one block of the set. */
    method Refill(mem: PhysWords, phys: RangeSet, region: Option<Range>) returns (r: Outcome<()>, ghost c: Choice)
      requires Valid(mem) && head == 0 && phys.Valid() && RegionOk(region)
      modifies this, mem, phys, phys.ranges
      ensures r.Returned? ==> phys.Valid() && Valid(mem) && Pages(mem) == Refilled(c.ptr) && (head == 0 <==> c.end == MAX)
      ensures r.Returned? && c.end == MAX ==> mem.words == old(mem.words)
      ensures GivesUp(old(phys.Entries()), BatchRequest(region)) || Settled(old(phys.Entries()), BatchRequest(region), c)
      ensures r.Panicked? <==> RefillFails(old(phys.Entries()), old(phys.inUse), region, c)
      ensures r.Returned? ==>
                forall x: nat :: Covers(phys.Entries(), x) <==> Covers(old(phys.Entries()), x) && !(c.base <= x <= c.end)
    {
      hide Chain, Stack, Batch, Settled, GivesUp, Covers, Canon, SomeSplits;
      OnePage();
      hide Ones;
      var alc;
      alc, c := phys.AllocatePrefer(BATCH, 4096, region, MAX);
      if alc.Panicked? || alc.value.None? { return Panicked, c; }
      BatchBlock(old(phys.Entries()), region, c);
      assert c.end == c.ptr + BATCH - 1;
      r := Populate(mem, alc.value.value);
    }

    /** Takes the page on top, after a refill if there is none. A refill from the very top of
        the address space leaves the list empty; the node is then read from address zero. */
    method Pop(mem: PhysWords, phys: RangeSet, region: Option<Range>) returns (r: Outcome<nat>, ghost c: Choice)
      requires Valid(mem) && phys.Valid() && RegionOk(region)
      modifies this, mem, phys, phys.ranges
      ensures r.Returned? ==> phys.Valid()
      ensures r.Returned? && (old(head) != 0 || c.end < MAX) ==> Valid(mem)
      ensures old(head) == 0 ==> (r.Panicked? <==> RefillFails(old(phys.Entries()), old(phys.inUse), region, c))
      ensures old(head) != 0 ==> r.Returned? && old(Pages(mem)) == [r.value] + Pages(mem)
      ensures old(head) != 0 ==>
                && mem.words == TakeWords(old(mem.words), old(head)) && head == TakeHead(old(mem.words), old(head))
                && r.value == TakePage(old(mem.words), old(head))
      ensures old(head) != 0 ==> phys.Entries() == old(phys.Entries()) && OnlyPage(old(mem.words), mem.words, old(head))
      ensures old(head) == 0 ==>
                GivesUp(old(phys.Entries()), BatchRequest(region)) || Settled(old(phys.Entries()), BatchRequest(region), c)
      ensures old(head) == 0 && r.Returned? ==>
                forall x: nat :: Covers(phys.Entries(), x) <==> Covers(old(phys.Entries()), x) && !(c.base <= x <= c.end)
      ensures old(head) == 0 && r.Returned? && c.end < MAX ==> [r.value] + Pages(mem) == Refilled(c.ptr)
      ensures old(head) == 0 && r.Returned? && c.end >= MAX ==>
                && mem.words == TakeWords(old(mem.words), 0) && head == TakeHead(old(mem.words), 0)
                && r.value == TakePage(old(mem.words), 0)
    {
      hide Chain, Stack, OnlyPage, Settled, Canon, Covers, Refilled, CannotTake, GivesUp, NewNode;
      c := Choice(0, 0, 0);
      if head == 0 {
        var refilled;
        refilled, c := Refill(mem, phys, region);
        if refilled.Panicked? { return Panicked, c; }
        SettledEnd(old(phys.Entries()), region, c);
      }
      if head != 0 { Takes(mem.words, head, nodes); }
      ChainHead(mem.words, head, nodes);
      nodes := TakeNodes(mem.words, head, nodes);
      var page;
      if FreeSlots(mem.words, head) < SLOTS {
        page := PageAt(mem.words, head, FreeSlots(mem.words, head));
        mem.words := mem.words[head + 8 := FreeSlots(mem.words, head) + 1];
      } else {
        page := head;
        head := Next(mem.words, head);
      }
      return Returned(page), c;
    }
  }

  /** Gets `size` bytes for the running core: a single page from its own list, anything
      else from the shared set. */
  method AllocPhys(mem: PhysWords, phys: RangeSet, list: PageFreeList, size: nat, align: nat, region: Option<Range>)
    returns (r: Outcome<nat>, ghost c: Choice)
    requires list.Valid(mem) && phys.Valid() && RegionOk(region)
    requires 0 < align <= MAX && size <= MAX
    modifies list, mem, phys, phys.ranges
    ensures r.Returned? ==> phys.Valid()
    ensures r.Returned? && (size != 4096 || align < 4096 || old(list.head) != 0 || c.end < MAX) ==> list.Valid(mem)
    ensures r.Returned? && size == 4096 <= align && (old(list.head) != 0 || c.end < MAX) ==>
              [r.value] + list.Pages(mem) == if old(list.head) != 0 then old(list.Pages(mem)) else Refilled(c.ptr)
    ensures r.Returned? && size == 4096 <= align && old(list.head) == 0 && c.end >= MAX ==>
              r.value == TakePage(old(mem.words), 0)
    ensures r.Returned? && size == 4096 <= align && old(list.head) != 0 ==> phys.Entries() == old(phys.Entries())
    ensures r.Returned? && (size != 4096 || align < 4096) ==>
              size > 0 && r.value == c.ptr && mem.words == old(mem.words) && list.Pages(mem) == old(list.Pages(mem))
    ensures size != 4096 || align < 4096 || old(list.head) == 0 ==>
              || NoBlock(old(phys.Entries()), AllocRequest(size, align, region))
              || Settled(old(phys.Entries()), AllocRequest(size, align, region), c)
    ensures size == 4096 <= align ==>
              (r.Panicked? <==> old(list.head) == 0 && RefillFails(old(phys.Entries()), old(phys.inUse), region, c))
    ensures size != 4096 || align < 4096 ==>
              (r.Panicked? <==>
                 || NoBlock(old(phys.Entries()), AllocRequest(size, align, region))
                 || CannotTake(old(phys.Entries()), old(phys.inUse), c))
    ensures r.Returned? && (size != 4096 || align < 4096 || old(list.head) == 0) ==>
              forall x: nat :: Covers(phys.Entries(), x) <==> Covers(old(phys.Entries()), x) && !(c.base <= x <= c.end)
  {
    hide Chain, Stack, OnlyPage, Settled, GivesUp, SomeSplits, Canon, Covers;
    if size == 4096 && align >= 4096 {
      r, c := list.Pop(mem, phys, region);
    } else {
      var alc;
      alc, c := phys.AllocatePrefer(size, align, region, MAX);
      if alc.Panicked? || alc.value.None? { return Panicked, c; }
      return Returned(alc.value.value), c;
    }
  }

  /** What is asked of the set: a whole batch for a page, the block itself otherwise. */
  function AllocRequest(size: nat, align: nat, region: Option<Range>): (q: Request)
    ensures q.size == 0 ==> size == 0
    ensures align > 0 ==> q.align > 0
  {
    if size == 4096 <= align then BatchRequest(region) else Request(size, align, region, MAX)
  }

  /** Gives `size` bytes back: an aligned page to the running core's list, anything else to
      the shared set. */
  method FreePhys(mem: PhysWords, phys: RangeSet, list: PageFreeList, addr: nat, size: nat) returns (r: Outcome<()>)
    requires list.Valid(mem) && phys.Valid() && addr <= MAX && size <= MAX
    requires size == 4096 && addr % 4096 == 0 ==> addr !in list.Pages(mem)
    modifies list, mem, phys, phys.ranges
    ensures r.Returned? ==> phys.Valid() && list.Valid(mem)
    ensures size == 4096 && addr % 4096 == 0 ==>
              && (r.Panicked? <==> addr + 4096 > WINDOW && NewNode(old(mem.words), old(list.head)))
              && (r.Returned? ==> phys.Entries() == old(phys.Entries()))
              && (r.Returned? ==>
                    list.Pages(mem) == if Loses(old(mem.words), old(list.head), addr) then [] else [addr] + old(list.Pages(mem)))
    ensures !(size == 4096 && addr % 4096 == 0) ==>
              && (r.Panicked? <==>
                    || size == 0 || addr + size - 1 > MAX
                    || (old(phys.inUse) == CAPACITY && !SomeTouches(old(phys.Entries()), Range(addr, addr + size - 1))))
              && (r.Returned? ==> mem.words == old(mem.words) && list.Pages(mem) == old(list.Pages(mem)))
              && (r.Returned? ==> forall x: nat ::
                    Covers(phys.Entries(), x) <==> Covers(old(phys.Entries()), x) || addr <= x < addr + size)
  {
    hide Chain, Stack, OnlyPage, SomeTouches, Canon, Covers, PushWords;
    if addr % 4096 == 0 && size == 4096 {
      r := list.Push(mem, addr);
    } else {
      if size == 0 || addr + (size - 1) > MAX { return Panicked; }
      r := phys.Insert(Range(addr, addr + (size - 1)));
    }
  }

  predicate RegionOk(region: Option<Range>) { region.Some? ==> region.value.start <= MAX && region.value.end <= MAX }

  lemma BatchBlock(s: seq<Range>, region: Option<Range>, c: Choice)
    requires Settled(s, BatchRequest(region), c)
    ensures c.ptr % 4096 == 0 && c.end == c.ptr + BATCH - 1 && c.end <= MAX
  {
  }

  lemma SettledEnd(s: seq<Range>, region: Option<Range>, c: Choice)
    requires Settled(s, BatchRequest(region), c)
    ensures c.end <= MAX
  {
  }

  /** The first page of a block that stays on the list. */
  function First(alc: nat): nat { if alc == 0 then 4096 else alc }

  /** How many pages of the first `n` stay. */
  function Kept(alc: nat, n: nat): nat { if alc == 0 && n > 0 then n - 1 else n }

  /** A refill after `n` pages: those that stay are on the list, in slots of the first one. */
  ghost predicate Filling(m: Words, head: nat, pages: seq<nat>, alc: nat, n: nat) {
    && pages == Batch(First(alc), Kept(alc, n))
    && (Kept(alc, n) == 0 ==> head == 0)
    && (Kept(alc, n) > 0 ==> head == First(alc) && FreeSlots(m, head) == SLOTS + 1 - Kept(alc, n))
    && (n > 0 ==> alc + 4096 <= WINDOW)
  }

  lemma FillStart(m: Words, head: nat, alc: nat)
    requires head == 0
    ensures Filling(m, head, [], alc, 0)
  {
  }

  lemma FillNext(m: Words, head: nat, pages: seq<nat>, alc: nat, n: nat)
    requires Filling(m, head, pages, alc, n) && alc % 4096 == 0 && n < 256
    ensures var page := alc + 4096 * n;
            && page % 4096 == 0 && page !in pages
            && (page + 4096 > WINDOW && NewNode(m, head) ==> n == 0 && alc + 4096 > WINDOW)
            && (n == 0 ==> NewNode(m, head))
            && (!(page + 4096 > WINDOW && NewNode(m, head)) ==>
                  Filling(PushWords(m, head, page), PushHead(m, head, page),
                          if Loses(m, head, page) then [] else [page] + pages, alc, n + 1))
  {
    BatchNew(First(alc), Kept(alc, n));
    PushSlots(m, head, alc + 4096 * n);
    hide PushWords, FreeSlots;
  }

  lemma FillEnd(m: Words, head: nat, pages: seq<nat>, alc: nat, n: nat)
    requires Filling(m, head, pages, alc, n) && (if alc + BATCH > MAX then n == 0 else n == 256)
    ensures pages == Refilled(alc) && (head == 0 <==> alc + BATCH > MAX)
    ensures alc + BATCH > MAX || alc + 4096 <= WINDOW
  {
    hide FreeSlots;
    if n == 0 { BatchPages(First(alc), 0); }
  }

  lemma WrappedEnd(alc: nat)
    requires alc % 4096 == 0 && alc + BATCH <= MAX + 1
    ensures (alc + BATCH) % (MAX + 1) == if alc + BATCH > MAX then 0 else alc + BATCH
  {
  }

  /** Slots left after a push. */
  lemma PushSlots(m: Words, head: nat, page: nat)
    requires NewNode(m, head) || FreeSlots(m, head) <= SLOTS
    ensures FreeSlots(PushWords(m, head, page), PushHead(m, head, page)) ==
              if NewNode(m, head) then SLOTS else FreeSlots(m, head) - 1
  {
    if NewNode(m, head) { LinkedWords(m, page, head); } else { FilledWords(m, head, page); }
  }
}
