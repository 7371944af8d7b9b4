/** Who owns each byte of physical memory while any number of cores allocate, free and write. */
module Ownership {
  import opened Basics
  import opened Ranges
  import opened Allocation
  import opened FreeLists

  datatype Owner = InSet | OnList(core: nat, page: nat) | InBatch(core: nat) | Live(block: Range) | Lost

  /** The shared set, memory itself, each core's free list, the part of a refill a core has
      not pushed yet, the blocks handed out, and alignment padding. */
  datatype State = State(
    free: seq<Range>, words: Words, heads: map<nat, nat>, nodes: map<nat, seq<nat>>,
    batches: map<nat, Range>, live: set<Range>, lost: set<nat>)

  ghost function ListOf(s: State, core: nat): seq<nat>
    requires core in s.nodes
  {
    Stack(s.words, s.nodes[core])
  }

  predicate InPage(p: nat, x: nat) { p <= x < p + 4096 }

  ghost predicate Owns(s: State, o: Owner, x: nat) {
    match o
    case InSet => Covers(s.free, x)
    case OnList(c, p) => c in s.nodes && p in ListOf(s, c) && InPage(p, x)
    case InBatch(c) => c in s.batches && In(s.batches[c], x)
    case Live(b) => b in s.live && In(b, x)
    case Lost => x in s.lost
  }

  /** Every byte of the initial free memory has exactly one owner, and no other byte has any. */
  ghost predicate Partition(s: State, init: seq<Range>) {
    && (forall o, x: nat :: Owns(s, o, x) ==> Covers(init, x))
    && (forall x: nat :: Covers(init, x) ==> exists o :: Owns(s, o, x))
    && (forall o, o', x: nat :: Owns(s, o, x) && Owns(s, o', x) ==> o == o')
  }

  /** A core's list is a well-formed chain of distinct pages. */
  ghost predicate ListOk(s: State, c: nat)
    requires c in s.nodes && c in s.heads
  {
    Chain(s.words, s.heads[c], s.nodes[c]) && Distinct(ListOf(s, c)) && forall p :: p in ListOf(s, c) ==> PageOk(p)
  }

  predicate BatchOk(r: Range) { r.start < r.end && r.start % 4096 == 0 && (r.end + 1) % 4096 == 0 }

  ghost predicate Shape(s: State) {
    && Canon(s.free) && s.heads.Keys == s.nodes.Keys && s.batches.Keys <= s.heads.Keys
    && (forall c :: c in s.nodes ==> ListOk(s, c))
    && (forall c :: c in s.batches ==> BatchOk(s.batches[c]))
    && (forall b :: b in s.live ==> b.start <= b.end)
  }

  /** The initial free memory holds neither address zero, since the first MiB is taken out at
      boot, nor the very last address. */
  ghost predicate SetOk(s: seq<Range>) { forall x: nat :: Covers(s, x) ==> 0 < x < MAX }

  ghost predicate Inv(s: State, init: seq<Range>) { Shape(s) && Partition(s, init) }

  // ----- the steps -----

  /** Bytes leave the shared set: padding is lost, the block goes to the caller. */
  ghost predicate TakesFromSet(free: seq<Range>, free': seq<Range>, q: Request, ch: Choice) {
    && q.size > 0 && q.align > 0 && Settled(free, q, ch) && Canon(free')
    && (forall x: nat :: Covers(free', x) <==> Covers(free, x) && !(ch.base <= x <= ch.end))
  }

  predicate Pad(ch: Choice, x: nat) { ch.base <= x < ch.ptr }

  ghost function Padding(ch: Choice): set<nat> { set x: nat | x < ch.ptr && Pad(ch, x) }

  datatype Step =
    | AllocBlock(free': seq<Range>, q: Request, ch: Choice)
    | StartRefill(core: nat, free': seq<Range>, region: Option<Range>, ch: Choice)
    | PushRefill(core: nat)
    | PopPage(core: nat)
    | FreePage(core: nat, addr: nat)
    | FreeBlock(block: Range, free': seq<Range>)
    | SplitBlock(block: Range, at: nat)
    | WriteWord(block: Range, addr: nat, value: nat)

  ghost function Pushed(s: State, c: nat, page: nat): State
    requires c in s.heads && c in s.nodes
  {
    s.(words := PushWords(s.words, s.heads[c], page),
       heads := s.heads[c := PushHead(s.words, s.heads[c], page)],
       nodes := s.nodes[c := PushNodes(s.words, s.heads[c], s.nodes[c], page)])
  }

  ghost function Taken(s: State, c: nat): State
    requires c in s.heads && c in s.nodes
  {
    s.(words := TakeWords(s.words, s.heads[c]),
       heads := s.heads[c := TakeHead(s.words, s.heads[c])],
       nodes := s.nodes[c := TakeNodes(s.words, s.heads[c], s.nodes[c])])
  }

  /** The page can be pushed without a panic. */
  ghost predicate CanPush(s: State, c: nat, page: nat)
    requires c in s.heads
  {
    NewNode(s.words, s.heads[c]) ==> page + 4096 <= WINDOW
  }

  function PageBlock(page: nat): Range { Range(page, page + 4095) }

  /** When a step can happen. Callers free, split and write only blocks they own; a core in
      the middle of a refill does nothing else with its list. */
  ghost predicate Enabled(s: State, e: Step) {
    match e
    case AllocBlock(free', q, ch) =>
      !(q.size == 4096 <= q.align) && TakesFromSet(s.free, free', q, ch)
    case StartRefill(c, free', region, ch) =>
      && c in s.heads && c in s.nodes && c !in s.batches && s.heads[c] == 0
      && TakesFromSet(s.free, free', Request(BATCH, 4096, region, MAX), ch)
    case PushRefill(c) =>
      c in s.heads && c in s.nodes && c in s.batches && CanPush(s, c, s.batches[c].start)
    case PopPage(c) =>
      c in s.heads && c in s.nodes && c !in s.batches && s.heads[c] != 0
    case FreePage(c, addr) =>
      && c in s.heads && c in s.nodes && c !in s.batches && addr % 4096 == 0 && CanPush(s, c, addr)
      && PageBlock(addr) in s.live
    case FreeBlock(b, free') =>
      && b in s.live && !(b.end == b.start + 4095 && b.start % 4096 == 0)
      && Canon(free') && forall x: nat :: Covers(free', x) <==> Covers(s.free, x) || In(b, x)
    case SplitBlock(b, at) => b in s.live && b.start < at <= b.end
    case WriteWord(b, a, v) => b in s.live && In(b, a) && In(b, a + 7) && a % 8 == 0
  }

  ghost function After(s: State, e: Step): State
    requires Enabled(s, e)
  {
    match e
    case AllocBlock(free', q, ch) =>
      s.(free := free', live := s.live + {Range(ch.ptr, ch.end)}, lost := s.lost + Padding(ch))
    case StartRefill(c, free', region, ch) =>
      s.(free := free', batches := s.batches[c := Range(ch.ptr, ch.end)], lost := s.lost + Padding(ch))
    case PushRefill(c) =>
      var r := s.batches[c];
      Pushed(s, c, r.start).(
        batches := if r.start + 4096 > r.end then s.batches - {c} else s.batches[c := Range(r.start + 4096, r.end)])
    case PopPage(c) =>
      Taken(s, c).(live := s.live + {PageBlock(TakePage(s.words, s.heads[c]))})
    case FreePage(c, addr) => Pushed(s, c, addr).(live := s.live - {PageBlock(addr)})
    case FreeBlock(b, free') => s.(free := free', live := s.live - {b})
    case SplitBlock(b, at) => s.(live := s.live - {b} + {Range(b.start, at - 1), Range(at, b.end)})
    case WriteWord(b, a, v) => s.(words := s.words[a := v])
  }

  // ----- moving bytes between owners -----

  /** The bytes from `base` to `end` leave `src`; those below `ptr` go to `low`, the others to
      `high`. Nothing else changes hands. */
  ghost predicate Moved(s: State, s': State, src: Owner, low: Owner, high: Owner, c: Choice) {
    && (forall x: nat :: c.base <= x <= c.end ==> Owns(s, src, x))
    && (forall o, x: nat :: Owns(s', o, x) <==>
          || (Owns(s, o, x) && !(o == src && c.base <= x <= c.end))
          || (o == low && c.base <= x < c.ptr) || (o == high && c.ptr <= x <= c.end))
  }

  /** Page `page` goes from `src` to `dst`, whole. */
  ghost predicate PageMoved(s: State, s': State, src: Owner, dst: Owner, page: nat) {
    Moved(s, s', src, Lost, dst, Choice(page, page + 4095, page))
  }

  /** Core `c` has `page` on top of the list it had. */
  ghost predicate ListGrown(s: State, s': State, c: nat, page: nat) {
    c in s.nodes && c in s'.nodes && ListOf(s', c) == [page] + ListOf(s, c)
  }

  /** Who gets which bytes from whom at a step. */
  ghost predicate Moves(s: State, e: Step, s': State) {
    match e
    case AllocBlock(_, _, ch) => Moved(s, s', InSet, Lost, Live(Range(ch.ptr, ch.end)), ch)
    case StartRefill(c, _, _, ch) => Moved(s, s', InSet, Lost, InBatch(c), ch)
    case PushRefill(c) =>
      && c in s.batches && PageMoved(s, s', InBatch(c), OnList(c, s.batches[c].start), s.batches[c].start)
      && ListGrown(s, s', c, s.batches[c].start)
    case PopPage(c) =>
      exists page :: ListGrown(s', s, c, page) && PageMoved(s, s', OnList(c, page), Live(PageBlock(page)), page)
    case FreePage(c, addr) =>
      PageMoved(s, s', Live(PageBlock(addr)), OnList(c, addr), addr) && ListGrown(s, s', c, addr)
    case FreeBlock(b, _) => Moved(s, s', Live(b), Lost, InSet, Choice(b.start, b.end, b.start))
    case SplitBlock(b, at) =>
      b.start < at <= b.end && Moved(s, s', Live(b), Live(Range(b.start, at - 1)), Live(Range(at, b.end)), Choice(b.start, b.end, at))
    case WriteWord(_, a, v) =>
      && (forall o, x: nat :: Owns(s', o, x) == Owns(s, o, x))
      && Word(s'.words, a) == v && (forall x: nat {:trigger Word(s'.words, x)} :: x != a ==> Word(s'.words, x) == Word(s.words, x))
  }

  lemma MovedPartition(s: State, s': State, init: seq<Range>, src: Owner, low: Owner, high: Owner, c: Choice)
    requires Partition(s, init) && c.base <= c.ptr <= c.end && Moved(s, s', src, low, high, c)
    ensures Partition(s', init)
  {
    hide Owns, Covers;
    forall x: nat | Covers(init, x)
      ensures exists o :: Owns(s', o, x)
    {
      var o :| Owns(s, o, x);
      if o == src && c.base <= x <= c.end {
        assert Owns(s', if x < c.ptr then low else high, x);
      } else {
        assert Owns(s', o, x);
      }
    }
    forall o, x: nat | Owns(s', o, x)
      ensures Covers(init, x)
    {
      assert Owns(s, o, x) || Owns(s, src, x);
    }
    forall o, o', x: nat | Owns(s', o, x) && Owns(s', o', x)
      ensures o == o'
    {
      if c.base <= x <= c.end {
        assert Owns(s, src, x);
      }
    }
  }

  /** A page some other owner holds is on no list. */
  lemma NotOnList(s: State, init: seq<Range>, o: Owner, c: nat, p: nat)
    requires Partition(s, init) && Owns(s, o, p) && o != OnList(c, p) && c in s.nodes
    ensures p !in ListOf(s, c)
  {
    assert InPage(p, p);
    assert p in ListOf(s, c) ==> Owns(s, OnList(c, p), p);
  }

  /** Lists that do not hold the page written are as before. */
  lemma ListKept(s: State, s': State, c: nat, p: nat)
    requires c in s.nodes && c in s.heads && ListOk(s, c) && OnlyPage(s.words, s'.words, p) && p % 4096 == 0
    requires c in s'.nodes && c in s'.heads && s'.nodes[c] == s.nodes[c] && s'.heads[c] == s.heads[c]
    requires p !in ListOf(s, c)
    ensures ListOk(s', c) && ListOf(s', c) == ListOf(s, c)
  {
    hide Chain, Stack, OnlyPage;
    NotANode(s.words, s.nodes[c], p);
    ChainKept(s.words, s'.words, p, s.heads[c], s.nodes[c]);
  }

  /** A page that `o` holds pushed on the list of core `c`. */
  lemma PushedLists(s: State, init: seq<Range>, o: Owner, c: nat, page: nat)
    requires Shape(s) && Partition(s, init) && c in s.heads && CanPush(s, c, page)
    requires Owns(s, o, page) && !o.OnList? && PageOk(page)
    ensures var s' := Pushed(s, c, page);
            && (forall k :: k in s.nodes ==> ListOk(s', k))
            && ListOf(s', c) == [page] + ListOf(s, c)
            && (forall k :: k in s.nodes && k != c ==> ListOf(s', k) == ListOf(s, k))
  {
    hide Chain, Stack, OnlyPage, PushWords, PushNodes, Owns, Partition;
    var s' := Pushed(s, c, page);
    NotOnList(s, init, o, c, page);
    assert ListOk(s, c);
    ChainHead(s.words, s.heads[c], s.nodes[c]);
    Pushes(s.words, s.heads[c], s.nodes[c], page);
    var w := PushHead(s.words, s.heads[c], page);
    forall k | k in s.nodes && k != c
      ensures ListOk(s', k) && ListOf(s', k) == ListOf(s, k)
    {
      assert ListOk(s, k);
      if w == page {
        NotOnList(s, init, o, k, page);
      } else {
        ListHolds(s, c, w);
        NotOnList(s, init, OnList(c, w), k, w);
      }
      ListKept(s, s', k, w);
    }
  }

  lemma ListHolds(s: State, c: nat, p: nat)
    requires c in s.nodes && p in ListOf(s, c)
    ensures Owns(s, OnList(c, p), p)
  {
    assert InPage(p, p);
  }

  /** The page on top of the list of core `c` taken off. */
  lemma TakenLists(s: State, init: seq<Range>, c: nat)
    requires Shape(s) && Partition(s, init) && c in s.heads && s.heads[c] != 0
    ensures var s' := Taken(s, c);
            && (forall k :: k in s.nodes ==> ListOk(s', k))
            && ListOf(s, c) == [TakePage(s.words, s.heads[c])] + ListOf(s', c)
            && (forall k :: k in s.nodes && k != c ==> ListOf(s', k) == ListOf(s, k))
  {
    hide Chain, Stack, OnlyPage, TakeWords, TakeNodes, TakePage, TakeHead, Owns, Partition;
    var s', w := Taken(s, c), s.heads[c];
    assert ListOk(s, c);
    ChainHead(s.words, w, s.nodes[c]);
    Takes(s.words, w, s.nodes[c]);
    assert forall i :: 0 <= i < |ListOf(s', c)| ==> ListOf(s', c)[i] == ListOf(s, c)[i + 1];
    forall k | k in s.nodes && k != c
      ensures ListOk(s', k) && ListOf(s', k) == ListOf(s, k)
    {
      assert ListOk(s, k);
      ListHolds(s, c, w);
      NotOnList(s, init, OnList(c, w), k, w);
      ListKept(s, s', k, w);
    }
  }

  // ----- every step keeps the invariant -----

  lemma SetTaken(s: State, s': State, init: seq<Range>, q: Request, ch: Choice, high: Owner)
    requires Partition(s, init) && TakesFromSet(s.free, s'.free, q, ch)
    requires s'.lost == s.lost + Padding(ch) && high != InSet && high != Lost
    requires forall o, x: nat :: o != InSet && o != Lost ==>
               (Owns(s', o, x) <==> Owns(s, o, x) || (o == high && ch.ptr <= x <= ch.end))
    ensures Partition(s', init) && ch.base <= ch.ptr <= ch.end && Moved(s, s', InSet, Lost, high, ch)
  {
    hide Covers, Canon;
    forall x: nat | ch.base <= x <= ch.end
      ensures Owns(s, InSet, x)
    {
      SoundCovered(s.free, q, ch, x);
    }
    forall x: nat
      ensures Owns(s', InSet, x) <==> Owns(s, InSet, x) && !(ch.base <= x <= ch.end)
      ensures Owns(s', Lost, x) <==> Owns(s, Lost, x) || ch.base <= x < ch.ptr
    {
    }
    hide Owns, Partition;
    assert Moved(s, s', InSet, Lost, high, ch);
    MovedPartition(s, s', init, InSet, Lost, high, ch);
  }

  lemma AllocBlockKeeps(s: State, init: seq<Range>, e: Step)
    requires Inv(s, init) && e.AllocBlock? && Enabled(s, e)
    ensures Inv(After(s, e), init) && Moves(s, e, After(s, e))
  {
    hide Covers, Canon, Settled, Chain, Stack;
    var s' := After(s, e);
    SetTaken(s, s', init, e.q, e.ch, Live(Range(e.ch.ptr, e.ch.end)));
    assert forall c :: c in s.nodes ==> ListOk(s, c) ==> ListOk(s', c);
  }

  lemma WholePages(free: seq<Range>, region: Option<Range>, ch: Choice)
    requires Settled(free, Request(BATCH, 4096, region, MAX), ch)
    ensures BatchOk(Range(ch.ptr, ch.end))
  {
    hide Covers, RegionHit, Usable, Need;
    var p := ch.ptr / 4096;
    assert ch.ptr == 4096 * p && ch.end + 1 == 4096 * (p + 256);
  }

  lemma StartRefillKeeps(s: State, init: seq<Range>, e: Step)
    requires Inv(s, init) && e.StartRefill? && Enabled(s, e)
    ensures Inv(After(s, e), init) && Moves(s, e, After(s, e))
  {
    hide Covers, Canon, Chain, Stack, Settled, BatchOk;
    var s' := After(s, e);
    WholePages(s.free, e.region, e.ch);
    SetTaken(s, s', init, Request(BATCH, 4096, e.region, MAX), e.ch, InBatch(e.core));
    assert forall c :: c in s.nodes ==> ListOk(s, c) ==> ListOk(s', c);
  }

  /** The bytes owned through lists after a page was added to one. */
  lemma ListGains(s: State, s': State, c: nat, page: nat)
    requires s'.nodes.Keys == s.nodes.Keys && c in s.nodes && ListOf(s', c) == [page] + ListOf(s, c)
    requires forall k :: k in s.nodes && k != c ==> ListOf(s', k) == ListOf(s, k)
    ensures forall k, p, x: nat :: Owns(s', OnList(k, p), x) <==>
              Owns(s, OnList(k, p), x) || (OnList(k, p) == OnList(c, page) && page <= x <= page + 4095)
  {
    hide ListOf, Covers;
  }

  /** A page of one owner's bytes that goes to a list. */
  lemma PushMoves(s: State, s': State, init: seq<Range>, src: Owner, c: nat, page: nat)
    requires Partition(s, init) && !src.OnList?
    requires forall x: nat :: page <= x <= page + 4095 ==> Owns(s, src, x)
    requires forall k, p, x: nat :: Owns(s', OnList(k, p), x) <==>
               Owns(s, OnList(k, p), x) || (OnList(k, p) == OnList(c, page) && page <= x <= page + 4095)
    requires forall o: Owner, x: nat :: !o.OnList? ==>
               (Owns(s', o, x) <==> Owns(s, o, x) && !(o == src && page <= x <= page + 4095))
    ensures Partition(s', init) && PageMoved(s, s', src, OnList(c, page), page)
  {
    hide Owns, Partition;
    var ch := Choice(page, page + 4095, page);
    forall o: Owner, x: nat
      ensures Owns(s', o, x) <==>
                || (Owns(s, o, x) && !(o == src && ch.base <= x <= ch.end))
                || (o == Lost && ch.base <= x < ch.ptr) || (o == OnList(c, page) && ch.ptr <= x <= ch.end)
    {
      match o
      case OnList(k, p) =>
        assert Owns(s', OnList(k, p), x) <==>
                 Owns(s, OnList(k, p), x) || (o == OnList(c, page) && page <= x <= page + 4095);
      case _ =>
    }
    MovedPartition(s, s', init, src, Lost, OnList(c, page), ch);
  }

  lemma PushRefillKeeps(s: State, init: seq<Range>, c: nat)
    requires Inv(s, init) && SetOk(init) && Enabled(s, PushRefill(c))
    ensures Inv(After(s, PushRefill(c)), init) && Moves(s, PushRefill(c), After(s, PushRefill(c)))
  {
    hide Covers, Canon, Chain, Stack, Pushed;
    var s', r := After(s, PushRefill(c)), s.batches[c];
    BatchRest(r);
    assert Owns(s, InBatch(c), r.start);
    PushedLists(s, init, InBatch(c), c, r.start);
    PushedState(s, s', c, r.start);
    ListGains(s, s', c, r.start);
    hide ListOf, ListOk;
    PushMoves(s, s', init, InBatch(c), c, r.start);
  }

  /** What is left of a refill after one page. */
  lemma BatchRest(r: Range)
    requires BatchOk(r)
    ensures r.start + 4095 <= r.end
    ensures r.start + 4096 > r.end ==> r.end == r.start + 4095
    ensures r.start + 4096 <= r.end ==> BatchOk(Range(r.start + 4096, r.end))
  {
  }

  lemma PushedState(s: State, s': State, c: nat, page: nat)
    requires c in s.heads && c in s.nodes && s.heads.Keys == s.nodes.Keys
    requires s' == Pushed(s, c, page).(batches := s'.batches, live := s'.live)
    ensures s'.free == s.free && s'.lost == s.lost && s'.heads.Keys == s'.nodes.Keys == s.nodes.Keys
    ensures Pushed(s, c, page).live == s.live && Pushed(s, c, page).batches == s.batches
    ensures forall k :: k in s.nodes ==> ListOf(s', k) == ListOf(Pushed(s, c, page), k)
    ensures forall k :: k in s.nodes && ListOk(Pushed(s, c, page), k) ==> ListOk(s', k)
  {
    hide Chain, Stack, PushWords, PushHead, PushNodes;
  }

  /** A page that leaves a list and becomes a block of its own. */
  lemma PopMoves(s: State, s': State, init: seq<Range>, c: nat, page: nat)
    requires Partition(s, init) && s'.free == s.free && s'.batches == s.batches && s'.lost == s.lost
    requires s'.live == s.live + {PageBlock(page)}
    requires forall k, p, x: nat :: Owns(s', OnList(k, p), x) <==> Owns(s, OnList(k, p), x) && OnList(k, p) != OnList(c, page)
    requires forall x: nat :: Owns(s, OnList(c, page), x) <==> page <= x <= page + 4095
    ensures Partition(s', init) && PageMoved(s, s', OnList(c, page), Live(PageBlock(page)), page)
  {
    var ch := Choice(page, page + 4095, page);
    forall o: Owner, x: nat | !o.OnList?
      ensures Owns(s', o, x) <==> Owns(s, o, x) || (o == Live(PageBlock(page)) && page <= x <= page + 4095)
    {
    }
    hide Owns, Partition;
    forall o: Owner, x: nat
      ensures Owns(s', o, x) <==>
                || (Owns(s, o, x) && !(o == OnList(c, page) && ch.base <= x <= ch.end))
                || (o == Lost && ch.base <= x < ch.ptr) || (o == Live(PageBlock(page)) && ch.ptr <= x <= ch.end)
    {
      match o
      case OnList(k, p) =>
        assert Owns(s', OnList(k, p), x) <==> Owns(s, OnList(k, p), x) && o != OnList(c, page);
      case _ =>
    }
    MovedPartition(s, s', init, OnList(c, page), Lost, Live(PageBlock(page)), ch);
  }

  lemma PopPageKeeps(s: State, init: seq<Range>, c: nat)
    requires Inv(s, init) && SetOk(init) && Enabled(s, PopPage(c))
    ensures Inv(After(s, PopPage(c)), init) && Moves(s, PopPage(c), After(s, PopPage(c)))
  {
    hide Covers, Canon, Chain, Stack, TakeWords, TakeHead, TakeNodes, TakePage;
    var s', page := After(s, PopPage(c)), TakePage(s.words, s.heads[c]);
    TakenLists(s, init, c);
    assert ListOk(s, c);
    ListLoses(s, s', c, page);
    hide ListOf, ListOk;
    PopMoves(s, s', init, c, page);
  }

  /** The bytes owned through lists after the page on top of one was taken. */
  lemma ListLoses(s: State, s': State, c: nat, page: nat)
    requires s'.nodes.Keys == s.nodes.Keys && c in s.nodes && ListOf(s, c) == [page] + ListOf(s', c) && Distinct(ListOf(s, c))
    requires forall k :: k in s.nodes && k != c ==> ListOf(s', k) == ListOf(s, k)
    ensures forall k, p, x: nat :: Owns(s', OnList(k, p), x) <==> Owns(s, OnList(k, p), x) && OnList(k, p) != OnList(c, page)
    ensures forall x: nat :: Owns(s, OnList(c, page), x) <==> page <= x <= page + 4095
  {
    hide Covers, Stack;
    assert forall i :: 0 <= i < |ListOf(s', c)| ==> ListOf(s', c)[i] == ListOf(s, c)[i + 1];
    assert ListOf(s, c)[0] == page;
    assert page !in ListOf(s', c);
  }

  lemma FreePageKeeps(s: State, init: seq<Range>, c: nat, addr: nat)
    requires Inv(s, init) && SetOk(init) && Enabled(s, FreePage(c, addr))
    ensures Inv(After(s, FreePage(c, addr)), init) && Moves(s, FreePage(c, addr), After(s, FreePage(c, addr)))
  {
    hide Covers, Canon, Chain, Stack, Pushed;
    var s', b := After(s, FreePage(c, addr)), PageBlock(addr);
    assert Owns(s, Live(b), addr);
    PushedLists(s, init, Live(b), c, addr);
    PushedState(s, s', c, addr);
    ListGains(s, s', c, addr);
    hide ListOf, ListOk;
    PushMoves(s, s', init, Live(b), c, addr);
  }

  lemma FreeBlockKeeps(s: State, init: seq<Range>, b: Range, free': seq<Range>)
    requires Inv(s, init) && Enabled(s, FreeBlock(b, free'))
    ensures Inv(After(s, FreeBlock(b, free')), init) && Moves(s, FreeBlock(b, free'), After(s, FreeBlock(b, free')))
  {
    hide Covers, Canon, Chain, Stack;
    var s' := After(s, FreeBlock(b, free'));
    var ch := Choice(b.start, b.end, b.start);
    assert Moved(s, s', Live(b), Lost, InSet, ch);
    MovedPartition(s, s', init, Live(b), Lost, InSet, ch);
    assert forall c :: c in s.nodes ==> ListOk(s, c) ==> ListOk(s', c);
  }

  lemma SplitBlockKeeps(s: State, init: seq<Range>, b: Range, at: nat)
    requires Inv(s, init) && Enabled(s, SplitBlock(b, at))
    ensures Inv(After(s, SplitBlock(b, at)), init) && Moves(s, SplitBlock(b, at), After(s, SplitBlock(b, at)))
  {
    hide Covers, Canon, Chain, Stack;
    var s' := After(s, SplitBlock(b, at));
    var ch, low, high := Choice(b.start, b.end, at), Range(b.start, at - 1), Range(at, b.end);
    assert Moved(s, s', Live(b), Live(low), Live(high), ch);
    MovedPartition(s, s', init, Live(b), Live(low), Live(high), ch);
    assert forall c :: c in s.nodes ==> ListOk(s, c) ==> ListOk(s', c);
  }

  ghost predicate SameLists(s: State, s': State) {
    s'.nodes == s.nodes && forall c :: c in s.nodes ==> ListOf(s', c) == ListOf(s, c)
  }

  /** Whoever writes in their own block leaves every free list alone. */
  lemma WriteWordKeeps(s: State, init: seq<Range>, b: Range, a: nat, v: nat)
    requires Inv(s, init) && Enabled(s, WriteWord(b, a, v))
    ensures Inv(After(s, WriteWord(b, a, v)), init) && Moves(s, WriteWord(b, a, v), After(s, WriteWord(b, a, v)))
    ensures SameLists(s, After(s, WriteWord(b, a, v)))
  {
    hide Covers, Canon, Chain, Stack;
    var s' := After(s, WriteWord(b, a, v));
    var p: nat := a - a % 4096;
    assert OnlyPage(s.words, s'.words, p);
    hide OnlyPage;
    assert Owns(s, Live(b), a);
    forall c | c in s.nodes
      ensures ListOk(s', c) && ListOf(s', c) == ListOf(s, c)
    {
      assert ListOk(s, c);
      assert p in ListOf(s, c) ==> Owns(s, OnList(c, p), a);
      ListKept(s, s', c, p);
    }
    forall o, x: nat
      ensures Owns(s', o, x) == Owns(s, o, x)
    {
    }
    SamePartition(s, s', init);
  }

  lemma SamePartition(s: State, s': State, init: seq<Range>)
    requires Partition(s, init) && forall o, x: nat :: Owns(s', o, x) == Owns(s, o, x)
    ensures Partition(s', init)
  {
    hide Owns, Covers;
    forall x: nat | Covers(init, x)
      ensures exists o :: Owns(s', o, x)
    {
      var o :| Owns(s, o, x);
      assert Owns(s', o, x);
    }
  }

  lemma StepKeeps(s: State, init: seq<Range>, e: Step)
    requires Inv(s, init) && SetOk(init) && Enabled(s, e)
    ensures Inv(After(s, e), init) && Moves(s, e, After(s, e))
  {
    hide Inv, SetOk, Moves;
    match e
    case AllocBlock(_, _, _) => AllocBlockKeeps(s, init, e);
    case StartRefill(_, _, _, _) => StartRefillKeeps(s, init, e);
    case PushRefill(c) => PushRefillKeeps(s, init, c);
    case PopPage(c) => PopPageKeeps(s, init, c);
    case FreePage(c, addr) => FreePageKeeps(s, init, c, addr);
    case FreeBlock(b, free') => FreeBlockKeeps(s, init, b, free');
    case SplitBlock(b, at) => SplitBlockKeeps(s, init, b, at);
    case WriteWord(b, a, v) => WriteWordKeeps(s, init, b, a, v);
  }

  // ----- whole runs -----

  /** At the start all free memory is in the shared set and every list is empty. */
  ghost predicate Start(s: State, init: seq<Range>) {
    && s.free == init && Canon(init) && s.heads.Keys == s.nodes.Keys
    && (forall c :: c in s.nodes ==> s.heads[c] == 0 && s.nodes[c] == [])
    && s.batches == map[] && s.live == {} && s.lost == {}
  }

  /** The states a run of these steps goes through. */
  ghost predicate Run(s: State, steps: seq<Step>, t: State)
    decreases |steps|
  {
    if steps == [] then s == t else Enabled(s, steps[0]) && Run(After(s, steps[0]), steps[1..], t)
  }

  lemma StartInv(s: State, init: seq<Range>)
    requires Start(s, init)
    ensures Inv(s, init)
  {
    hide Covers, Canon;
    forall x: nat | Covers(init, x)
      ensures exists o :: Owns(s, o, x)
    {
      assert Owns(s, InSet, x);
    }
  }

  lemma {:induction false} RunKeeps(s: State, init: seq<Range>, steps: seq<Step>, t: State)
    requires Inv(s, init) && SetOk(init) && Run(s, steps, t)
    ensures Inv(t, init)
    decreases |steps|
  {
    hide Inv, SetOk, Enabled, After;
    if steps != [] {
      StepKeeps(s, init, steps[0]);
      RunKeeps(After(s, steps[0]), init, steps[1..], t);
    }
  }

  /** After any run by any number of cores each byte of the initial free memory has exactly
      one owner. */
  lemma OneOwner(s: State, init: seq<Range>, steps: seq<Step>, t: State, x: nat)
    requires Start(s, init) && SetOk(init) && Run(s, steps, t)
    ensures Covers(init, x) <==> exists o :: Owns(t, o, x)
    ensures forall o, o' :: Owns(t, o, x) && Owns(t, o', x) ==> o == o'
  {
    hide Owns, Covers, Run, Start, SetOk, Shape;
    StartInv(s, init);
    RunKeeps(s, init, steps, t);
  }

  /** Over every run each operation moves exactly the bytes it is about: an allocation takes its
      block and its padding from the set, a page handed out comes off the top of the list of its
      core and a page freed goes on top, a freed block goes to the set. */
  lemma StepMoves(s: State, init: seq<Range>, steps: seq<Step>, t: State, e: Step)
    requires Start(s, init) && SetOk(init) && Run(s, steps, t) && Enabled(t, e)
    ensures Moves(t, e, After(t, e))
  {
    hide Moves, Run, Start, SetOk, Inv, After, Enabled;
    StartInv(s, init);
    RunKeeps(s, init, steps, t);
    StepKeeps(t, init, e);
  }

  /** No two blocks handed out overlap, and none overlaps a page of a free list or an address
      of the shared set. */
  lemma LiveBlocksApart(s: State, init: seq<Range>, steps: seq<Step>, t: State)
    requires Start(s, init) && SetOk(init) && Run(s, steps, t)
    ensures forall b, b' :: b in t.live && b' in t.live && b != b' ==> !Meets(b, b')
    ensures forall b, c, p :: b in t.live && c in t.nodes && p in ListOf(t, c) ==> !Meets(b, PageBlock(p))
    ensures forall b, x: nat :: b in t.live && In(b, x) ==> !Covers(t.free, x)
  {
    StartInv(s, init);
    RunKeeps(s, init, steps, t);
    assert Partition(t, init) && forall b :: b in t.live ==> b.start <= b.end;
    hide Shape, Inv, Covers, Run, Start, SetOk, ListOf, Partition, Owns;
    forall b, b' | b in t.live && b' in t.live && b != b'
      ensures !Meets(b, b')
    {
      Separate(t, init, Live(b), b, Live(b'), b');
    }
    forall b, c, p | b in t.live && c in t.nodes && p in ListOf(t, c)
      ensures !Meets(b, PageBlock(p))
    {
      Separate(t, init, Live(b), b, OnList(c, p), PageBlock(p));
    }
    forall b, x: nat | b in t.live && In(b, x)
      ensures !Covers(t.free, x)
    {
      OutsideSet(t, init, b, x);
    }
  }

  /** Ranges wholly owned by different owners do not meet. */
  lemma Separate(t: State, init: seq<Range>, o: Owner, a: Range, o': Owner, b: Range)
    requires Partition(t, init) && o != o' && a.start <= a.end && b.start <= b.end
    requires o == Live(a) && a in t.live
    requires || (o' == Live(b) && b in t.live)
             || (o'.OnList? && o'.core in t.nodes && o'.page in ListOf(t, o'.core) && b == PageBlock(o'.page))
    ensures !Meets(a, b)
  {
    hide Covers, ListOf;
    var x := Max(a.start, b.start);
    assert Meets(a, b) ==> Owns(t, o, x) && Owns(t, o', x);
  }

  lemma OutsideSet(t: State, init: seq<Range>, b: Range, x: nat)
    requires Partition(t, init) && b in t.live && In(b, x)
    ensures !Covers(t.free, x)
  {
    hide Covers, ListOf;
    assert Owns(t, Live(b), x);
    assert Covers(t.free, x) ==> Owns(t, InSet, x);
  }
}
