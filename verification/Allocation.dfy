/** What a range list can offer an allocation, and what a good choice is. */
module Allocation {
  import opened Basics
  import opened Ranges
  import opened Alignment
  import opened RangeTheorems

  /** What an allocation asks for. `limit` is the largest address a `usize` can hold. */
  datatype Request = Request(size: nat, align: nat, region: Option<Range>, limit: nat)

  predicate ValidRequest(q: Request) {
    && 0 < q.size <= MAX && Ones(q.align) == 1 && 0 < q.align <= MAX && q.limit <= MAX
    && (q.region.Some? ==> q.region.value.start <= MAX && q.region.value.end <= MAX)
  }

  /** The preferred region, right way round. */
  function Region(q: Request): Range
    requires q.region.Some?
  {
    Ordered(q.region.value)
  }

  /** Offset from the start of a range to the last byte of the block placed in it. */
  function Need(e: Range, q: Request): nat
    requires q.size > 0 && q.align > 0
  {
    q.size - 1 + Fix(e.start, q.align)
  }

  /** The end of the block would not be a 64-bit number: the search gives up altogether. */
  predicate Overflows(e: Range, q: Request)
    requires q.size > 0 && q.align > 0
  {
    e.start + Need(e, q) > MAX
  }

  /** The block fits in the range and below the address limit. */
  predicate Fits(e: Range, q: Request)
    requires q.size > 0 && q.align > 0
  {
    e.start + Need(e, q) <= e.end && e.start + Need(e, q) <= q.limit
  }

  /** The part of the range inside the preferred region can hold the block; `at` is the
      first aligned address of that part. */
  predicate RegionFits(e: Range, q: Request)
    requires q.size > 0 && q.align > 0
  {
    && q.region.Some?
    && var o := Overlaps(e, q.region.value);
    && o.Some?
    && var at := AlignUp(o.value.start, q.align);
    && at >= o.value.start && at <= o.value.end && o.value.end - at >= q.size - 1
  }

  /** Bytes removed from the list: padding from `base`, the block from `ptr` to `end`. */
  datatype Choice = Choice(base: nat, end: nat, ptr: nat)

  ghost predicate InRegion(c: Choice, q: Request) {
    q.region.Some? && Region(q).start <= c.ptr && c.end <= Region(q).end && c.base == c.ptr
  }

  /** `c` takes an aligned block of the right size, with less than one step of padding, out
      of one range of the list. */
  ghost predicate Sound(s: seq<Range>, q: Request, c: Choice) {
    && q.align > 0 && c.base <= c.ptr && c.ptr - c.base < q.align && c.ptr % q.align == 0
    && c.end == c.ptr + q.size - 1 && c.end <= q.limit
    && (exists i :: 0 <= i < |s| && s[i].start <= c.base && c.end <= s[i].end)
  }

  /** A sound choice takes covered addresses only. */
  lemma SoundCovered(s: seq<Range>, q: Request, c: Choice, x: nat)
    requires Sound(s, q, c) && c.base <= x <= c.end
    ensures Covers(s, x)
  {
    var i :| 0 <= i < |s| && s[i].start <= c.base && c.end <= s[i].end;
    assert In(s[i], x);
  }

  /** The region test is right: it succeeds exactly when some aligned block lies in both the
      range and the region. */
  lemma RegionTest(e: Range, q: Request)
    requires ValidRequest(q) && Shaped(e) && q.region.Some?
    ensures RegionFits(e, q) <==> exists p: nat :: BlockInside(e, q, p)
  {
    hide RegionFits, BlockInside, Ones, Fix;
    if RegionFits(e, q) { RegionBlock(e, q); }
    if p: nat :| BlockInside(e, q, p) { BlockFound(e, q, p); }
  }

  lemma RegionBlock(e: Range, q: Request)
    requires ValidRequest(q) && Shaped(e) && RegionFits(e, q)
    ensures q.region.Some? && Overlaps(e, q.region.value).Some?
    ensures BlockInside(e, q, AlignUp(Overlaps(e, q.region.value).value.start, q.align))
  {
    hide AlignUp, Fix, Ones;
    var o := Overlaps(e, q.region.value).value;
    OverlapMeaning(e, Region(q));
    AlignUpMeaning(o.start, q.align);
    FixMeaning(o.start, q.align);
  }

  lemma BlockFound(e: Range, q: Request, p: nat)
    requires ValidRequest(q) && Shaped(e) && q.region.Some? && BlockInside(e, q, p)
    ensures RegionFits(e, q)
  {
    hide AlignUp, Fix, Ones;
    OverlapMeaning(e, Region(q));
    var o := Overlaps(e, q.region.value).value;
    AlignUpMeaning(o.start, q.align);
    NextAligned(o.start, q.align, p);
  }

  ghost predicate BlockInside(e: Range, q: Request, p: nat)
    requires q.align > 0 && q.size > 0
  {
    && p % q.align == 0 && q.region.Some?
    && e.start <= p && p + (q.size - 1) <= e.end
    && Region(q).start <= p && p + (q.size - 1) <= Region(q).end
  }

  /** An aligned block anywhere in a range means the block right after the padding fits. */
  lemma InsideFits(e: Range, q: Request, p: nat)
    requires ValidRequest(q) && Shaped(e) && e.start <= p && p % q.align == 0 && p + (q.size - 1) <= e.end
    ensures e.start + Need(e, q) <= p + (q.size - 1) && !Overflows(e, q)
  {
    NextAligned(e.start, q.align, p);
  }

  lemma FitIsSound(s: seq<Range>, q: Request, i: nat)
    requires ValidRequest(q) && i < |s| && Fits(s[i], q)
    ensures Sound(s, q, Choice(s[i].start, s[i].start + Need(s[i], q), s[i].start + Fix(s[i].start, q.align)))
  {
    FixMeaning(s[i].start, q.align);
  }

  lemma RegionIsSound(s: seq<Range>, q: Request, i: nat, at: nat)
    requires ValidRequest(q) && i < |s| && BlockInside(s[i], q, at) && at + (q.size - 1) <= q.limit
    ensures Sound(s, q, Choice(at, at + (q.size - 1), at)) && InRegion(Choice(at, at + (q.size - 1), at), q)
  {
  }

  // ----- the search -----

  /** The block in the region that a range can offer. */
  function RegionAt(e: Range, q: Request): nat
    requires q.size > 0 && q.align > 0 && RegionFits(e, q)
  {
    AlignUp(Overlaps(e, q.region.value).value.start, q.align)
  }

  /** The search stops at this range: its part of the region can hold the block. */
  predicate RegionHit(e: Range, q: Request)
    requires q.size > 0 && q.align > 0
  {
    Fits(e, q) && RegionFits(e, q) && RegionAt(e, q) + (q.size - 1) <= q.limit
  }

  /** The search can use this range: the block fits, and if its part of the region can hold
      the block then below the address limit. */
  predicate Usable(e: Range, q: Request)
    requires q.size > 0 && q.align > 0
  {
    Fits(e, q) && (RegionFits(e, q) ==> RegionAt(e, q) + (q.size - 1) <= q.limit)
  }

  /** The best candidate among the first `n` ranges, none of which overflowed and none of
      which could serve the region: the first with the least padding. */
  ghost predicate BestOf(s: seq<Range>, q: Request, n: nat, best: Option<Choice>)
    requires q.size > 0 && q.align > 0 && n <= |s|
  {
    && (forall k :: 0 <= k < n ==> !Overflows(s[k], q) && !RegionHit(s[k], q))
    && (best.None? <==> forall k :: 0 <= k < n ==> !Usable(s[k], q))
    && (best.Some? ==> Sound(s, q, best.value))
    && (best.Some? ==> forall k :: 0 <= k < n && Usable(s[k], q) ==> best.value.end - best.value.base <= Need(s[k], q))
  }

  /** What the search may settle on: a sound choice that is inside the region if some range
      can offer that, and otherwise has the least padding of all ranges that can be used. */
  ghost predicate Settled(s: seq<Range>, q: Request, c: Choice)
    requires q.size > 0 && q.align > 0
  {
    && Sound(s, q, c)
    && (InRegion(c, q)
        || (forall k :: 0 <= k < |s| ==>
              !RegionHit(s[k], q) && (Usable(s[k], q) ==> c.end - c.base <= Need(s[k], q))))
  }

  /** The search comes back with nothing: a range overflows before any could serve the region,
      or no range can be used. */
  ghost predicate GivesUp(s: seq<Range>, q: Request)
    requires q.size > 0 && q.align > 0
  {
    || (exists k :: 0 <= k < |s| && Overflows(s[k], q) && forall j :: 0 <= j < k ==> !RegionHit(s[j], q))
    || (forall k :: 0 <= k < |s| ==> !Usable(s[k], q))
  }

  /** With 64-bit addresses the limit plays no part: the search stops at a range exactly when
      the region test holds, and can use it exactly when the block fits. */
  lemma NoLimit(e: Range, q: Request)
    requires ValidRequest(q) && Shaped(e) && q.limit == MAX
    ensures RegionHit(e, q) <==> RegionFits(e, q)
    ensures Usable(e, q) <==> Fits(e, q)
  {
    hide Ones, Fix, AlignUp, Need;
    if RegionFits(e, q) {
      RegionBlock(e, q);
      RegionEntryFits(e, q, RegionAt(e, q));
    }
  }

  /** Giving up although a later range fits: the first range ends so close to the top of the
      address space that rounding its start up overflows. */
  lemma GivesUpTooEarly()
    ensures exists s, q: Request ::
              && Canon(s) && ValidRequest(q) && GivesUp(s, q)
              && exists k :: 0 <= k < |s| && Fits(s[k], q) && Usable(s[k], q)
  {
    var s, q := [Range(MAX - 10, MAX), Range(0x10_0000, 0x20_0000)], Request(4096, 4096, None, MAX);
    OnePage();
    TooEarly(s[0], s[1], q);
    hide Ones, Overflows, Fits, Need, Usable;
    assert Canon(s) && ValidRequest(q) && GivesUp(s, q);
  }

  lemma TooEarly(a: Range, b: Range, q: Request)
    requires a == Range(MAX - 10, MAX) && b == Range(0x10_0000, 0x20_0000) && q == Request(4096, 4096, None, MAX)
    ensures Overflows(a, q) && Fits(b, q) && Usable(b, q)
  {
    FixMeaning(b.start, 4096);
    assert Fix(b.start, 4096) == 0;
  }

  lemma OnePage()
    ensures Ones(4096) == 1
  {
    OnesOfPow2(12);
    assert Pow2(12) == 4096;
  }

  lemma {:induction false} OnesOfPow2(k: nat)
    ensures Pow2(k) > 0 && Ones(Pow2(k)) == 1
  {
    if k > 0 { OnesOfPow2(k - 1); }
  }

  lemma BestStart(s: seq<Range>, q: Request)
    requires q.size > 0 && q.align > 0
    ensures BestOf(s, q, 0, None)
  {
  }

  /** A range that cannot be used leaves the best candidate as it is. */
  lemma BestSkip(s: seq<Range>, q: Request, n: nat, best: Option<Choice>)
    requires ValidRequest(q) && n < |s| && BestOf(s, q, n, best) && !Overflows(s[n], q) && !Usable(s[n], q)
    ensures BestOf(s, q, n + 1, best)
  {
    hide Ones, Fix, AlignUp, Sound, Need, Fits, RegionFits;
  }

  lemma RegionEntryFits(e: Range, q: Request, p: nat)
    requires ValidRequest(q) && Shaped(e) && BlockInside(e, q, p) && q.limit == MAX
    ensures Fits(e, q)
  {
    hide Fix, Ones;
    InsideFits(e, q, p);
  }

  /** A range that fits replaces the best candidate if it needs less. */
  lemma BestFit(s: seq<Range>, q: Request, n: nat, best: Option<Choice>)
    requires ValidRequest(q) && n < |s| && BestOf(s, q, n, best) && Fits(s[n], q) && !Overflows(s[n], q) && !RegionFits(s[n], q)
    ensures var c := Choice(s[n].start, s[n].start + Need(s[n], q), s[n].start + Fix(s[n].start, q.align));
            BestOf(s, q, n + 1, if best.None? || best.value.end - best.value.base > c.end - c.base then Some(c) else best)
  {
    hide Ones, Fix, AlignUp, Sound, RegionFits;
    FitIsSound(s, q, n);
  }

  lemma BestIsSettled(s: seq<Range>, q: Request, best: Option<Choice>)
    requires ValidRequest(q) && BestOf(s, q, |s|, best)
    ensures best.Some? ==> Settled(s, q, best.value)
    ensures best.None? <==> GivesUp(s, q)
  {
    hide Ones, Fix, AlignUp, Sound, Need, Fits, RegionFits;
  }

  /** The tests made on one range, in terms of the definitions above. */
  lemma EntryTests(s: seq<Range>, q: Request, i: nat)
    requires ValidRequest(q) && i < |s|
    ensures var e := s[i];
            var last := e.start + (q.size - 1) + Fix(e.start, q.align);
            && Need(e, q) == last - e.start
            && (Overflows(e, q) <==> e.start + (q.size - 1) > MAX || last > MAX)
            && (Fits(e, q) <==> last <= e.end && e.start <= q.limit && last <= q.limit)
  {
    hide Ones, Fix;
  }

  /** A range that overflows before any served the region ends the search. */
  lemma OverflowGivesUp(s: seq<Range>, q: Request, i: nat, best: Option<Choice>)
    requires ValidRequest(q) && i < |s| && BestOf(s, q, i, best) && Overflows(s[i], q)
    ensures GivesUp(s, q)
  {
    hide Ones, Fix, AlignUp, Sound, Need, Fits, RegionFits, Overflows;
  }

  /** A range that serves the region ends the search, and none before it overflowed. */
  lemma RegionChosen(s: seq<Range>, q: Request, i: nat, best: Option<Choice>)
    requires ValidRequest(q) && i < |s| && Shaped(s[i]) && BestOf(s, q, i, best) && !Overflows(s[i], q) && RegionHit(s[i], q)
    ensures var at := RegionAt(s[i], q); Settled(s, q, Choice(at, at + (q.size - 1), at))
    ensures !GivesUp(s, q)
  {
    RegionBlock(s[i], q);
    RegionIsSound(s, q, i, RegionAt(s[i], q));
    assert Usable(s[i], q);
    hide Ones, Fix, AlignUp, Sound, Need, Fits, RegionFits, Overflows, RegionAt, Usable;
  }

  lemma OneBitPositive(a: nat)
    requires Ones(a) == 1
    ensures a > 0
  {
  }

  lemma SettledShape(s: seq<Range>, q: Request, c: Choice)
    requires ValidRequest(q) && Settled(s, q, c)
    ensures c.base <= c.end <= MAX
  {
    hide Ones, Fix, AlignUp;
  }

  /** Giving a block back after taking it restores the set less the padding; with no padding
      the very same ranges are back, up to order. */
  lemma AllocateThenInsert(s: seq<Range>, taken: seq<Range>, back: seq<Range>, q: Request, c: Choice)
    requires Canon(s) && Canon(taken) && Canon(back) && Sound(s, q, c)
    requires forall x: nat :: Covers(taken, x) <==> Covers(s, x) && !(c.base <= x <= c.end)
    requires forall x: nat :: Covers(back, x) <==> Covers(taken, x) || In(Range(c.ptr, c.end), x)
    ensures forall x: nat :: Covers(back, x) <==> Covers(s, x) && !(c.base <= x < c.ptr)
    ensures c.base == c.ptr ==> multiset(back) == multiset(s)
  {
    hide Covers, Canon;
    forall x: nat
      ensures Covers(back, x) <==> Covers(s, x) && !(c.base <= x < c.ptr)
    {
      if c.base <= x <= c.end { SoundCovered(s, q, c, x); }
    }
    if c.base == c.ptr { CanonicalForm(back, s); }
  }
}
