/** Inclusive ranges of 64-bit addresses and lists of them, with their meaning as sets. */
module Ranges {
  import opened Basics

  const MAX: nat := 0xffff_ffff_ffff_ffff

  datatype Range = Range(start: nat, end: nat)

  predicate Shaped(r: Range) { r.start <= r.end <= MAX }

  predicate In(r: Range, x: nat) { r.start <= x <= r.end }

  /** Neither overlapping nor touching. */
  predicate Apart(a: Range, b: Range) { a.end + 1 < b.start || b.end + 1 < a.start }

  predicate Meets(a: Range, b: Range) { a.start <= b.end && b.start <= a.end }

  function SatAdd(x: nat, y: nat): nat { if x + y > MAX then MAX else x + y }

  function SatSub(x: nat, y: nat): nat { if x < y then 0 else x - y }

  function Max(x: nat, y: nat): nat { if x < y then y else x }

  function Min(x: nat, y: nat): nat { if x < y then x else y }

  /** Ends swapped if they are the wrong way round. */
  function Ordered(r: Range): Range { if r.start > r.end then Range(r.end, r.start) else r }

  /** The common part of two ranges, if there is one. */
  function Overlaps(a: Range, b: Range): Option<Range> {
    var a, b := Ordered(a), Ordered(b);
    if a.start <= b.end && b.start <= a.end then Some(Range(Max(a.start, b.start), Min(a.end, b.end))) else None
  }

  /** All of `a` lies in `b`. */
  predicate Contains(a: Range, b: Range) {
    var a, b := Ordered(a), Ordered(b);
    a.start >= b.start && a.end <= b.end
  }

  /** The overlap test on ranges that were each made one longer, stopping at the top of the
      address space, is false exactly when the ranges neither overlap nor touch. */
  lemma TouchTest(a: Range, b: Range)
    requires Shaped(a) && Shaped(b)
    ensures Overlaps(Range(a.start, SatAdd(a.end, 1)), Range(b.start, SatAdd(b.end, 1))).None? <==> Apart(a, b)
  {
  }

  lemma OverlapMeaning(a: Range, b: Range)
    requires Shaped(a) && Shaped(b)
    ensures Overlaps(a, b).Some? <==> Meets(a, b)
    ensures Overlaps(a, b).Some? ==> Shaped(Overlaps(a, b).value)
    ensures Overlaps(a, b).Some? ==> forall x :: In(Overlaps(a, b).value, x) <==> In(a, x) && In(b, x)
    ensures Overlaps(a, b).None? ==> forall x :: !(In(a, x) && In(b, x))
    ensures Contains(a, b) <==> b.start <= a.start && a.end <= b.end
  {
  }

  // ----- lists of ranges -----

  ghost predicate Covers(s: seq<Range>, x: nat) { exists i :: 0 <= i < |s| && In(s[i], x) }

  /** The addresses a list of ranges stands for. */
  ghost function Addrs(s: seq<Range>): set<nat> { set x: nat | x <= MAX && Covers(s, x) }

  ghost function AddrsOf(r: Range): set<nat> { set x: nat | x <= MAX && In(r, x) }

  /** Well-shaped ranges, no two of which overlap or touch. */
  ghost predicate Canon(s: seq<Range>) {
    && (forall i :: 0 <= i < |s| ==> Shaped(s[i]))
    && (forall i, j :: 0 <= i < j < |s| ==> Apart(s[i], s[j]))
  }

  function Without(s: seq<Range>, i: nat): seq<Range>
    requires i < |s|
  {
    s[..i] + s[i + 1..]
  }

  lemma WithoutCanon(s: seq<Range>, i: nat)
    requires Canon(s) && i < |s|
    ensures Canon(Without(s, i))
    ensures forall k :: 0 <= k < |s| - 1 ==> Apart(Without(s, i)[k], s[i])
  {
  }

  lemma WithoutCovers(s: seq<Range>, i: nat, x: nat)
    requires i < |s|
    ensures Covers(s, x) <==> Covers(Without(s, i), x) || In(s[i], x)
  {
    var t := Without(s, i);
    if Covers(s, x) && !In(s[i], x) {
      var k :| 0 <= k < |s| && In(s[k], x);
      assert In(t[if k < i then k else k - 1], x);
    }
    if Covers(t, x) {
      var k :| 0 <= k < |t| && In(t[k], x);
      assert In(s[if k < i then k else k + 1], x);
    }
  }

  lemma AppendCovers(s: seq<Range>, r: Range, x: nat)
    ensures Covers(s + [r], x) <==> Covers(s, x) || In(r, x)
  {
    var t := s + [r];
    if Covers(s, x) {
      var k :| 0 <= k < |s| && In(s[k], x);
      assert In(t[k], x);
    }
    if In(r, x) { assert In(t[|s|], x); }
    if Covers(t, x) {
      var k :| 0 <= k < |t| && In(t[k], x);
      if k < |s| { assert In(s[k], x); }
    }
  }

  lemma UpdateCovers(s: seq<Range>, i: nat, r: Range, x: nat)
    requires i < |s|
    ensures Covers(s[i := r], x) <==> Covers(Without(s, i), x) || In(r, x)
  {
    var t := s[i := r];
    assert Without(t, i) == Without(s, i);
    WithoutCovers(t, i, x);
  }

  // ----- merging -----

  function Merge(a: Range, b: Range): Range { Range(Min(a.start, b.start), Max(a.end, b.end)) }

  /** The union of two ranges that overlap or touch is a range, and is apart from whatever
      is apart from both. */
  lemma MergeMeaning(a: Range, b: Range)
    requires Shaped(a) && Shaped(b) && !Apart(a, b)
    ensures Shaped(Merge(a, b))
    ensures forall x :: In(Merge(a, b), x) <==> In(a, x) || In(b, x)
    ensures forall c :: Shaped(c) ==> (Apart(c, Merge(a, b)) <==> Apart(c, a) && Apart(c, b))
  {
  }

  // ----- counting the ranges that meet a given one -----

  function Meeting(s: seq<Range>, r: Range): nat {
    if s == [] then 0 else (if Meets(s[0], r) then 1 else 0) + Meeting(s[1..], r)
  }

  lemma MeetingConcat(s: seq<Range>, t: seq<Range>, r: Range)
    ensures Meeting(s + t, r) == Meeting(s, r) + Meeting(t, r)
  {
    if s == [] {
      assert s + t == t;
    } else {
      assert (s + t)[0] == s[0] && (s + t)[1..] == s[1..] + t;
      MeetingConcat(s[1..], t, r);
    }
  }

  lemma MeetingAt(s: seq<Range>, i: nat, r: Range)
    requires i < |s|
    ensures Meeting(s, r) == Meeting(Without(s, i), r) + if Meets(s[i], r) then 1 else 0
  {
    assert s == s[..i] + ([s[i]] + s[i + 1..]);
    MeetingConcat(s[..i], [s[i]] + s[i + 1..], r);
    MeetingConcat([s[i]], s[i + 1..], r);
    MeetingConcat(s[..i], s[i + 1..], r);
  }

  lemma MeetingUpdate(s: seq<Range>, i: nat, e: Range, r: Range)
    requires i < |s|
    ensures Meeting(s[i := e], r) == Meeting(Without(s, i), r) + if Meets(e, r) then 1 else 0
  {
    assert Without(s[i := e], i) == Without(s, i);
    MeetingAt(s[i := e], i, r);
  }

  // ----- one step of an insertion -----

  ghost predicate SomeTouches(s: seq<Range>, r: Range) { exists i :: 0 <= i < |s| && !Apart(s[i], r) }

  /** The list `s` with `r` and the list `t` with `q` stand for the same addresses. */
  ghost predicate SameUnion(s: seq<Range>, r: Range, t: seq<Range>, q: Range) {
    forall x: nat :: Covers(s, x) || In(r, x) <==> Covers(t, x) || In(q, x)
  }

  /** Where inserting `r` into `s0` stands: `s` is left of the list, `cur` is what `r` grew to. */
  ghost predicate Merging(s0: seq<Range>, r: Range, s: seq<Range>, cur: Range) {
    && Canon(s) && Shaped(cur) && |s| <= |s0|
    && (if |s| == |s0| then s == s0 && cur == r else SomeTouches(s0, r))
    && SameUnion(s0, r, s, cur)
  }

  lemma MergeStep(s0: seq<Range>, r: Range, s: seq<Range>, cur: Range, i: nat)
    requires Merging(s0, r, s, cur) && i < |s| && !Apart(s[i], cur)
    ensures Merging(s0, r, Without(s, i), Merge(cur, s[i]))
  {
    MergeMeaning(cur, s[i]);
    WithoutCanon(s, i);
    var t, q := Without(s, i), Merge(cur, s[i]);
    forall x: nat
      ensures Covers(s0, x) || In(r, x) <==> Covers(t, x) || In(q, x)
    {
      WithoutCovers(s, i, x);
      assert Covers(s0, x) || In(r, x) <==> Covers(s, x) || In(cur, x);
    }
  }

  lemma MergeEnd(s0: seq<Range>, r: Range, s: seq<Range>, cur: Range)
    requires Merging(s0, r, s, cur) && forall k :: 0 <= k < |s| ==> Apart(s[k], cur)
    ensures Canon(s + [cur])
    ensures forall x: nat :: Covers(s + [cur], x) <==> Covers(s0, x) || In(r, x)
    ensures |s| == |s0| <==> !SomeTouches(s0, r)
  {
    forall x: nat
      ensures Covers(s + [cur], x) <==> Covers(s0, x) || In(r, x)
    {
      AppendCovers(s, cur, x);
      assert Covers(s0, x) || In(r, x) <==> Covers(s, x) || In(cur, x);
    }
  }

  // ----- one step of a removal -----

  /** `r` lies strictly inside `e`. */
  predicate Splits(e: Range, r: Range) { e.start < r.start && r.end < e.end }

  ghost predicate SomeSplits(s: seq<Range>, r: Range) { exists i :: 0 <= i < |s| && Splits(s[i], r) }

  /** `t` has lost addresses of `r` only. */
  ghost predicate LosesOnly(s: seq<Range>, t: seq<Range>, r: Range) {
    forall x: nat {:trigger Covers(s, x)} {:trigger Covers(t, x)} ::
      (Covers(t, x) ==> Covers(s, x)) && (Covers(s, x) && !In(r, x) ==> Covers(t, x))
  }

  /** Where removing `r` from `s0` stands: `s` has lost only addresses of `r`. As long as
      something could still split, nothing has changed. */
  ghost predicate Trimming(s0: seq<Range>, r: Range, s: seq<Range>) {
    && Canon(s) && Shaped(r)
    && LosesOnly(s0, s, r)
    && (s == s0 || !SomeSplits(s, r))
  }

  lemma TrimmingStart(s: seq<Range>, r: Range)
    requires Canon(s) && Shaped(r)
    ensures Trimming(s, r, s)
  {
  }

  /** Parts of a removal under way. */
  lemma TrimmingParts(s0: seq<Range>, r: Range, s: seq<Range>, i: nat)
    requires Trimming(s0, r, s) && i < |s|
    ensures Shaped(s[i]) && (Splits(s[i], r) ==> s == s0 && SomeSplits(s0, r))
  {
    assert Splits(s[i], r) ==> SomeSplits(s, r);
  }

  lemma TrimmingNext(s0: seq<Range>, r: Range, s: seq<Range>, t: seq<Range>)
    requires Trimming(s0, r, s) && Canon(t) && LosesOnly(s, t, r) && !SomeSplits(t, r)
    ensures Trimming(s0, r, t)
  {
    hide Canon, SomeSplits, Covers, In;
  }

  /** If some range strictly contains `r`, it is the only one that meets `r`. */
  lemma OnlyOneMeets(s: seq<Range>, r: Range, i: nat, j: nat)
    requires Canon(s) && Shaped(r) && i < |s| && j < |s| && Splits(s[i], r) && Meets(s[j], r)
    ensures i == j
  {
  }

  /** If a range meets `r` without strictly containing it, no range strictly contains it. */
  lemma NoneSplits(s: seq<Range>, r: Range, i: nat)
    requires Canon(s) && Shaped(r) && i < |s| && Meets(s[i], r) && !Splits(s[i], r)
    ensures !SomeSplits(s, r)
  {
    forall k | 0 <= k < |s|
      ensures !Splits(s[k], r)
    {
      if Splits(s[k], r) { OnlyOneMeets(s, r, k, i); }
    }
  }

  lemma DeleteStep(s0: seq<Range>, r: Range, s: seq<Range>, i: nat)
    requires Trimming(s0, r, s) && i < |s| && r.start <= s[i].start && s[i].end <= r.end
    ensures Trimming(s0, r, Without(s, i)) && !SomeSplits(s, r)
    ensures Meeting(Without(s, i), r) == Meeting(s, r) - 1
  {
    assert Shaped(s[i]);
    NoneSplits(s, r, i);
    MeetingAt(s, i, r);
    WithoutCanon(s, i);
    DeleteCovers(r, s, i);
    hide *;
    TrimmingNext(s0, r, s, Without(s, i));
  }

  lemma DeleteCovers(r: Range, s: seq<Range>, i: nat)
    requires i < |s| && r.start <= s[i].start && s[i].end <= r.end && !SomeSplits(s, r)
    ensures LosesOnly(s, Without(s, i), r) && !SomeSplits(Without(s, i), r)
  {
    var t := Without(s, i);
    forall k | 0 <= k < |t|
      ensures !Splits(t[k], r)
    {
      assert t[k] == s[if k < i then k else k + 1];
    }
    hide Covers, SomeSplits, Without;
    forall x: nat
      ensures (Covers(t, x) ==> Covers(s, x)) && (Covers(s, x) && !In(r, x) ==> Covers(t, x))
    {
      WithoutCovers(s, i, x);
    }
  }

  /** A range cut down to its part outside `r`, with nothing on the other side of `r`. */
  lemma TrimStep(s0: seq<Range>, r: Range, s: seq<Range>, i: nat, e: Range)
    requires Trimming(s0, r, s) && i < |s| && Meets(s[i], r) && !Splits(s[i], r) && Shaped(e)
    requires s[i].start <= e.start && e.end <= s[i].end
    requires forall x: nat :: In(e, x) <==> In(s[i], x) && !In(r, x)
    ensures Trimming(s0, r, s[i := e]) && !SomeSplits(s, r)
    ensures !Meets(e, r) && Meeting(s[i := e], r) == Meeting(s, r) - 1
  {
    OutsideApart(e, r);
    NoneSplits(s, r, i);
    MeetingAt(s, i, r);
    MeetingUpdate(s, i, e, r);
    TrimCanon(s, i, e, r);
    TrimCovers(r, s, i, e);
    hide *;
    TrimmingNext(s0, r, s, s[i := e]);
  }

  lemma OutsideApart(e: Range, r: Range)
    requires Shaped(e) && Shaped(r) && forall x: nat :: In(e, x) ==> !In(r, x)
    ensures !Meets(e, r) && !Splits(e, r)
  {
    assert In(r, r.start);
    assert Meets(e, r) ==> In(e, Max(e.start, r.start)) && In(r, Max(e.start, r.start));
  }

  lemma TrimCanon(s: seq<Range>, i: nat, e: Range, r: Range)
    requires Canon(s) && i < |s| && Shaped(e) && s[i].start <= e.start && e.end <= s[i].end
    requires !SomeSplits(s, r) && !Splits(e, r)
    ensures Canon(s[i := e]) && !SomeSplits(s[i := e], r)
  {
  }

  lemma TrimCovers(r: Range, s: seq<Range>, i: nat, e: Range)
    requires i < |s| && forall x: nat :: In(e, x) <==> In(s[i], x) && !In(r, x)
    ensures LosesOnly(s, s[i := e], r)
  {
    hide Covers;
    var t := s[i := e];
    forall x: nat
      ensures (Covers(t, x) ==> Covers(s, x)) && (Covers(s, x) && !In(r, x) ==> Covers(t, x))
    {
      UpdateCovers(s, i, e, x);
      WithoutCovers(s, i, x);
    }
  }

  /** A range split around `r` into a high part in place and a low part at the end. */
  lemma SplitStep(s0: seq<Range>, r: Range, s: seq<Range>, i: nat)
    requires Trimming(s0, r, s) && i < |s| && Splits(s[i], r)
    ensures var t := s[i := Range(r.end + 1, s[i].end)] + [Range(s[i].start, r.start - 1)];
            Trimming(s0, r, t) && Meeting(t, r) == Meeting(s, r) - 1
  {
    var high, low := Range(r.end + 1, s[i].end), Range(s[i].start, r.start - 1);
    MeetingAt(s, i, r);
    MeetingUpdate(s, i, high, r);
    MeetingConcat(s[i := high], [low], r);
    assert Meeting([low], r) == 0;
    SplitCanon(r, s, i);
    SplitCovers(r, s, i);
    hide *;
    TrimmingNext(s0, r, s, s[i := high] + [low]);
  }

  lemma SplitCanon(r: Range, s: seq<Range>, i: nat)
    requires Canon(s) && Shaped(r) && i < |s| && Splits(s[i], r)
    ensures var t := s[i := Range(r.end + 1, s[i].end)] + [Range(s[i].start, r.start - 1)];
            Canon(t) && !SomeSplits(t, r)
  {
    var high, low := Range(r.end + 1, s[i].end), Range(s[i].start, r.start - 1);
    forall k | 0 <= k < |s| && k != i
      ensures Apart(s[k], high) && Apart(s[k], low) && !Splits(s[k], r)
    {
      assert Apart(s[k], s[i]);
    }
  }

  lemma SplitCovers(r: Range, s: seq<Range>, i: nat)
    requires Shaped(r) && i < |s| && Splits(s[i], r)
    ensures LosesOnly(s, s[i := Range(r.end + 1, s[i].end)] + [Range(s[i].start, r.start - 1)], r)
  {
    hide Covers;
    var high, low := Range(r.end + 1, s[i].end), Range(s[i].start, r.start - 1);
    var t := s[i := high] + [low];
    forall x: nat
      ensures (Covers(t, x) ==> Covers(s, x)) && (Covers(s, x) && !In(r, x) ==> Covers(t, x))
    {
      AppendCovers(s[i := high], low, x);
      UpdateCovers(s, i, high, x);
      WithoutCovers(s, i, x);
    }
  }

  lemma TrimEnd(s0: seq<Range>, r: Range, s: seq<Range>)
    requires Trimming(s0, r, s) && forall k :: 0 <= k < |s| ==> !Meets(s[k], r)
    ensures forall x: nat :: Covers(s, x) <==> Covers(s0, x) && !In(r, x)
    ensures Canon(s) && (s == s0 ==> !SomeSplits(s0, r))
  {
    forall x: nat
      ensures Covers(s, x) <==> Covers(s0, x) && !In(r, x)
    {
      if Covers(s, x) {
        var k :| 0 <= k < |s| && In(s[k], x);
        assert !Meets(s[k], r);
      }
    }
  }
}
