/** Range lists as sets: sizes, canonical form, and aligned blocks inside ranges. */
module RangeTheorems {
  import opened Basics
  import opened Ranges

  // ----- size -----

  function Length(r: Range): nat
    requires r.start <= r.end
  {
    r.end - r.start + 1
  }

  ghost function SizeSum(s: seq<Range>): nat
    requires forall i :: 0 <= i < |s| ==> Shaped(s[i])
  {
    if s == [] then 0
    else
      var last := s[|s| - 1];
      assert Shaped(last);
      SizeSum(s[..|s| - 1]) + Length(last)
  }

  lemma {:induction false} IntervalSize(r: Range)
    requires Shaped(r)
    ensures |AddrsOf(r)| == Length(r)
    decreases r.end - r.start
  {
    if r.start == r.end {
      OneAddress(r.start);
    } else {
      var q := Range(r.start, r.end - 1);
      IntervalSize(q);
      OneMore(r);
      hide AddrsOf;
      assert |AddrsOf(q) + {r.end}| == |AddrsOf(q)| + 1;
    }
  }

  lemma OneAddress(x: nat)
    requires x <= MAX
    ensures AddrsOf(Range(x, x)) == {x}
  {
  }

  lemma OneMore(r: Range)
    requires Shaped(r) && r.start < r.end
    ensures AddrsOf(r) == AddrsOf(Range(r.start, r.end - 1)) + {r.end} && r.end !in AddrsOf(Range(r.start, r.end - 1))
  {
  }

  lemma PrefixCanon(s: seq<Range>, n: nat)
    requires Canon(s) && n <= |s|
    ensures Canon(s[..n])
  {
  }

  lemma LastSplit(s: seq<Range>)
    requires Canon(s) && s != []
    ensures Addrs(s) == Addrs(s[..|s| - 1]) + AddrsOf(s[|s| - 1])
    ensures Addrs(s[..|s| - 1]) !! AddrsOf(s[|s| - 1])
  {
    var t, r := s[..|s| - 1], s[|s| - 1];
    assert s == t + [r];
    forall x: nat
      ensures Covers(s, x) <==> Covers(t, x) || In(r, x)
      ensures !(Covers(t, x) && In(r, x))
    {
      AppendCovers(t, r, x);
    }
  }

  /** The sum of the lengths is the number of addresses covered. */
  lemma {:induction false} SumIsSize(s: seq<Range>)
    requires Canon(s)
    ensures |Addrs(s)| == SizeSum(s)
    decreases |s|
  {
    if s == [] {
      assert Addrs(s) == {};
    } else {
      LastSplit(s);
      PrefixCanon(s, |s| - 1);
      SumIsSize(s[..|s| - 1]);
      IntervalSize(s[|s| - 1]);
    }
  }

  const FULL := Range(0, MAX)

  /** The sum fits in 64 bits unless the one range is the whole address space. */
  lemma SumFits(s: seq<Range>)
    requires Canon(s) && s != [FULL]
    ensures SizeSum(s) <= MAX
  {
    SumIsSize(s);
    IntervalSize(FULL);
    if |s| == 0 {
    } else if |s| == 1 {
      assert s == [s[0]];
      assert s[..0] == [];
    } else {
      var gap := if s[0].end < s[1].end then s[0].end + 1 else s[1].end + 1;
      assert Apart(s[0], s[1]);
      assert !Covers(s, gap);
      assert Addrs(s) <= AddrsOf(FULL) - {gap};
      SubsetSize(Addrs(s), AddrsOf(FULL) - {gap});
      assert |AddrsOf(FULL) - {gap}| == |AddrsOf(FULL)| - 1;
    }
  }

  /** The whole address space leaves no room for another range. */
  lemma FullAlone(s: seq<Range>, i: nat)
    requires Canon(s) && i < |s| && Length(s[i]) > MAX
    ensures s == [FULL]
  {
    assert s[i] == FULL;
    assert |s| > 1 ==> Shaped(s[0]) && Shaped(s[1]);
  }

  // ----- canonical form -----

  /** A range of a canonical list is a maximal run of covered addresses. */
  lemma Maximal(s: seq<Range>, i: nat)
    requires Canon(s) && i < |s|
    ensures s[i].start > 0 ==> !Covers(s, s[i].start - 1)
    ensures !Covers(s, s[i].end + 1)
  {
    forall k | 0 <= k < |s|
      ensures s[i].start > 0 ==> !In(s[k], s[i].start - 1)
      ensures !In(s[k], s[i].end + 1)
    {
    }
  }

  ghost predicate SameAddrs(s: seq<Range>, t: seq<Range>) { forall x: nat :: Covers(s, x) <==> Covers(t, x) }

  lemma SameRange(s: seq<Range>, t: seq<Range>, i: nat)
    requires Canon(s) && Canon(t) && SameAddrs(s, t) && i < |s|
    ensures s[i] in t
  {
    var r := s[i];
    assert In(s[i], r.start);
    assert Covers(t, r.start);
    var j :| 0 <= j < |t| && In(t[j], r.start);
    Maximal(s, i);
    Maximal(t, j);
    forall x: nat
      ensures In(t[j], x) ==> Covers(s, x)
      ensures In(s[i], x) ==> Covers(t, x)
    {
    }
    assert t[j] == r;
  }

  lemma {:induction false} NoCopies(s: seq<Range>, r: Range)
    requires Canon(s)
    ensures multiset(s)[r] == if r in s then 1 else 0
    decreases |s|
  {
    if s != [] {
      var t, l := s[..|s| - 1], s[|s| - 1];
      assert s == t + [l];
      PrefixCanon(s, |s| - 1);
      NoCopies(t, r);
      assert forall k :: 0 <= k < |t| ==> Apart(s[k], l);
      assert l !in t;
    }
  }

  /** Lists that cover the same addresses hold the same ranges, up to order. */
  lemma CanonicalForm(s: seq<Range>, t: seq<Range>)
    requires Canon(s) && Canon(t) && SameAddrs(s, t)
    ensures multiset(s) == multiset(t) && |s| == |t|
  {
    forall r
      ensures multiset(s)[r] == multiset(t)[r]
    {
      NoCopies(s, r);
      NoCopies(t, r);
      if r in s {
        var i :| 0 <= i < |s| && s[i] == r;
        SameRange(s, t, i);
      }
      if r in t {
        var i :| 0 <= i < |t| && t[i] == r;
        SameRange(t, s, i);
      }
    }
    assert |multiset(s)| == |s| && |multiset(t)| == |t|;
  }

  /** Lists of ranges for the same addresses meet any range in the same way. */
  lemma SameShape(s: seq<Range>, t: seq<Range>, r: Range)
    requires Canon(s) && Canon(t) && SameAddrs(s, t)
    ensures |s| == |t| && SomeTouches(s, r) == SomeTouches(t, r) && SomeSplits(s, r) == SomeSplits(t, r)
  {
    CanonicalForm(s, t);
    SameMembers(s, t);
    Meetings(s, r);
    Meetings(t, r);
  }

  lemma Meetings(s: seq<Range>, r: Range)
    ensures SomeTouches(s, r) <==> exists e :: e in s && !Apart(e, r)
    ensures SomeSplits(s, r) <==> exists e :: e in s && Splits(e, r)
  {
    if SomeTouches(s, r) {
      var i :| 0 <= i < |s| && !Apart(s[i], r);
      assert s[i] in s;
    }
    if SomeSplits(s, r) {
      var i :| 0 <= i < |s| && Splits(s[i], r);
      assert s[i] in s;
    }
  }
}
