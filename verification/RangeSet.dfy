/** A set of addresses kept as an array of at most 256 inclusive ranges, updated in place. */
module RangeSets {
  import opened Basics
  import opened Ranges
  import opened RangeTheorems
  import opened Alignment
  import opened Allocation

  const CAPACITY: nat := 256

  /** Removing the ranges of `t` one by one from those of `s` comes to a range that splits one
      of the 256 ranges there are: the addresses left of `s` after the first `i` removals take
      exactly 256 ranges, and range `i` of `t` splits one. */
  ghost predicate Stuck(s: seq<Range>, t: seq<Range>, i: nat)
    requires i < |t|
  {
    exists e :: StuckAt(s, t, i, e)
  }

  ghost predicate StuckAt(s: seq<Range>, t: seq<Range>, i: nat, e: seq<Range>)
    requires i < |t|
  {
    && Canon(e) && |e| == CAPACITY && SomeSplits(e, t[i])
    && forall x: nat :: Covers(e, x) <==> Covers(s, x) && !Covers(t[..i], x)
  }

  /** Whether the removal panics can be told from any list of the addresses left. */
  lemma StuckHere(s: seq<Range>, t: seq<Range>, i: nat, now: seq<Range>)
    requires i < |t| && Canon(now) && forall x: nat :: Covers(now, x) <==> Covers(s, x) && !Covers(t[..i], x)
    ensures Stuck(s, t, i) <==> |now| == CAPACITY && SomeSplits(now, t[i])
  {
    hide Canon, Covers, SomeSplits, SomeTouches;
    if |now| == CAPACITY && SomeSplits(now, t[i]) { assert StuckAt(s, t, i, now); }
    if Stuck(s, t, i) {
      var e :| StuckAt(s, t, i, e);
      assert SameAddrs(e, now);
      SameShape(e, now, t[i]);
    }
  }

  class RangeSet {
    const ranges: array<Range>
    var inUse: nat

    /** The ranges in use, with no two overlapping or touching. */
    ghost predicate Valid()
      reads this, ranges
    {
      ranges.Length == CAPACITY && inUse <= CAPACITY && Canon(ranges[..inUse])
    }

    ghost function Entries(): seq<Range>
      reads this, ranges
      requires inUse <= ranges.Length
    {
      ranges[..inUse]
    }

    constructor ()
      ensures Valid() && Entries() == [] && fresh(ranges)
    {
      ranges := new Range[CAPACITY](_ => Range(0, 0));
      inUse := 0;
    }

    /** Takes out the range at `idx`, keeping the others in order. */
    method Delete(idx: nat)
      requires ranges.Length == CAPACITY && idx < inUse <= CAPACITY
      modifies this, ranges
      ensures inUse == old(inUse) - 1 && Entries() == Without(old(Entries()), idx)
    {
      ghost var s := ranges[..];
      for ii := idx to inUse - 1
        invariant inUse == old(inUse)
        invariant forall k :: 0 <= k < idx || ii < k < ranges.Length ==> ranges[k] == s[k]
        invariant forall k :: idx <= k < ii ==> ranges[k] == s[k + 1]
        invariant ranges[ii] == s[idx]
      {
        ranges[ii], ranges[ii + 1] := ranges[ii + 1], ranges[ii];
      }
      inUse := inUse - 1;
    }

    /** Adds the addresses of `range`, merging it with every range it overlaps or touches.
        Panics exactly when the range is the wrong way round, or the array is full and there
        is nothing to merge with. */
    method Insert(range: Range) returns (r: Outcome<()>)
      requires Valid() && range.start <= MAX && range.end <= MAX
      modifies this, ranges
      ensures r.Panicked? <==>
                range.start > range.end || (old(inUse) == CAPACITY && !SomeTouches(old(Entries()), range))
      ensures r.Returned? ==> Valid()
      ensures r.Returned? ==> forall x: nat :: Covers(Entries(), x) <==> Covers(old(Entries()), x) || In(range, x)
    {
      if range.start > range.end { return Panicked; }
      var cur := range;
      ghost var s0 := ranges[..inUse];
      label tryMerges:
      while true
        invariant inUse <= CAPACITY && ranges.Length == CAPACITY && Merging(s0, range, ranges[..inUse], cur)
        decreases inUse
      {
        ghost var s1 := ranges[..inUse];
        for ii := 0 to inUse
          invariant inUse == |s1| && ranges[..inUse] == s1
          invariant forall k :: 0 <= k < ii ==> Apart(s1[k], cur)
        {
          var ent := ranges[ii];
          assert ent == s1[ii];
          TouchTest(cur, ent);
          if Overlaps(Range(cur.start, SatAdd(cur.end, 1)), Range(ent.start, SatAdd(ent.end, 1))).None? {
            continue;
          }
          MergeStep(s0, range, s1, cur, ii);
          cur := Range(Min(cur.start, ent.start), Max(cur.end, ent.end));
          Delete(ii);
          continue tryMerges;
        }
        break;
      }
      ghost var s1 := ranges[..inUse];
      MergeEnd(s0, range, s1, cur);
      if inUse >= ranges.Length { return Panicked; }
      ranges[inUse] := cur;
      inUse := inUse + 1;
      assert ranges[..inUse] == s1 + [cur];
      return Returned(());
    }

    /** Replaces the range at `ii`, which `range` lies strictly inside, by what is left of it on
        either side; there must be room for one range more. */
    method SplitEntry(ii: nat, range: Range) returns (room: bool)
      requires ranges.Length == CAPACITY && ii < inUse <= CAPACITY && Splits(ranges[ii], range) && ranges[ii].end <= MAX
      modifies this, ranges
      ensures room <==> old(inUse) < CAPACITY
      ensures inUse == old(inUse) + if room then 1 else 0
      ensures room ==>
                Entries() == old(Entries())[ii := Range(range.end + 1, old(ranges[ii]).end)]
                             + [Range(old(ranges[ii]).start, range.start - 1)]
    {
      var ent := ranges[ii];
      ranges[ii] := Range(SatAdd(range.end, 1), ent.end);
      if inUse >= ranges.Length { return false; }
      ranges[inUse] := Range(ent.start, SatSub(range.start, 1));
      inUse := inUse + 1;
      return true;
    }

    /** Takes out the addresses of `range`, trimming, deleting or splitting the ranges it
        meets. Panics exactly when the range is the wrong way round, or a range has to be
        split and the array is full. */
    method Remove(range: Range) returns (r: Outcome<()>)
      requires Valid() && range.start <= MAX && range.end <= MAX
      modifies this, ranges
      ensures r.Panicked? <==>
                range.start > range.end || (old(inUse) == CAPACITY && SomeSplits(old(Entries()), range))
      ensures r.Returned? ==> Valid()
      ensures r.Returned? ==> forall x: nat :: Covers(Entries(), x) <==> Covers(old(Entries()), x) && !In(range, x)
    {
      hide Meeting, Covers, Trimming, SomeSplits, Canon;
      if range.start > range.end { return Panicked; }
      ghost var s0 := ranges[..inUse];
      TrimmingStart(s0, range);
      label trySubtractions:
      while true
        invariant inUse <= CAPACITY && ranges.Length == CAPACITY && Trimming(s0, range, ranges[..inUse])
        invariant |s0| == CAPACITY && SomeSplits(s0, range) ==> ranges[..inUse] == s0
        decreases Meeting(ranges[..inUse], range)
      {
        ghost var m1 := Meeting(ranges[..inUse], range);
        ghost var n1 := inUse;
        for ii := 0 to inUse
          invariant inUse == n1 && Trimming(s0, range, ranges[..inUse])
          invariant |s0| == CAPACITY && SomeSplits(s0, range) ==> ranges[..inUse] == s0
          invariant Meeting(ranges[..inUse], range) <= m1
          invariant forall k :: 0 <= k < ii ==> !Meets(ranges[k], range)
        {
          ghost var s1 := ranges[..inUse];
          var ent := ranges[ii];
          assert ent == s1[ii];
          TrimmingParts(s0, range, s1, ii);
          OverlapMeaning(range, ent);
          if Overlaps(range, ent).None? {
            continue;
          }
          OverlapMeaning(ent, range);
          if Contains(ent, range) {
            DeleteStep(s0, range, s1, ii);
            Delete(ii);
            continue trySubtractions;
          }
          if range.start <= ent.start {
            var e := Range(SatAdd(range.end, 1), ent.end);
            TrimStep(s0, range, s1, ii, e);
            ranges[ii] := e;
            assert ranges[..inUse] == s1[ii := e];
          } else if range.end >= ent.end {
            var e := Range(ent.start, SatSub(range.start, 1));
            TrimStep(s0, range, s1, ii, e);
            ranges[ii] := e;
            assert ranges[..inUse] == s1[ii := e];
          } else {
            SplitStep(s0, range, s1, ii);
            var room := SplitEntry(ii, range);
            if !room { return Panicked; }
            continue trySubtractions;
          }
        }
        break;
      }
      TrimEnd(s0, range, ranges[..inUse]);
      return Returned(());
    }

    /** Removes every range of `other`. Panics exactly when one of the removals has to split a
        range of a full array. */
    method Subtract(other: RangeSet) returns (r: Outcome<()>)
      requires Valid() && other.Valid() && other != this && other.ranges != ranges
      modifies this, ranges
      ensures r.Panicked? <==>
                exists i :: 0 <= i < |old(other.Entries())| && Stuck(old(Entries()), old(other.Entries()), i)
      ensures r.Returned? ==> Valid()
      ensures r.Returned? ==>
                forall x: nat :: Covers(Entries(), x) <==> Covers(old(Entries()), x) && !Covers(other.Entries(), x)
    {
      hide Stuck, SomeSplits;
      ghost var t := other.Entries();
      for ii := 0 to other.inUse
        invariant Valid() && other.Valid() && other.inUse == old(other.inUse) && other.Entries() == t
        invariant forall x: nat :: Covers(Entries(), x) <==> Covers(old(Entries()), x) && !Covers(t[..ii], x)
        invariant forall k :: 0 <= k < ii ==> !Stuck(old(Entries()), t, k)
      {
        var ent := other.ranges[ii];
        assert ent == t[ii] && Shaped(t[ii]);
        ghost var before := Entries();
        StuckHere(old(Entries()), t, ii, before);
        var ok := Remove(ent);
        if ok.Panicked? { return Panicked; }
        assert t[..ii + 1] == t[..ii] + [ent];
        forall x: nat
          ensures Covers(Entries(), x) <==> Covers(old(Entries()), x) && !Covers(t[..ii + 1], x)
        {
          AppendCovers(t[..ii], ent, x);
          assert Covers(Entries(), x) <==> Covers(before, x) && !In(ent, x);
        }
      }
      assert t[..other.inUse] == t;
      return Returned(());
    }

    /** The number of addresses covered; `None` for the whole 64-bit space, whose size is not
        a 64-bit number. The unchecked additions never overflow. */
    method Sum() returns (r: Option<nat>)
      requires Valid()
      ensures r.None? <==> Entries() == [FULL]
      ensures r.Some? ==> r.value == |Addrs(Entries())| <= MAX
    {
      ghost var s := Entries();
      var acc := 0;
      for ii := 0 to inUse
        invariant forall i :: 0 <= i < ii ==> Shaped(s[i])
        invariant acc == SizeSum(s[..ii]) && acc <= MAX
      {
        var x := ranges[ii];
        assert x == s[ii] && Shaped(s[ii]);
        if x.end - x.start + 1 > MAX {
          FullAlone(s, ii);
          return None;
        }
        PrefixCanon(s, ii + 1);
        assert s[..ii + 1][..ii] == s[..ii];
        SumFits(s[..ii + 1]);
        assert acc + (x.end - x.start + 1) <= MAX;
        acc := acc + (x.end - x.start + 1);
      }
      assert s[..inUse] == s;
      SumIsSize(s);
      return Some(acc);
    }

    /** Looks for the place to allocate `q` from: the preferred region if one range can offer
        it, otherwise the range that needs the least padding. */
    method FindBlock(q: Request) returns (best: Option<Choice>)
      requires Valid() && ValidRequest(q)
      ensures best.Some? ==> Settled(Entries(), q, best.value)
      ensures best.None? <==> GivesUp(Entries(), q)
    {
      hide Ones, Fix, AlignUp, Sound, Settled, BestOf, GivesUp, Overflows, Fits, Need;
      ghost var s := Entries();
      best := None;
      BestStart(s, q);
      for ii := 0 to inUse
        invariant BestOf(s, q, ii, best)
      {
        var ent := ranges[ii];
        assert ent == s[ii] && Shaped(s[ii]);
        EntryTests(s, q, ii);
        var alignFix := Fix(ent.start, q.align);
        var base := ent.start;
        if base + (q.size - 1) > MAX || base + (q.size - 1) + alignFix > MAX {
          OverflowGivesUp(s, q, ii, best);
          return None;
        }
        var end := base + (q.size - 1) + alignFix;
        if base > q.limit || end > q.limit {
          BestSkip(s, q, ii, best);
          continue;
        }
        if end > ent.end {
          BestSkip(s, q, ii, best);
          continue;
        }
        if q.region.Some? {
          var overlap := Overlaps(ent, q.region.value);
          if overlap.Some? {
            var at := AlignUp(overlap.value.start, q.align);
            if at >= overlap.value.start && at <= overlap.value.end && overlap.value.end - at >= q.size - 1 {
              var alcEnd := at + (q.size - 1);
              if at > q.limit || alcEnd > q.limit {
                BestSkip(s, q, ii, best);
                continue;
              }
              RegionChosen(s, q, ii, best);
              best := Some(Choice(at, alcEnd, at));
              return;
            }
          }
        }
        BestFit(s, q, ii, best);
        if best.None? || best.value.end - best.value.base > end - base {
          best := Some(Choice(base, end, base + alignFix));
        }
      }
      BestIsSettled(s, q, best);
    }

    /** Allocates `size` bytes aligned to `align`, from `region` if that can be satisfied.
        `limit` is the largest `usize`. The block and its front padding leave the set and
        nothing else does; with no allocation nothing changes. */
    method AllocatePrefer(size: nat, align: nat, region: Option<Range>, limit: nat)
      returns (r: Outcome<Option<nat>>, ghost c: Choice)
      requires Valid() && size <= MAX && align <= MAX && limit <= MAX
      requires region.Some? ==> region.value.start <= MAX && region.value.end <= MAX
      modifies this, ranges
      ensures r.Returned? ==> Valid()
      ensures r.Returned? && (size == 0 || Ones(align) != 1) ==> r.value.None?
      ensures r.Returned? && r.value.None? ==> Entries() == old(Entries())
      ensures r.Returned? && r.value.Some? ==>
                && size > 0 && align > 0 && r.value.value == c.ptr
                && Settled(old(Entries()), Request(size, align, region, limit), c)
                && (forall x: nat :: Covers(Entries(), x) <==> Covers(old(Entries()), x) && !(c.base <= x <= c.end))
      ensures size > 0 && Ones(align) == 1 ==>
                align > 0 && (r == Returned(None) <==> GivesUp(old(Entries()), Request(size, align, region, limit)))
      ensures r.Panicked? ==> size > 0 && align > 0 && Settled(old(Entries()), Request(size, align, region, limit), c)
      ensures r.Panicked? || (r.Returned? && r.value.Some?) ==>
                (r.Panicked? <==> old(inUse) == CAPACITY && SomeSplits(old(Entries()), Range(c.base, c.end)))
    {
      c := Choice(0, 0, 0);
      if size == 0 { return Returned(None), c; }
      if Ones(align) != 1 { return Returned(None), c; }
      hide Ones, Settled, GivesUp, Fix;
      OneBitPositive(align);
      var q := Request(size, align, region, limit);
      var best := FindBlock(q);
      match best
      case None => return Returned(None), c;
      case Some(b) =>
        c := b;
        SettledShape(Entries(), q, b);
        var removed := Remove(Range(b.base, b.end));
        if removed.Panicked? { return Panicked, c; }
        return Returned(Some(b.ptr)), c;
    }
  }
}
