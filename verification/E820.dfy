/** Building the free-memory set from the memory map that the BIOS reports. */
module E820 {
  import opened Basics
  import opened Ranges
  import opened RangeTheorems
  import opened RangeSets

  /** One reported entry; type 1 is free memory. */
  datatype Entry = Entry(base: nat, size: nat, typ: nat)

  const FREE: nat := 1
  const ONE_MIB: nat := 1024 * 1024

  predicate Spans(e: Entry, x: nat) { e.base <= x < e.base + e.size }

  ghost predicate SomeFree(m: seq<Entry>, x: nat) { exists i :: 0 <= i < |m| && m[i].typ == FREE && Spans(m[i], x) }

  ghost predicate SomeUsed(m: seq<Entry>, x: nat) { exists i :: 0 <= i < |m| && m[i].typ != FREE && Spans(m[i], x) }

  lemma SomeFreeNext(m: seq<Entry>, n: nat, x: nat)
    requires n < |m|
    ensures SomeFree(m[..n + 1], x) <==> SomeFree(m[..n], x) || (m[n].typ == FREE && Spans(m[n], x))
  {
    var p, q := m[..n], m[..n + 1];
    if SomeFree(p, x) {
      var i :| 0 <= i < |p| && p[i].typ == FREE && Spans(p[i], x);
      assert q[i] == p[i];
    }
    if m[n].typ == FREE && Spans(m[n], x) { assert q[n] == m[n]; }
    if SomeFree(q, x) {
      var i :| 0 <= i < |q| && q[i].typ == FREE && Spans(q[i], x);
      if i < n { assert p[i] == q[i]; }
    }
  }

  lemma SomeUsedNext(m: seq<Entry>, n: nat, x: nat)
    requires n < |m|
    ensures SomeUsed(m[..n + 1], x) <==> SomeUsed(m[..n], x) || (m[n].typ != FREE && Spans(m[n], x))
  {
    var p, q := m[..n], m[..n + 1];
    if SomeUsed(p, x) {
      var i :| 0 <= i < |p| && p[i].typ != FREE && Spans(p[i], x);
      assert q[i] == p[i];
    }
    if m[n].typ != FREE && Spans(m[n], x) { assert q[n] == m[n]; }
    if SomeUsed(q, x) {
      var i :| 0 <= i < |q| && q[i].typ != FREE && Spans(q[i], x);
      if i < n { assert p[i] == q[i]; }
    }
  }

  function Block(e: Entry): Range
    requires e.size > 0
  {
    Range(e.base, e.base + (e.size - 1))
  }

  /** The first pass fails at entry `i`: its end is not a 64-bit number, or the free memory
      reported before it takes 256 ranges and none of them touches it. */
  ghost predicate FreeStuck(m: seq<Entry>, i: nat)
    requires i < |m|
  {
    && m[i].typ == FREE && m[i].size > 0
    && (Block(m[i]).end > MAX || exists e :: FullFree(m, i, e) && !SomeTouches(e, Block(m[i])))
  }

  ghost predicate FullFree(m: seq<Entry>, i: nat, e: seq<Range>)
    requires i <= |m|
  {
    Canon(e) && |e| == CAPACITY && forall x: nat :: Covers(e, x) <==> SomeFree(m[..i], x)
  }

  /** The second pass fails at entry `i`: its end is not a 64-bit number, or the memory left
      takes 256 ranges and the entry splits one of them. */
  ghost predicate UsedStuck(m: seq<Entry>, i: nat)
    requires i < |m|
  {
    && m[i].typ != FREE && m[i].size > 0
    && (Block(m[i]).end > MAX || exists e :: FullLeft(m, i, e) && SomeSplits(e, Block(m[i])))
  }

  ghost predicate FullLeft(m: seq<Entry>, i: nat, e: seq<Range>)
    requires i <= |m|
  {
    Canon(e) && |e| == CAPACITY && forall x: nat :: Covers(e, x) <==> SomeFree(m, x) && !SomeUsed(m[..i], x)
  }

  lemma FreeStuckHere(m: seq<Entry>, i: nat, now: seq<Range>)
    requires i < |m| && Canon(now) && forall x: nat :: Covers(now, x) <==> SomeFree(m[..i], x)
    ensures FreeStuck(m, i) <==>
              && m[i].typ == FREE && m[i].size > 0
              && (Block(m[i]).end > MAX || (|now| == CAPACITY && !SomeTouches(now, Block(m[i]))))
  {
    hide Canon, Covers, SomeFree, SomeTouches, SomeSplits;
    if m[i].size > 0 {
      if |now| == CAPACITY { assert FullFree(m, i, now); }
      if e :| FullFree(m, i, e) && !SomeTouches(e, Block(m[i])) {
        assert SameAddrs(e, now);
        SameShape(e, now, Block(m[i]));
      }
    }
  }

  lemma UsedStuckHere(m: seq<Entry>, i: nat, now: seq<Range>)
    requires i < |m| && Canon(now) && forall x: nat :: Covers(now, x) <==> SomeFree(m, x) && !SomeUsed(m[..i], x)
    ensures UsedStuck(m, i) <==>
              && m[i].typ != FREE && m[i].size > 0
              && (Block(m[i]).end > MAX || (|now| == CAPACITY && SomeSplits(now, Block(m[i]))))
  {
    hide Canon, Covers, SomeFree, SomeUsed, SomeTouches, SomeSplits;
    if m[i].size > 0 {
      if |now| == CAPACITY { assert FullLeft(m, i, now); }
      if e :| FullLeft(m, i, e) && SomeSplits(e, Block(m[i])) {
        assert SameAddrs(e, now);
        SameShape(e, now, Block(m[i]));
      }
    }
  }

  /** Nothing starts below address zero. */
  lemma NothingBelow(s: seq<Range>)
    ensures !SomeSplits(s, Range(0, ONE_MIB - 1))
  {
  }

  /** Reads the map twice: the first pass adds all free memory, the second takes out all
      memory that some entry calls used; then the first MiB goes. Whatever the order and the
      overlaps of the entries, what is left is the memory that is called free, never called
      used, and above the first MiB. Panics exactly when a pass fails at some entry. */
  method Init(m: seq<Entry>) returns (r: Outcome<RangeSet>)
    requires m != [] && forall i :: 0 <= i < |m| ==> m[i].base <= MAX && m[i].size <= MAX
    ensures r.Panicked? <==> exists i :: 0 <= i < |m| && (FreeStuck(m, i) || UsedStuck(m, i))
    ensures r.Returned? ==>
              && fresh(r.value) && r.value.Valid()
              && (forall x: nat :: Covers(r.value.Entries(), x) <==> SomeFree(m, x) && !SomeUsed(m, x) && x >= ONE_MIB)
  {
    hide Canon, Covers, SomeFree, SomeUsed, SomeTouches, SomeSplits, FreeStuck, UsedStuck;
    var set0 := new RangeSet();
    EmptyStart(m);
    for ii := 0 to |m|
      invariant set0.Valid() && fresh(set0) && fresh(set0.ranges)
      invariant forall x: nat :: Covers(set0.Entries(), x) <==> SomeFree(m[..ii], x)
      invariant forall k :: 0 <= k < ii ==> !FreeStuck(m, k)
    {
      var e := m[ii];
      ghost var before := set0.Entries();
      FreeStuckHere(m, ii, before);
      if e.typ == FREE && e.size > 0 {
        if e.base + (e.size - 1) > MAX { return Panicked; }
        var ok := set0.Insert(Range(e.base, e.base + (e.size - 1)));
        if ok.Panicked? { return Panicked; }
      }
      forall x: nat
        ensures Covers(set0.Entries(), x) <==> SomeFree(m[..ii + 1], x)
      {
        SomeFreeNext(m, ii, x);
        assert Covers(before, x) <==> SomeFree(m[..ii], x);
      }
    }
    assert m[..|m|] == m;
    for ii := 0 to |m|
      invariant set0.Valid() && fresh(set0) && fresh(set0.ranges)
      invariant forall x: nat :: Covers(set0.Entries(), x) <==> SomeFree(m, x) && !SomeUsed(m[..ii], x)
      invariant forall k :: 0 <= k < ii ==> !UsedStuck(m, k)
    {
      var e := m[ii];
      ghost var before := set0.Entries();
      UsedStuckHere(m, ii, before);
      if e.typ != FREE && e.size > 0 {
        if e.base + (e.size - 1) > MAX { return Panicked; }
        var ok := set0.Remove(Range(e.base, e.base + (e.size - 1)));
        if ok.Panicked? { return Panicked; }
      }
      forall x: nat
        ensures Covers(set0.Entries(), x) <==> SomeFree(m, x) && !SomeUsed(m[..ii + 1], x)
      {
        SomeUsedNext(m, ii, x);
        assert Covers(before, x) <==> SomeFree(m, x) && !SomeUsed(m[..ii], x);
      }
    }
    NothingBelow(set0.Entries());
    var ok := set0.Remove(Range(0, ONE_MIB - 1));
    if ok.Panicked? { return Panicked; }
    return Returned(set0);
  }

  lemma EmptyStart(m: seq<Entry>)
    ensures forall x: nat :: !Covers([], x) && !SomeFree(m[..0], x) && !SomeUsed(m[..0], x)
  {
  }

  /** The order of the entries does not matter. */
  lemma OrderIrrelevant(m: seq<Entry>, m': seq<Entry>, x: nat)
    requires multiset(m) == multiset(m')
    ensures SomeFree(m, x) == SomeFree(m', x) && SomeUsed(m, x) == SomeUsed(m', x)
  {
    SameMembers(m, m');
    MemberForms(m, x);
    MemberForms(m', x);
  }

  lemma MemberForms(m: seq<Entry>, x: nat)
    ensures SomeFree(m, x) <==> exists e :: e in m && e.typ == FREE && Spans(e, x)
    ensures SomeUsed(m, x) <==> exists e :: e in m && e.typ != FREE && Spans(e, x)
  {
    if e :| e in m && e.typ == FREE && Spans(e, x) {
      var i :| 0 <= i < |m| && m[i] == e;
      assert SomeFree(m, x);
    }
    if e :| e in m && e.typ != FREE && Spans(e, x) {
      var i :| 0 <= i < |m| && m[i] == e;
      assert SomeUsed(m, x);
    }
  }
}
