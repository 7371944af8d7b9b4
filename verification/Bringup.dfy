/** How the first core starts the others and all of them wait for each other, one access to
    shared memory at a time. */
module CoreBringup {
  import opened Basics

  datatype ApicState = Online | Launched | Offline | Absent

  /** Where a core is: not running, in the kernel before its check-in, marked online, counted
      and waiting, past the check-in, or stopped by a failed assertion. */
  datatype Pc = Down | Starting | Marked | Waiting | Left | Failed

  /** Where the first core is before its own check-in: storing the core count, marking the
      cores offline, marking itself online, launching core `i` (about to mark it, to send it
      the start signals, watching for it), or done. */
  datatype Boss = Storing | Marking(i: nat) | SelfOnline | Launching(i: nat) | Sending(i: nat) | Watching(i: nat) | Done

  datatype State = State(total: nat, apics: map<nat, ApicState>, checkedIn: nat, boss: Boss, pcs: map<nat, Pc>)

  datatype Step = BossStep | Swap(core: nat) | CheckIn(core: nat) | Leave(core: nat)

  const MAX_CORES: nat := 1024

  /** The cores listed by the firmware, each once. */
  ghost predicate IdsOk(ids: seq<nat>) { (forall i :: 0 <= i < |ids| ==> ids[i] < MAX_CORES) && Distinct(ids) }

  /** The same, with the first core among them. */
  ghost predicate ListOk(ids: seq<nat>, bsp: nat) { IdsOk(ids) && bsp in ids }

  /** The cores there are: the first, and those it launches. */
  predicate IsCore(ids: seq<nat>, bsp: nat, c: nat) { c in ids || c == bsp }

  ghost predicate Complete(s: State, ids: seq<nat>) { forall a :: a in ids ==> a in s.apics && a in s.pcs }

  /** A waiting loop whose condition does not hold takes no step. */
  ghost predicate Enabled(s: State, ids: seq<nat>, bsp: nat, e: Step) {
    match e
    case BossStep =>
      (match s.boss
       case Storing | SelfOnline => true
       case Marking(i) => i <= |ids|
       case Launching(i) => i <= |ids|
       case Sending(i) => i < |ids|
       case Watching(i) => i < |ids| && ids[i] in s.apics && s.apics[ids[i]].Online?
       case Done => false)
    case Swap(c) => IsCore(ids, bsp, c) && c in s.pcs && c in s.apics && s.pcs[c].Starting?
    case CheckIn(c) => IsCore(ids, bsp, c) && c in s.pcs && s.pcs[c].Marked?
    case Leave(c) => IsCore(ids, bsp, c) && c in s.pcs && s.pcs[c].Waiting? && s.total > 0 && s.checkedIn == s.total
  }

  function After(s: State, ids: seq<nat>, bsp: nat, e: Step): State
    requires Enabled(s, ids, bsp, e)
  {
    match e
    case BossStep =>
      (match s.boss
       case Storing => s.(total := |ids|, boss := Marking(0))
       case Marking(i) =>
         if i < |ids| then s.(apics := s.apics[ids[i] := Offline], boss := Marking(i + 1)) else s.(boss := SelfOnline)
       case SelfOnline => s.(apics := s.apics[bsp := Online], boss := Launching(0))
       case Launching(i) =>
         if i == |ids| then s.(boss := Done, pcs := s.pcs[bsp := Starting])
         else if ids[i] == bsp then s.(boss := Launching(i + 1))
         else s.(apics := s.apics[ids[i] := Launched], boss := Sending(i))
       case Sending(i) => s.(pcs := s.pcs[ids[i] := Starting], boss := Watching(i))
       case Watching(i) => s.(boss := Launching(i + 1)))
    case Swap(c) =>
      var was := s.apics[c];
      var swapped := if was.Launched? then s.apics[c := Online] else s.apics;
      var fine := if c == bsp then was.Online? else was.Launched?;
      s.(apics := swapped, pcs := s.pcs[c := if fine then Marked else Failed])
    case CheckIn(c) => s.(checkedIn := s.checkedIn + 1, pcs := s.pcs[c := Waiting])
    case Leave(c) => s.(pcs := s.pcs[c := Left])
  }

  // ----- the invariant -----

  /** Core number `j` of the list as the first core's progress says it must be. */
  ghost predicate CoreOk(s: State, ids: seq<nat>, bsp: nat, j: nat)
    requires j < |ids| && Complete(s, ids)
  {
    var a, p := s.apics[ids[j]], s.pcs[ids[j]];
    var begun := (a.Launched? && p.Starting?) || (a.Online? && (p.Marked? || p.Waiting? || p.Left?));
    match s.boss
    case Storing => p.Down? && a.Absent?
    case Marking(i) => p.Down? && (j < i ==> a.Offline?) && (j >= i ==> a.Absent?)
    case SelfOnline => p.Down? && a.Offline?
    case Launching(i) =>
      if ids[j] == bsp then p.Down? && a.Online?
      else if j < i then a.Online? && begun else p.Down? && a.Offline?
    case Sending(i) =>
      if ids[j] == bsp then p.Down? && a.Online?
      else if j < i then a.Online? && begun else p.Down? && if j == i then a.Launched? else a.Offline?
    case Watching(i) =>
      if ids[j] == bsp then p.Down? && a.Online?
      else if j < i then a.Online? && begun else if j == i then begun else p.Down? && a.Offline?
    case Done => a.Online? && (begun || (ids[j] == bsp && p.Starting?))
  }

  ghost predicate BossOk(s: State, ids: seq<nat>, bsp: nat) {
    match s.boss
    case Storing => s.total == 0
    case Marking(i) => s.total == |ids| && i <= |ids|
    case SelfOnline => s.total == |ids|
    case Launching(i) => s.total == |ids| && i <= |ids|
    case Sending(i) => s.total == |ids| && i < |ids| && ids[i] != bsp
    case Watching(i) => s.total == |ids| && i < |ids| && ids[i] != bsp
    case Done => s.total == |ids|
  }

  predicate Counted(p: Pc) { p.Waiting? || p.Left? }

  /** The cores that have been counted. */
  ghost function CheckedIn(s: State, ids: seq<nat>): set<nat> { set a | a in ids && a in s.pcs && Counted(s.pcs[a]) }

  ghost predicate Inv(s: State, ids: seq<nat>, bsp: nat) {
    && ListOk(ids, bsp) && Complete(s, ids) && BossOk(s, ids, bsp)
    && (forall j :: 0 <= j < |ids| ==> CoreOk(s, ids, bsp, j))
    && s.checkedIn == |CheckedIn(s, ids)|
    && ((exists a :: a in ids && s.pcs[a].Left?) ==> s.checkedIn == |ids|)
  }

  /** What one operation of the first core means for core number `j`. */
  lemma BossCore(s: State, ids: seq<nat>, bsp: nat, j: nat)
    requires ListOk(ids, bsp) && Complete(s, ids) && BossOk(s, ids, bsp) && j < |ids| && CoreOk(s, ids, bsp, j)
    requires Enabled(s, ids, bsp, BossStep)
    ensures var s' := After(s, ids, bsp, BossStep);
            && Complete(s', ids) && CoreOk(s', ids, bsp, j)
            && Counted(s'.pcs[ids[j]]) == Counted(s.pcs[ids[j]]) && s'.pcs[ids[j]].Left? == s.pcs[ids[j]].Left?
  {
  }

  lemma BossKeeps(s: State, ids: seq<nat>, bsp: nat)
    requires Inv(s, ids, bsp) && Enabled(s, ids, bsp, BossStep)
    ensures Inv(After(s, ids, bsp, BossStep), ids, bsp)
  {
    hide CoreOk;
    var s' := After(s, ids, bsp, BossStep);
    forall j | 0 <= j < |ids|
      ensures CoreOk(s', ids, bsp, j) && Counted(s'.pcs[ids[j]]) == Counted(s.pcs[ids[j]])
      ensures s'.pcs[ids[j]].Left? == s.pcs[ids[j]].Left?
    {
      BossCore(s, ids, bsp, j);
    }
    assert CheckedIn(s', ids) == CheckedIn(s, ids);
  }

  lemma SwapKeeps(s: State, ids: seq<nat>, bsp: nat, c: nat)
    requires Inv(s, ids, bsp) && Enabled(s, ids, bsp, Swap(c))
    ensures Inv(After(s, ids, bsp, Swap(c)), ids, bsp)
  {
    var s' := After(s, ids, bsp, Swap(c));
    forall j | 0 <= j < |ids|
      ensures CoreOk(s', ids, bsp, j)
    {
      assert CoreOk(s, ids, bsp, j);
    }
    assert CheckedIn(s', ids) == CheckedIn(s, ids);
  }

  lemma CheckInKeeps(s: State, ids: seq<nat>, bsp: nat, c: nat)
    requires Inv(s, ids, bsp) && Enabled(s, ids, bsp, CheckIn(c))
    ensures Inv(After(s, ids, bsp, CheckIn(c)), ids, bsp)
  {
    hide CoreOk, Distinct;
    var s' := After(s, ids, bsp, CheckIn(c));
    forall j | 0 <= j < |ids|
      ensures CoreOk(s', ids, bsp, j)
    {
      CheckInCore(s, ids, bsp, c, j);
    }
    assert CheckedIn(s', ids) == CheckedIn(s, ids) + {c};
    if s.checkedIn == |ids| {
      AllCounted(s, ids, bsp);
    }
  }

  lemma CheckInCore(s: State, ids: seq<nat>, bsp: nat, c: nat, j: nat)
    requires ListOk(ids, bsp) && Complete(s, ids) && j < |ids| && CoreOk(s, ids, bsp, j)
    requires Enabled(s, ids, bsp, CheckIn(c))
    ensures Complete(After(s, ids, bsp, CheckIn(c)), ids) && CoreOk(After(s, ids, bsp, CheckIn(c)), ids, bsp, j)
  {
  }

  lemma LeaveKeeps(s: State, ids: seq<nat>, bsp: nat, c: nat)
    requires Inv(s, ids, bsp) && Enabled(s, ids, bsp, Leave(c))
    ensures Inv(After(s, ids, bsp, Leave(c)), ids, bsp)
  {
    var s' := After(s, ids, bsp, Leave(c));
    forall j | 0 <= j < |ids|
      ensures CoreOk(s', ids, bsp, j)
    {
      assert CoreOk(s, ids, bsp, j);
    }
    assert CheckedIn(s', ids) == CheckedIn(s, ids);
  }

  ghost function Members(ids: seq<nat>): set<nat> { set a | a in ids }

  lemma {:induction false} SizeOfList(ids: seq<nat>)
    requires Distinct(ids)
    ensures |Members(ids)| == |ids|
  {
    if ids != [] {
      var n := |ids| - 1;
      SizeOfList(ids[..n]);
      assert ids == ids[..n] + [ids[n]];
      assert Members(ids) == Members(ids[..n]) + {ids[n]};
    }
  }

  /** When the count is full every core has been counted. */
  lemma AllCounted(s: State, ids: seq<nat>, bsp: nat)
    requires Inv(s, ids, bsp) && s.checkedIn == |ids|
    ensures forall a :: a in ids ==> Counted(s.pcs[a])
  {
    SizeOfList(ids);
    SubsetSize(CheckedIn(s, ids), Members(ids));
    assert forall a :: a in ids ==> a in Members(ids) && a in CheckedIn(s, ids);
  }

  lemma StepKeeps(s: State, ids: seq<nat>, bsp: nat, e: Step)
    requires Inv(s, ids, bsp) && Enabled(s, ids, bsp, e)
    ensures Inv(After(s, ids, bsp, e), ids, bsp)
  {
    hide Inv;
    match e
    case BossStep => BossKeeps(s, ids, bsp);
    case Swap(c) => SwapKeeps(s, ids, bsp, c);
    case CheckIn(c) => CheckInKeeps(s, ids, bsp, c);
    case Leave(c) => LeaveKeeps(s, ids, bsp, c);
  }

  // ----- whole runs -----

  /** Power-on: no core is known, none but the first runs. */
  ghost predicate Start(s: State, ids: seq<nat>, bsp: nat) {
    && IdsOk(ids) && s.total == 0 && s.checkedIn == 0 && s.boss.Storing?
    && (forall a :: IsCore(ids, bsp, a) ==> a in s.apics && a in s.pcs && s.apics[a].Absent? && s.pcs[a].Down?)
  }

  ghost predicate Run(s: State, ids: seq<nat>, bsp: nat, steps: seq<Step>, t: State)
    decreases |steps|
  {
    if steps == [] then s == t
    else Enabled(s, ids, bsp, steps[0]) && Run(After(s, ids, bsp, steps[0]), ids, bsp, steps[1..], t)
  }

  lemma {:induction false} RunKeeps(s: State, ids: seq<nat>, bsp: nat, steps: seq<Step>, t: State)
    requires Inv(s, ids, bsp) && Run(s, ids, bsp, steps, t)
    ensures Inv(t, ids, bsp)
    decreases |steps|
  {
    hide Inv, After, Enabled;
    if steps != [] {
      StepKeeps(s, ids, bsp, steps[0]);
      RunKeeps(After(s, ids, bsp, steps[0]), ids, bsp, steps[1..], t);
    }
  }

  lemma Reached(s: State, ids: seq<nat>, bsp: nat, steps: seq<Step>, t: State)
    requires bsp in ids && Start(s, ids, bsp) && Run(s, ids, bsp, steps, t)
    ensures Inv(t, ids, bsp)
  {
    assert CheckedIn(s, ids) == {};
    assert Inv(s, ids, bsp);
    hide Run, Inv;
    RunKeeps(s, ids, bsp, steps, t);
  }

  /** The one order in which the state of a core other than the first may change. */
  predicate Follows(a: ApicState, b: ApicState) {
    a == b || (a.Absent? && b.Offline?) || (a.Offline? && b.Launched?) || (a.Launched? && b.Online?)
  }

  /** Each application core goes from offline to launched to online and never back, and no
      core fails an assertion of the check-in. */
  lemma InOrder(s: State, ids: seq<nat>, bsp: nat, steps: seq<Step>, t: State, e: Step, a: nat)
    requires bsp in ids && Start(s, ids, bsp) && Run(s, ids, bsp, steps, t) && Enabled(t, ids, bsp, e) && a in ids
    ensures Complete(t, ids) && Complete(After(t, ids, bsp, e), ids)
    ensures a != bsp ==> Follows(t.apics[a], After(t, ids, bsp, e).apics[a])
    ensures !After(t, ids, bsp, e).pcs[a].Failed?
  {
    Reached(s, ids, bsp, steps, t);
    hide Run, Start, CheckedIn, CoreOk;
    var j :| 0 <= j < |ids| && ids[j] == a;
    CoreFollows(t, ids, bsp, e, j);
  }

  lemma CoreFollows(t: State, ids: seq<nat>, bsp: nat, e: Step, j: nat)
    requires ListOk(ids, bsp) && Complete(t, ids) && BossOk(t, ids, bsp) && j < |ids| && CoreOk(t, ids, bsp, j)
    requires Enabled(t, ids, bsp, e)
    ensures var t' := After(t, ids, bsp, e);
            && Complete(t', ids) && (ids[j] != bsp ==> Follows(t.apics[ids[j]], t'.apics[ids[j]]))
            && !t'.pcs[ids[j]].Failed?
  {
  }

  /** A core that is past the check-in leaves every core online and counted behind it. */
  lemma NobodyLeavesEarly(s: State, ids: seq<nat>, bsp: nat, steps: seq<Step>, t: State, c: nat)
    requires bsp in ids && Start(s, ids, bsp) && Run(s, ids, bsp, steps, t) && c in ids && c in t.pcs && t.pcs[c].Left?
    ensures t.checkedIn == t.total == |ids|
    ensures forall a :: a in ids ==> a in t.apics && a in t.pcs && t.apics[a].Online? && Counted(t.pcs[a])
  {
    Reached(s, ids, bsp, steps, t);
    AllCounted(t, ids, bsp);
    forall a | a in ids
      ensures t.apics[a].Online? && !t.boss.Storing?
    {
      var j :| 0 <= j < |ids| && ids[j] == a;
      assert CoreOk(t, ids, bsp, j);
    }
    assert bsp in ids;
  }

  // ----- progress -----

  /** Whatever state is reached, some core can go on unless all are past the check-in. */
  lemma SomebodyMoves(s: State, ids: seq<nat>, bsp: nat, steps: seq<Step>, t: State)
    requires bsp in ids && Start(s, ids, bsp) && Run(s, ids, bsp, steps, t)
    ensures (exists e :: Enabled(t, ids, bsp, e)) || (forall a :: a in ids ==> a in t.pcs && t.pcs[a].Left?)
  {
    Reached(s, ids, bsp, steps, t);
    hide Run;
    if !t.boss.Done? {
      BossCanMove(t, ids, bsp);
    } else if a :| a in ids && !t.pcs[a].Left? {
      CoreCanMove(t, ids, bsp);
    }
  }

  /** While the first core is busy it, or the core it watches, can go on. */
  lemma BossCanMove(t: State, ids: seq<nat>, bsp: nat)
    requires Inv(t, ids, bsp) && !t.boss.Done?
    ensures exists e :: Enabled(t, ids, bsp, e)
  {
    if t.boss.Watching? {
      assert CoreOk(t, ids, bsp, t.boss.i);
      var c := ids[t.boss.i];
      if t.apics[c].Online? { assert Enabled(t, ids, bsp, BossStep); } else { assert Enabled(t, ids, bsp, Swap(c)); }
    } else {
      assert Enabled(t, ids, bsp, BossStep);
    }
  }

  /** Once the first core is done any core can go on until it is past the check-in, and if all
      others wait the count is full. */
  lemma CoreCanMove(t: State, ids: seq<nat>, bsp: nat)
    requires Inv(t, ids, bsp) && t.boss.Done? && exists a :: a in ids && !t.pcs[a].Left?
    ensures exists e :: Enabled(t, ids, bsp, e)
  {
    if a :| a in ids && !Counted(t.pcs[a]) {
      var j :| 0 <= j < |ids| && ids[j] == a;
      assert CoreOk(t, ids, bsp, j);
      if t.pcs[a].Starting? { assert Enabled(t, ids, bsp, Swap(a)); } else { assert Enabled(t, ids, bsp, CheckIn(a)); }
    } else {
      var a :| a in ids && !t.pcs[a].Left?;
      SizeOfList(ids);
      assert CheckedIn(t, ids) == Members(ids);
      assert Enabled(t, ids, bsp, Leave(a));
    }
  }

  function PcWork(p: Pc): nat {
    match p
    case Down => 4
    case Starting => 3
    case Marked => 2
    case Waiting => 1
    case _ => 0
  }

  function BossWork(b: Boss, n: nat): int {
    match b
    case Storing => 4 * n + 4
    case Marking(i) => 4 * n + 3 - i
    case SelfOnline => 3 * n + 2
    case Launching(i) => 3 * (n - i) + 1
    case Sending(i) => 3 * (n - i)
    case Watching(i) => 3 * (n - i) - 1
    case Done => 0
  }

  ghost function CoresWork(s: State, ids: seq<nat>): nat {
    if ids == [] then 0
    else CoresWork(s, ids[1..]) + if ids[0] in s.pcs then PcWork(s.pcs[ids[0]]) else 0
  }

  lemma {:induction false} LessWork(s: State, s': State, ids: seq<nat>, c: nat)
    requires forall a :: a in ids ==> a in s.pcs && a in s'.pcs && PcWork(s'.pcs[a]) <= PcWork(s.pcs[a])
    ensures CoresWork(s', ids) <= CoresWork(s, ids)
    ensures c in ids && PcWork(s'.pcs[c]) < PcWork(s.pcs[c]) ==> CoresWork(s', ids) < CoresWork(s, ids)
    decreases |ids|
  {
    if ids != [] { LessWork(s, s', ids[1..], c); }
  }

  ghost function Work(s: State, ids: seq<nat>): int { BossWork(s.boss, |ids|) + CoresWork(s, ids) }

  lemma OneCoresWork(s: State, ids: seq<nat>, bsp: nat, e: Step, j: nat)
    requires ListOk(ids, bsp) && Complete(s, ids) && BossOk(s, ids, bsp) && j < |ids| && CoreOk(s, ids, bsp, j)
    requires Enabled(s, ids, bsp, e)
    ensures var s' := After(s, ids, bsp, e);
            && ids[j] in s'.pcs && PcWork(s'.pcs[ids[j]]) <= PcWork(s.pcs[ids[j]])
            && (!e.BossStep? && e.core == ids[j] ==> PcWork(s'.pcs[ids[j]]) < PcWork(s.pcs[ids[j]]))
  {
  }

  lemma NoMoreWork(s: State, ids: seq<nat>, bsp: nat, e: Step)
    requires Inv(s, ids, bsp) && Enabled(s, ids, bsp, e)
    ensures CoresWork(After(s, ids, bsp, e), ids) <= CoresWork(s, ids)
    ensures !e.BossStep? ==> CoresWork(After(s, ids, bsp, e), ids) < CoresWork(s, ids)
  {
    var s' := After(s, ids, bsp, e);
    hide CoreOk, CheckedIn, BossOk, BossWork;
    forall a | a in ids
      ensures a in s.pcs && a in s'.pcs && PcWork(s'.pcs[a]) <= PcWork(s.pcs[a])
      ensures !e.BossStep? && e.core == a ==> PcWork(s'.pcs[a]) < PcWork(s.pcs[a])
    {
      var j :| 0 <= j < |ids| && ids[j] == a;
      OneCoresWork(s, ids, bsp, e, j);
    }
    hide After, Enabled;
    LessWork(s, s', ids, if e.BossStep? then bsp else e.core);
  }

  lemma BossShrinks(s: State, ids: seq<nat>, bsp: nat)
    requires BossOk(s, ids, bsp) && Enabled(s, ids, bsp, BossStep)
    ensures BossWork(After(s, ids, bsp, BossStep).boss, |ids|) < BossWork(s.boss, |ids|)
  {
  }

  lemma WorkShrinks(s: State, ids: seq<nat>, bsp: nat, e: Step)
    requires Inv(s, ids, bsp) && Enabled(s, ids, bsp, e)
    ensures Work(After(s, ids, bsp, e), ids) < Work(s, ids)
  {
    NoMoreWork(s, ids, bsp, e);
    if e.BossStep? { BossShrinks(s, ids, bsp); }
    hide Inv, CoresWork, BossWork;
  }

  lemma {:induction false} RunLength(s: State, ids: seq<nat>, bsp: nat, steps: seq<Step>, t: State)
    requires Inv(s, ids, bsp) && Run(s, ids, bsp, steps, t)
    ensures |steps| <= Work(s, ids) - Work(t, ids)
    decreases |steps|
  {
    hide Inv, After, Enabled, Work;
    if steps != [] {
      WorkShrinks(s, ids, bsp, steps[0]);
      StepKeeps(s, ids, bsp, steps[0]);
      RunLength(After(s, ids, bsp, steps[0]), ids, bsp, steps[1..], t);
    }
  }

  lemma {:induction false} StartWork(s: State, ids: seq<nat>)
    requires forall a :: a in ids ==> a in s.pcs && s.pcs[a].Down?
    ensures CoresWork(s, ids) == 4 * |ids|
    decreases |ids|
  {
    if ids != [] { StartWork(s, ids[1..]); }
  }

  /** No run is longer than eight operations for each core and four more. So every run comes to
      its end, which is that all cores are past the check-in. */
  lemma AllCoresReleased(s: State, ids: seq<nat>, bsp: nat, steps: seq<Step>, t: State)
    requires bsp in ids && Start(s, ids, bsp) && Run(s, ids, bsp, steps, t)
    ensures |steps| <= 8 * |ids| + 4
    ensures (forall e :: !Enabled(t, ids, bsp, e)) ==> forall a :: a in ids ==> a in t.pcs && t.pcs[a].Left?
  {
    assert CheckedIn(s, ids) == {};
    assert Inv(s, ids, bsp);
    Reached(s, ids, bsp, steps, t);
    WorkLeft(t, ids, bsp);
    StartWork(s, ids);
    SomebodyMoves(s, ids, bsp, steps, t);
    RunLength(s, ids, bsp, steps, t);
  }

  lemma WorkLeft(t: State, ids: seq<nat>, bsp: nat)
    requires Inv(t, ids, bsp)
    ensures Work(t, ids) >= 0
  {
  }

  // ----- a list without the first core -----

  ghost predicate Reaches(s: State, ids: seq<nat>, bsp: nat, t: State) { exists steps :: Run(s, ids, bsp, steps, t) }

  lemma ReachSelf(s: State, ids: seq<nat>, bsp: nat)
    ensures Reaches(s, ids, bsp, s)
  {
    assert Run(s, ids, bsp, [], s);
  }

  lemma ReachStep(s: State, ids: seq<nat>, bsp: nat, e: Step, t: State)
    requires Enabled(s, ids, bsp, e) && Reaches(After(s, ids, bsp, e), ids, bsp, t)
    ensures Reaches(s, ids, bsp, t)
  {
    var steps :| Run(After(s, ids, bsp, e), ids, bsp, steps, t);
    assert ([e] + steps)[1..] == steps;
    assert Run(s, ids, bsp, [e] + steps, t);
  }

  /** The first core has yet to check in, the first `i` cores it launched wait to be released. */
  ghost predicate Lined(s: State, ids: seq<nat>, bsp: nat, i: nat) {
    && Complete(s, ids) && bsp in s.pcs && s.pcs[bsp].Down? && s.total == |ids| && s.checkedIn == i <= |ids|
    && s.boss == Launching(i)
    && (forall j :: 0 <= j < |ids| ==> if j < i then s.pcs[ids[j]].Waiting? else s.pcs[ids[j]].Down?)
  }

  /** The next core launched, up to where it waits. */
  lemma LineUp(s: State, ids: seq<nat>, bsp: nat, i: nat) returns (t: State)
    requires IdsOk(ids) && bsp !in ids && i < |ids| && Lined(s, ids, bsp, i)
    ensures Lined(t, ids, bsp, i + 1)
    ensures forall u :: Reaches(t, ids, bsp, u) ==> Reaches(s, ids, bsp, u)
  {
    var s1 := After(s, ids, bsp, BossStep);
    var s2 := After(s1, ids, bsp, BossStep);
    var s3 := After(s2, ids, bsp, Swap(ids[i]));
    var s4 := After(s3, ids, bsp, CheckIn(ids[i]));
    t := After(s4, ids, bsp, BossStep);
    forall u | Reaches(t, ids, bsp, u)
      ensures Reaches(s, ids, bsp, u)
    {
      hide After, Reaches, Lined;
      ReachStep(s4, ids, bsp, BossStep, u);
      ReachStep(s3, ids, bsp, CheckIn(ids[i]), u);
      ReachStep(s2, ids, bsp, Swap(ids[i]), u);
      ReachStep(s1, ids, bsp, BossStep, u);
      ReachStep(s, ids, bsp, BossStep, u);
    }
  }

  lemma {:induction false} LineAll(s: State, ids: seq<nat>, bsp: nat, i: nat) returns (t: State)
    requires IdsOk(ids) && bsp !in ids && i <= |ids| && Lined(s, ids, bsp, i)
    ensures Lined(t, ids, bsp, |ids|) && Reaches(s, ids, bsp, t)
    decreases |ids| - i
  {
    hide Lined, Reaches;
    if i == |ids| {
      ReachSelf(s, ids, bsp);
      t := s;
    } else {
      var u := LineUp(s, ids, bsp, i);
      t := LineAll(u, ids, bsp, i + 1);
    }
  }

  ghost predicate AllDown(s: State, ids: seq<nat>, bsp: nat) {
    && Complete(s, ids) && bsp in s.pcs && s.pcs[bsp].Down? && s.checkedIn == 0 && s.total == |ids|
    && (forall a :: a in ids ==> s.pcs[a].Down?)
  }

  lemma {:induction false} MarkAll(s: State, ids: seq<nat>, bsp: nat, i: nat) returns (t: State)
    requires AllDown(s, ids, bsp) && i <= |ids| && s.boss == Marking(i)
    ensures Lined(t, ids, bsp, 0) && Reaches(s, ids, bsp, t)
    decreases |ids| - i
  {
    hide Reaches;
    var s1 := After(s, ids, bsp, BossStep);
    if i == |ids| {
      t := After(s1, ids, bsp, BossStep);
      ReachSelf(t, ids, bsp);
      ReachStep(s1, ids, bsp, BossStep, t);
    } else {
      t := MarkAll(s1, ids, bsp, i + 1);
    }
    ReachStep(s, ids, bsp, BossStep, t);
  }

  lemma ReachTrans(s: State, ids: seq<nat>, bsp: nat, steps: seq<Step>, t: State, u: State)
    requires Run(s, ids, bsp, steps, t) && Reaches(t, ids, bsp, u)
    ensures Reaches(s, ids, bsp, u)
    decreases |steps|
  {
    if steps != [] {
      var s1 := After(s, ids, bsp, steps[0]);
      ReachTrans(s1, ids, bsp, steps[1..], t, u);
      ReachStep(s, ids, bsp, steps[0], u);
    }
  }

  /** Some core is past the check-in before some other core was counted. */
  ghost predicate Early(t: State, ids: seq<nat>, bsp: nat) {
    exists c, d ::
      IsCore(ids, bsp, c) && IsCore(ids, bsp, d) && c in t.pcs && d in t.pcs && t.pcs[c].Left? && !Counted(t.pcs[d])
  }

  lemma LeavesEarly(s: State, ids: seq<nat>, bsp: nat) returns (t: State)
    requires Start(s, ids, bsp) && bsp !in ids && ids != []
    ensures Reaches(s, ids, bsp, t) && Early(t, ids, bsp)
  {
    var s1 := After(s, ids, bsp, BossStep);
    assert AllDown(s1, ids, bsp);
    var s2 := MarkAll(s1, ids, bsp, 0);
    var s3 := LineAll(s2, ids, bsp, 0);
    assert ids[0] in ids;
    t := After(s3, ids, bsp, Leave(ids[0]));
    assert t.pcs[ids[0]].Left? && !Counted(t.pcs[bsp]);
    hide After, Lined, AllDown;
    ReachSelf(t, ids, bsp);
    ReachStep(s3, ids, bsp, Leave(ids[0]), t);
    var front, back :| Run(s1, ids, bsp, front, s2) && Run(s2, ids, bsp, back, s3);
    ReachTrans(s2, ids, bsp, back, s3, t);
    ReachTrans(s1, ids, bsp, front, s2, t);
    ReachStep(s, ids, bsp, BossStep, t);
  }

  lemma {:induction false} NoneListed(s: State, bsp: nat, steps: seq<Step>, t: State)
    requires s.total == 0 && (bsp in s.pcs ==> !s.pcs[bsp].Left?) && Run(s, [], bsp, steps, t)
    ensures t.total == 0 && (bsp in t.pcs ==> !t.pcs[bsp].Left?)
    decreases |steps|
  {
    if steps != [] { NoneListed(After(s, [], bsp, steps[0]), bsp, steps[1..], t); }
  }

  /** Whatever distinct cores the firmware lists, a core can leave the check-in before all are
      counted if and only if the list is not empty and lacks the first core. */
  lemma EarlyExact(s: State, ids: seq<nat>, bsp: nat)
    requires Start(s, ids, bsp)
    ensures (exists t :: Reaches(s, ids, bsp, t) && Early(t, ids, bsp)) <==> bsp !in ids && ids != []
  {
    if bsp !in ids && ids != [] {
      var t := LeavesEarly(s, ids, bsp);
    }
    forall t | Reaches(s, ids, bsp, t) && (bsp in ids || ids == [])
      ensures !Early(t, ids, bsp)
    {
      var steps :| Run(s, ids, bsp, steps, t);
      if ids == [] {
        NoneListed(s, bsp, steps, t);
      } else {
        NeverEarly(s, ids, bsp, steps, t);
      }
    }
  }

  lemma NeverEarly(s: State, ids: seq<nat>, bsp: nat, steps: seq<Step>, t: State)
    requires bsp in ids && Start(s, ids, bsp) && Run(s, ids, bsp, steps, t)
    ensures !Early(t, ids, bsp)
  {
    hide Start, Run;
    forall c | IsCore(ids, bsp, c) && c in t.pcs && t.pcs[c].Left?
      ensures forall d :: IsCore(ids, bsp, d) && d in t.pcs ==> Counted(t.pcs[d])
    {
      NobodyLeavesEarly(s, ids, bsp, steps, t, c);
    }
  }
}
