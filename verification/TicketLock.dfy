/** The ticket lock, one atomic operation of one caller at a time. Any number of callers run
    on any number of cores; a core may have several callers, since handlers run on top of the
    code they interrupt. */
module TicketLocks {
  import opened Basics

  /** The counters of the lock are 32-bit numbers. */
  const W: nat := 0x1_0000_0000
  const NO_OWNER: nat := 0xffff_ffff

  /** Where a caller is. `n` and `at` count tickets and releases without wrap-around; they
      record history and no step tests them. */
  datatype Pc =
    | Idle
    | TryLoaded(seen: nat, at: nat)
    | Waiting(ticket: nat, n: nat)
    | Checking(ticket: nat, n: nat)
    | Won(n: nat)
    | Holding(n: nat)
    | Releasing(n: nat)
    | Panicked(n: nat)

  /** The lock's own fields, then the callers, then history: who drew each ticket, who got the
      lock in which order, how often it was released, whether an owner was ever recorded. */
  datatype State = State(
    ticket: nat, release: nat, owner: nat, pcs: map<nat, Pc>,
    line: seq<nat>, served: seq<nat>, released: nat, recorded: bool)

  datatype Step = Load | Swap | Draw | Poll | Inspect | Record | Clear | Release

  ghost predicate Enabled(s: State, a: nat, e: Step) {
    && a in s.pcs
    && match e
       case Load | Draw => s.pcs[a].Idle?
       case Swap => s.pcs[a].TryLoaded?
       case Poll => s.pcs[a].Waiting?
       case Inspect => s.pcs[a].Checking?
       case Record => s.pcs[a].Won?
       case Clear => s.pcs[a].Holding?
       case Release => s.pcs[a].Releasing?
  }

  function Bump(x: nat): nat { (x + 1) % W }

  function After(s: State, a: nat, e: Step, core: map<nat, nat>): State
    requires Enabled(s, a, e) && a in core
  {
    match e
    case Load => s.(pcs := s.pcs[a := TryLoaded(s.release, s.released)])
    case Swap =>
      if s.ticket == s.pcs[a].seen then
        s.(ticket := Bump(s.pcs[a].seen), pcs := s.pcs[a := Won(|s.line|)], line := s.line + [a], served := s.served + [a])
      else
        s.(pcs := s.pcs[a := Idle])
    case Draw =>
      s.(ticket := Bump(s.ticket), pcs := s.pcs[a := Waiting(s.ticket, |s.line|)], line := s.line + [a])
    case Poll =>
      if s.release == s.pcs[a].ticket then
        s.(pcs := s.pcs[a := Won(s.pcs[a].n)], served := s.served + [a])
      else
        s.(pcs := s.pcs[a := Checking(s.pcs[a].ticket, s.pcs[a].n)])
    case Inspect =>
      if s.owner == core[a] then
        s.(pcs := s.pcs[a := Pc.Panicked(s.pcs[a].n)])
      else
        s.(pcs := s.pcs[a := Waiting(s.pcs[a].ticket, s.pcs[a].n)])
    case Record => s.(owner := core[a], recorded := true, pcs := s.pcs[a := Holding(s.pcs[a].n)])
    case Clear => s.(owner := NO_OWNER, pcs := s.pcs[a := Releasing(s.pcs[a].n)])
    case Release => s.(release := Bump(s.release), released := s.released + 1, pcs := s.pcs[a := Idle])
  }

  // ----- the invariant -----

  predicate Critical(p: Pc) { p.Won? || p.Holding? || p.Releasing? }

  /** Has drawn a ticket that was not released yet. */
  predicate InLine(p: Pc) { p.Waiting? || p.Checking? || p.Panicked? || Critical(p) }

  ghost predicate PcOk(s: State, a: nat)
    requires a in s.pcs
  {
    var p := s.pcs[a];
    && (InLine(p) ==> s.released <= p.n < |s.line| && s.line[p.n] == a)
    && (Critical(p) ==> p.n == s.released && |s.served| == s.released + 1)
    && (p.Waiting? || p.Checking? ==> p.ticket == p.n % W && |s.served| <= p.n)
    && (p.TryLoaded? ==> p.seen == p.at % W && p.at <= s.released)
  }

  /** Every unreleased ticket belongs to the caller that drew it. */
  ghost predicate TicketHeld(s: State, n: nat)
    requires n < |s.line|
  {
    s.line[n] in s.pcs && InLine(s.pcs[s.line[n]]) && s.pcs[s.line[n]].n == n
  }

  ghost predicate Served(s: State) {
    && s.released <= |s.served| <= s.released + 1 && s.served <= s.line
    && (|s.served| == s.released + 1 ==> s.served[s.released] in s.pcs && Critical(s.pcs[s.served[s.released]]))
  }

  ghost predicate OwnerOk(s: State, core: map<nat, nat>) {
    && s.pcs.Keys <= core.Keys
    && (forall a :: a in s.pcs && s.pcs[a].Holding? ==> s.owner == core[a] && s.recorded)
    && (s.recorded && s.owner != NO_OWNER ==> exists a :: a in s.pcs && s.pcs[a].Holding? && core[a] == s.owner)
    && (!s.recorded ==> s.owner == 0)
  }

  ghost predicate Inv(s: State, core: map<nat, nat>) {
    && s.ticket == |s.line| % W && s.release == s.released % W && s.released <= |s.line|
    && Served(s) && OwnerOk(s, core)
    && (forall a :: a in s.pcs ==> PcOk(s, a))
    && (forall n :: s.released <= n < |s.line| ==> TicketHeld(s, n))
  }

  /** Fewer than 2^32 tickets are outstanding, also counted from a pending `try_lock`'s look
      at the lock. */
  ghost predicate Bounded(s: State) {
    && |s.line| < s.released + W
    && (forall a :: a in s.pcs && s.pcs[a].TryLoaded? ==> |s.line| < s.pcs[a].at + W)
  }

  /** No more tickets are outstanding than there are callers. So with fewer than 2^32 callers
      the first half of the bound holds by itself. */
  lemma OutstandingBound(s: State, core: map<nat, nat>)
    requires Inv(s, core)
    ensures |s.line| <= s.released + |s.pcs|
  {
    var n := |s.line| - s.released;
    LineSize(s, core, n);
    SubsetSize(Drawn(s, n), s.pcs.Keys);
  }

  function Ticket(p: Pc): int { if InLine(p) then p.n else -1 }

  /** The callers that drew the first `n` unreleased tickets. */
  ghost function Drawn(s: State, n: nat): set<nat>
    requires s.released + n <= |s.line|
  {
    if n == 0 then {} else Drawn(s, n - 1) + {s.line[s.released + n - 1]}
  }

  lemma NoneDrawn(s: State)
    requires s.released <= |s.line|
    ensures Drawn(s, 0) == {}
  {
  }

  lemma DrawnNext(s: State, n: nat)
    requires 0 < n && s.released + n <= |s.line|
    ensures Drawn(s, n) == Drawn(s, n - 1) + {s.line[s.released + n - 1]}
  {
  }

  lemma TicketOf(s: State, core: map<nat, nat>, n: nat)
    requires Inv(s, core) && s.released <= n < |s.line|
    ensures s.line[n] in s.pcs && Ticket(s.pcs[s.line[n]]) == n
  {
    assert TicketHeld(s, n);
  }

  lemma {:induction false} LineSize(s: State, core: map<nat, nat>, n: nat)
    requires Inv(s, core) && s.released + n <= |s.line|
    ensures |Drawn(s, n)| == n && Drawn(s, n) <= s.pcs.Keys
    ensures forall a :: a in Drawn(s, n) ==> Ticket(s.pcs[a]) < s.released + n
  {
    hide *;
    if n > 0 {
      DrawnNext(s, n);
      TicketOf(s, core, s.released + n - 1);
      LineSize(s, core, n - 1);
    } else {
      NoneDrawn(s);
    }
  }

  lemma SameResidue(a: nat, b: nat)
    requires a <= b < a + W && a % W == b % W
    ensures a == b
  {
  }

  lemma NextResidue(a: nat)
    ensures Bump(a % W) == (a + 1) % W
  {
  }

  // ----- every step keeps it -----

  /** A caller's own program counter changed and the tickets did not. */
  lemma PcStep(s: State, s': State, core: map<nat, nat>, a: nat, p: Pc)
    requires Inv(s, core) && a in s.pcs && s'.pcs == s.pcs[a := p]
    requires s'.ticket == s.ticket && s'.release == s.release && s'.line == s.line && s'.released == s.released
    requires Served(s') && OwnerOk(s', core) && PcOk(s', a) && |s'.served| >= |s.served|
    requires |s'.served| > |s.served| ==> s.pcs[a].Waiting? && |s.served| == s.released == s.pcs[a].n
    requires InLine(p) == InLine(s.pcs[a]) && (InLine(p) ==> p.n == s.pcs[a].n)
    ensures Inv(s', core)
  {
    hide OwnerOk;
    forall b | b in s'.pcs
      ensures PcOk(s', b)
    {
      if b != a {
        assert PcOk(s, b) && PcOk(s, a);
      }
    }
    forall n | s'.released <= n < |s'.line|
      ensures TicketHeld(s', n)
    {
      assert TicketHeld(s, n);
    }
  }

  lemma LoadKeeps(s: State, core: map<nat, nat>, a: nat)
    requires Inv(s, core) && Enabled(s, a, Load) && a in core
    ensures Inv(After(s, a, Load, core), core)
  {
    PcStep(s, After(s, a, Load, core), core, a, TryLoaded(s.release, s.released));
  }

  /** Whoever polls sees the own number, and gets the lock, exactly when every earlier ticket was
      released. */
  lemma PollExact(s: State, core: map<nat, nat>, a: nat)
    requires Inv(s, core) && Bounded(s) && Enabled(s, a, Poll)
    ensures s.release == s.pcs[a].ticket <==> s.pcs[a].n == s.released
    ensures a in core && (After(s, a, Poll, core).pcs[a].Won? <==> s.pcs[a].n == s.released)
  {
    assert PcOk(s, a);
    if s.release == s.pcs[a].ticket { SameResidue(s.released, s.pcs[a].n); }
  }

  lemma PollKeeps(s: State, core: map<nat, nat>, a: nat)
    requires Inv(s, core) && Bounded(s) && Enabled(s, a, Poll) && a in core
    ensures Inv(After(s, a, Poll, core), core)
  {
    var s' := After(s, a, Poll, core);
    PollExact(s, core, a);
    assert PcOk(s, a);
    PcStep(s, s', core, a, s'.pcs[a]);
  }

  lemma InspectKeeps(s: State, core: map<nat, nat>, a: nat)
    requires Inv(s, core) && Enabled(s, a, Inspect) && a in core
    ensures Inv(After(s, a, Inspect, core), core)
  {
    var s' := After(s, a, Inspect, core);
    assert PcOk(s, a);
    PcStep(s, s', core, a, s'.pcs[a]);
  }

  /** At most one caller is past the wait loop. */
  lemma OneCritical(s: State, core: map<nat, nat>, a: nat, b: nat)
    requires Inv(s, core) && a in s.pcs && b in s.pcs && Critical(s.pcs[a]) && Critical(s.pcs[b])
    ensures a == b
  {
    assert PcOk(s, a) && PcOk(s, b);
  }

  lemma RecordKeeps(s: State, core: map<nat, nat>, a: nat)
    requires Inv(s, core) && Enabled(s, a, Record) && a in core && core[a] != NO_OWNER
    ensures Inv(After(s, a, Record, core), core)
  {
    var s' := After(s, a, Record, core);
    assert PcOk(s, a);
    forall b | b in s.pcs && s.pcs[b].Holding?
      ensures b == a
    {
      OneCritical(s, core, a, b);
    }
    assert s'.pcs[a].Holding?;
    PcStep(s, s', core, a, s'.pcs[a]);
  }

  lemma ClearKeeps(s: State, core: map<nat, nat>, a: nat)
    requires Inv(s, core) && Enabled(s, a, Clear) && a in core
    ensures Inv(After(s, a, Clear, core), core)
  {
    var s' := After(s, a, Clear, core);
    assert PcOk(s, a);
    forall b | b in s.pcs && s.pcs[b].Holding?
      ensures b == a
    {
      OneCritical(s, core, a, b);
    }
    PcStep(s, s', core, a, s'.pcs[a]);
  }

  lemma ReleaseKeeps(s: State, core: map<nat, nat>, a: nat)
    requires Inv(s, core) && Enabled(s, a, Release) && a in core
    ensures Inv(After(s, a, Release, core), core)
  {
    var s' := After(s, a, Release, core);
    assert PcOk(s, a);
    NextResidue(s.released);
    forall b | b in s'.pcs
      ensures PcOk(s', b)
    {
      assert PcOk(s, b);
    }
    forall n | s'.released <= n < |s'.line|
      ensures TicketHeld(s', n)
    {
      assert TicketHeld(s, n);
    }
    forall b | b in s.pcs && s.pcs[b].Holding?
      ensures b == a
    {
      OneCritical(s, core, a, b);
    }
  }

  /** A new ticket at the end of the line. */
  lemma NewTicket(s: State, s': State, core: map<nat, nat>, a: nat, p: Pc)
    requires Inv(s, core) && a in s.pcs && !InLine(s.pcs[a]) && InLine(p) && p.n == |s.line|
    requires s'.pcs == s.pcs[a := p] && s'.line == s.line + [a] && s'.released == s.released && s'.release == s.release
    requires s'.ticket == Bump(s.ticket) && Served(s') && OwnerOk(s', core) && PcOk(s', a)
    requires |s'.served| > |s.served| ==> |s.line| == s.released
    requires |s'.served| >= |s.served|
    ensures Inv(s', core)
  {
    hide Served, OwnerOk;
    NextResidue(|s.line|);
    forall b | b in s'.pcs
      ensures PcOk(s', b)
    {
      if b != a { assert PcOk(s, b); }
    }
    forall n | s'.released <= n < |s'.line|
      ensures TicketHeld(s', n)
    {
      if n < |s.line| { assert TicketHeld(s, n); }
    }
  }

  lemma DrawKeeps(s: State, core: map<nat, nat>, a: nat)
    requires Inv(s, core) && Enabled(s, a, Draw) && a in core
    ensures Inv(After(s, a, Draw, core), core)
  {
    var s' := After(s, a, Draw, core);
    NewTicket(s, s', core, a, s'.pcs[a]);
  }

  /** The swap of a `try_lock` succeeds exactly when no ticket is outstanding and the lock was
      not released since it was looked at. */
  lemma SwapExact(s: State, core: map<nat, nat>, a: nat)
    requires Inv(s, core) && Bounded(s) && Enabled(s, a, Swap)
    ensures s.ticket == s.pcs[a].seen <==> |s.line| == s.released == s.pcs[a].at
    ensures a in core && (After(s, a, Swap, core).pcs[a].Won? <==> |s.line| == s.released == s.pcs[a].at)
  {
    assert PcOk(s, a);
    if s.ticket == s.pcs[a].seen { SameResidue(s.pcs[a].at, |s.line|); }
  }

  /** With no ticket outstanding nobody waits for the lock and nobody has it. */
  lemma NobodyInLine(s: State, core: map<nat, nat>)
    requires Inv(s, core) && |s.line| == s.released
    ensures forall b :: b in s.pcs ==> !InLine(s.pcs[b])
  {
    forall b | b in s.pcs
      ensures !InLine(s.pcs[b])
    {
      assert PcOk(s, b);
    }
  }

  lemma SwapKeeps(s: State, core: map<nat, nat>, a: nat)
    requires Inv(s, core) && Bounded(s) && Enabled(s, a, Swap) && a in core
    ensures Inv(After(s, a, Swap, core), core)
  {
    var s' := After(s, a, Swap, core);
    SwapExact(s, core, a);
    if s.ticket == s.pcs[a].seen {
      NobodyInLine(s, core);
      NewTicket(s, s', core, a, Won(|s.line|));
    } else {
      PcStep(s, s', core, a, Idle);
    }
  }

  /** The ids of the cores: all different from the mark for no owner. */
  ghost predicate CoresOk(s: State, core: map<nat, nat>) {
    s.pcs.Keys <= core.Keys && forall a :: a in core ==> core[a] < NO_OWNER
  }

  lemma StepKeeps(s: State, core: map<nat, nat>, a: nat, e: Step)
    requires Inv(s, core) && Bounded(s) && CoresOk(s, core) && Enabled(s, a, e)
    ensures Inv(After(s, a, e, core), core) && CoresOk(After(s, a, e, core), core)
  {
    hide Inv, Bounded;
    match e
    case Load => LoadKeeps(s, core, a);
    case Swap => SwapKeeps(s, core, a);
    case Draw => DrawKeeps(s, core, a);
    case Poll => PollKeeps(s, core, a);
    case Inspect => InspectKeeps(s, core, a);
    case Record => RecordKeeps(s, core, a);
    case Clear => ClearKeeps(s, core, a);
    case Release => ReleaseKeeps(s, core, a);
  }

  // ----- whole runs -----

  /** A lock just made, and callers that have not started. */
  ghost predicate Start(s: State, core: map<nat, nat>) {
    && s.ticket == s.release == s.owner == s.released == 0 && s.line == s.served == [] && !s.recorded
    && CoresOk(s, core) && forall a :: a in s.pcs ==> s.pcs[a].Idle?
  }

  /** `t` is where these operations of these callers lead, with the ticket bound kept. */
  ghost predicate Run(s: State, core: map<nat, nat>, moves: seq<(nat, Step)>, t: State)
    decreases |moves|
  {
    && Bounded(s) && CoresOk(s, core)
    && if moves == [] then s == t
       else Enabled(s, moves[0].0, moves[0].1) && Run(After(s, moves[0].0, moves[0].1, core), core, moves[1..], t)
  }

  lemma {:induction false} RunKeeps(s: State, core: map<nat, nat>, moves: seq<(nat, Step)>, t: State)
    requires Inv(s, core) && Run(s, core, moves, t)
    ensures Inv(t, core) && Bounded(t) && CoresOk(t, core)
    decreases |moves|
  {
    hide Inv, Bounded, After;
    if moves != [] {
      StepKeeps(s, core, moves[0].0, moves[0].1);
      RunKeeps(After(s, moves[0].0, moves[0].1, core), core, moves[1..], t);
    }
  }

  lemma Reached(s: State, core: map<nat, nat>, moves: seq<(nat, Step)>, t: State)
    requires Start(s, core) && Run(s, core, moves, t)
    ensures Inv(t, core) && Bounded(t) && CoresOk(t, core)
  {
    hide Run;
    assert Inv(s, core);
    RunKeeps(s, core, moves, t);
  }

  /** At most one guard exists. */
  lemma MutualExclusion(s: State, core: map<nat, nat>, moves: seq<(nat, Step)>, t: State, a: nat, b: nat)
    requires Start(s, core) && Run(s, core, moves, t)
    requires a in t.pcs && b in t.pcs && Critical(t.pcs[a]) && Critical(t.pcs[b])
    ensures a == b
  {
    Reached(s, core, moves, t);
    OneCritical(t, core, a, b);
  }

  /** The lock is handed out in the order the tickets were drawn, `try_lock` included. */
  lemma TicketOrder(s: State, core: map<nat, nat>, moves: seq<(nat, Step)>, t: State)
    requires Start(s, core) && Run(s, core, moves, t)
    ensures t.served <= t.line
    ensures forall a :: a in t.pcs && (t.pcs[a].Waiting? || t.pcs[a].Checking?) ==>
              |t.served| <= t.pcs[a].n < |t.line| && t.line[t.pcs[a].n] == a
  {
    Reached(s, core, moves, t);
    assert forall a :: a in t.pcs ==> PcOk(t, a);
  }

  /** A `try_lock` that gets the lock overtakes nobody: no caller waits for it or has it. */
  lemma TryOvertakesNobody(s: State, core: map<nat, nat>, moves: seq<(nat, Step)>, t: State, a: nat)
    requires Start(s, core) && Run(s, core, moves, t) && Enabled(t, a, Swap) && a in core
    requires After(t, a, Swap, core).pcs[a].Won?
    ensures forall b :: b in t.pcs ==> !InLine(t.pcs[b])
  {
    Reached(s, core, moves, t);
    SwapExact(t, core, a);
    NobodyInLine(t, core);
  }

  /** While tickets are outstanding it is the turn of one caller, the one that drew the lowest:
      it has the lock, or its next look at the lock gets it, unless it panicked. */
  lemma SomebodysTurn(s: State, core: map<nat, nat>, moves: seq<(nat, Step)>, t: State)
    requires Start(s, core) && Run(s, core, moves, t) && t.released < |t.line|
    ensures t.line[t.released] in t.pcs
    ensures var p := t.pcs[t.line[t.released]];
            Critical(p) || p.Panicked? || p.Checking? || (p.Waiting? && p.ticket == t.release)
  {
    Reached(s, core, moves, t);
    assert TicketHeld(t, t.released);
    assert PcOk(t, t.line[t.released]);
  }

  // ----- the lock as a queue -----

  /** The callers that drew a ticket and did not release it yet, in the order they drew. */
  function Queue(s: State): seq<nat>
    requires s.released <= |s.line|
  {
    s.line[s.released..]
  }

  /** Whoever has the lock is the first of the queue, and a caller is in the queue exactly when it
      waits for the lock or has it, at one place only. */
  lemma QueueMembers(s: State, core: map<nat, nat>, moves: seq<(nat, Step)>, t: State, a: nat)
    requires Start(s, core) && Run(s, core, moves, t) && a in t.pcs
    ensures t.released <= |t.line| && Distinct(Queue(t)) && (a in Queue(t) <==> InLine(t.pcs[a]))
    ensures Critical(t.pcs[a]) ==> Queue(t) != [] && Queue(t)[0] == a
  {
    Reached(s, core, moves, t);
    hide Run, Start;
    assert PcOk(t, a);
    if InLine(t.pcs[a]) { assert Queue(t)[t.pcs[a].n - t.released] == a; }
    forall i | 0 <= i < |Queue(t)|
      ensures TicketHeld(t, t.released + i) && Queue(t)[i] == t.line[t.released + i]
    {
    }
  }

  /** What one operation does to a queue of callers: `lock` joins at the end and gets the lock at
      a look that finds the caller first, `try_lock` gets it by finding the queue empty at both its
      accesses with no release between, a release takes the first caller off. */
  ghost predicate QueueStep(s: State, s': State, a: nat, e: Step, core: map<nat, nat>)
    requires s.released <= |s.line| && s'.released <= |s'.line| && a in s.pcs && a in s'.pcs && a in core && Enabled(s, a, e)
  {
    var q, q', p := Queue(s), Queue(s'), s'.pcs[a];
    match e
    case Load => q' == q && p.TryLoaded? && p.at == s.released
    case Swap =>
      if q == [] && s.pcs[a].at == s.released then q' == [a] && p.Won? else q' == q && p.Idle?
    case Draw => q' == q + [a] && p.Waiting?
    case Poll => q' == q && q != [] && (if q[0] == a then p.Won? else p.Checking?)
    case Inspect => q' == q && (p.Panicked? || p.Waiting?)
    case Record => q' == q && p.Holding? && s'.owner == core[a]
    case Clear => q' == q && p.Releasing? && s'.owner == NO_OWNER
    case Release => q != [] && q[0] == a && q' == q[1..] && p.Idle?
  }

  /** Over every run, the 32-bit counters work as that queue, and an operation of one caller
      changes no other caller. */
  lemma LockIsQueue(s: State, core: map<nat, nat>, moves: seq<(nat, Step)>, t: State, a: nat, e: Step)
    requires Start(s, core) && Run(s, core, moves, t) && Enabled(t, a, e) && a in core
    ensures var t' := After(t, a, e, core);
            && t.released <= |t.line| && t'.released <= |t'.line| && a in t'.pcs && QueueStep(t, t', a, e, core)
            && t'.pcs.Keys == t.pcs.Keys && (forall b :: b in t.pcs && b != a ==> t'.pcs[b] == t.pcs[b])
            && (t'.owner != t.owner ==> e.Record? || e.Clear?)
  {
    Reached(s, core, moves, t);
    hide Run, Start, Inv, Bounded, QueueStep;
    OthersKept(t, core, a, e);
    StepOfQueue(t, core, a, e);
  }

  lemma OthersKept(t: State, core: map<nat, nat>, a: nat, e: Step)
    requires Enabled(t, a, e) && a in core
    ensures var t' := After(t, a, e, core);
            && t'.pcs.Keys == t.pcs.Keys && (forall b :: b in t.pcs && b != a ==> t'.pcs[b] == t.pcs[b])
            && (t'.owner != t.owner ==> e.Record? || e.Clear?)
  {
  }

  lemma StepOfQueue(t: State, core: map<nat, nat>, a: nat, e: Step)
    requires Inv(t, core) && Bounded(t) && Enabled(t, a, e) && a in core
    ensures var t' := After(t, a, e, core);
            t.released <= |t.line| && t'.released <= |t'.line| && a in t'.pcs && QueueStep(t, t', a, e, core)
  {
    assert PcOk(t, a);
    if e.Swap? { SwapExact(t, core, a); }
    if e.Poll? { PollIsFirst(t, core, a); }
    hide Inv, Bounded;
  }

  lemma PollIsFirst(t: State, core: map<nat, nat>, a: nat)
    requires Inv(t, core) && Bounded(t) && Enabled(t, a, Poll)
    ensures Queue(t) != [] && (t.release == t.pcs[a].ticket <==> Queue(t)[0] == a)
  {
    PollExact(t, core, a);
    assert PcOk(t, a);
    assert TicketHeld(t, t.released);
  }

  /** A `lock` that finds nobody in line gets the lock at its first look, and after the guard is
      dropped nobody is in line again: every caller is back where it was. */
  lemma LockThenUnlock(s: State, core: map<nat, nat>, moves: seq<(nat, Step)>, t: State, a: nat)
    requires Start(s, core) && Run(s, core, moves, t) && a in t.pcs && a in core && t.pcs[a].Idle?
    requires t.released == |t.line|
    ensures t.ticket == t.release
    ensures var held := Locked(t, a, core);
            && held.pcs == t.pcs[a := Holding(t.released)] && held.owner == core[a] && Queue(held) == [a]
            && var after := Unlocked(held, a, core);
               after.pcs == t.pcs && after.released == |after.line| && after.ticket == after.release
  {
    Reached(s, core, moves, t);
    hide Run, Start, OwnerOk, Served;
    NextResidue(t.released);
    assert t.pcs[a := Idle] == t.pcs;
  }

  /** One caller's `lock` with nothing between its operations. */
  function Locked(s: State, a: nat, core: map<nat, nat>): State
    requires a in s.pcs && a in core && s.pcs[a].Idle? && s.ticket == s.release
  {
    After(After(After(s, a, Draw, core), a, Poll, core), a, Record, core)
  }

  /** Its guard dropped. */
  function Unlocked(s: State, a: nat, core: map<nat, nat>): State
    requires a in s.pcs && a in core && s.pcs[a].Holding?
  {
    After(After(s, a, Clear, core), a, Release, core)
  }

  /** Some caller on this core has the lock and is recorded as its owner. */
  ghost predicate CoreHolds(t: State, core: map<nat, nat>, id: nat) {
    exists b :: b in t.pcs && b in core && t.pcs[b].Holding? && core[b] == id
  }

  /** A waiting caller reports a deadlock exactly when its core holds the lock, or when no
      owner was ever recorded and its core is core 0. */
  lemma DeadlockReport(s: State, core: map<nat, nat>, moves: seq<(nat, Step)>, t: State, a: nat)
    requires Start(s, core) && Run(s, core, moves, t) && Enabled(t, a, Inspect) && a in core
    ensures After(t, a, Inspect, core).pcs[a].Panicked? <==>
              CoreHolds(t, core, core[a]) || (!t.recorded && core[a] == 0)
  {
    Reached(s, core, moves, t);
  }

  /** The report is right exactly when an owner was recorded before or the core is not core 0. */
  lemma DeadlockSound(s: State, core: map<nat, nat>, moves: seq<(nat, Step)>, t: State, a: nat)
    requires Start(s, core) && Run(s, core, moves, t) && Enabled(t, a, Inspect) && a in core
    requires After(t, a, Inspect, core).pcs[a].Panicked?
    ensures CoreHolds(t, core, core[a]) <==> t.recorded || core[a] != 0
  {
    Reached(s, core, moves, t);
  }

  /** Two callers, on cores 1 and 0, after `k` of four operations: the first draws a ticket and
      gets the lock, the second draws a ticket and sees that it has to wait. */
  ghost function Alarm(k: nat): State {
    var pc0 := if k == 0 then Idle else if k == 1 then Waiting(0, 0) else Won(0);
    var pc1 := if k <= 2 then Idle else if k == 3 then Waiting(1, 1) else Checking(1, 1);
    var drawn := if k == 0 then [] else if k <= 2 then [0] else [0, 1];
    State(|drawn|, 0, 0, map[0 := pc0, 1 := pc1], drawn, if k <= 1 then [] else [0], 0, false)
  }

  ghost function AlarmMove(k: nat): (nat, Step) {
    if k == 0 then (0, Draw) else if k == 1 then (0, Poll) else if k == 2 then (1, Draw) else (1, Poll)
  }

  const ALARM_CORES: map<nat, nat> := map[0 := 1, 1 := 0]

  lemma AlarmGoes(k: nat)
    requires k < 4
    ensures var (a, e) := AlarmMove(k);
            && Enabled(Alarm(k), a, e) && a in ALARM_CORES && After(Alarm(k), a, e, ALARM_CORES) == Alarm(k + 1)
            && Bounded(Alarm(k)) && CoresOk(Alarm(k), ALARM_CORES)
  {
  }

  lemma AlarmStep(k: nat, moves: seq<(nat, Step)>)
    requires k < 4 && Run(Alarm(k + 1), ALARM_CORES, moves, Alarm(4))
    ensures Run(Alarm(k), ALARM_CORES, [AlarmMove(k)] + moves, Alarm(4))
  {
    AlarmGoes(k);
    hide Alarm, AlarmMove, After, Enabled, Bounded, Run;
    RunStep(Alarm(k), ALARM_CORES, AlarmMove(k).0, AlarmMove(k).1, moves, Alarm(4));
  }

  lemma AlarmEnds()
    ensures Start(Alarm(0), ALARM_CORES) && Run(Alarm(4), ALARM_CORES, [], Alarm(4))
    ensures Enabled(Alarm(4), 1, Inspect) && 1 in ALARM_CORES && !CoreHolds(Alarm(4), ALARM_CORES, ALARM_CORES[1])
    ensures After(Alarm(4), 1, Inspect, ALARM_CORES).pcs[1].Panicked?
  {
  }

  /** A wrong report: core 1 got the lock but is not recorded yet when core 0 looks. */
  lemma FalseAlarm()
    ensures exists s, core, moves, t, a ::
              && Start(s, core) && Run(s, core, moves, t) && Enabled(t, a, Inspect) && a in core
              && After(t, a, Inspect, core).pcs[a].Panicked? && !CoreHolds(t, core, core[a])
  {
    hide Run, Start, Enabled, After, CoreHolds, Alarm, AlarmMove;
    AlarmEnds();
    var m3 := [AlarmMove(3)] + [];
    var m2 := [AlarmMove(2)] + m3;
    var m1 := [AlarmMove(1)] + m2;
    AlarmStep(3, []);
    AlarmStep(2, m3);
    AlarmStep(1, m2);
    AlarmStep(0, m1);
  }

  lemma RunStep(s: State, core: map<nat, nat>, a: nat, e: Step, moves: seq<(nat, Step)>, t: State)
    requires Bounded(s) && CoresOk(s, core) && Enabled(s, a, e) && Run(After(s, a, e, core), core, moves, t)
    ensures Run(s, core, [(a, e)] + moves, t)
  {
    assert ([(a, e)] + moves)[1..] == moves;
  }
}
