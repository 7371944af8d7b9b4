/** Interrupts, exceptions and locks on one core. The code of the kernel runs at the bottom of
    a stack of handlers; only the top of the stack executes, one atomic operation at a time,
    and a handler may arrive between any two operations. */
module InterruptNesting {
  /** `noPreempt` locks turn interrupts off before they are taken. */
  datatype Lock = Lock(id: nat, noPreempt: bool)

  datatype Kind = Kernel | Maskable | Exception

  /** What a piece of code is in the middle of: handler entry (nothing counted, or only the
      interrupt), taking a lock (disable request counted; contending for the lock), giving up
      a disable request (to be counted; counted, flag to be set), or handler exit. */
  datatype Op =
    | Entry0 | Entry1
    | Ready
    | Counted(lock: Lock, blocking: bool)
    | Contending(lock: Lock, blocking: bool)
    | Leaving
    | Lowered(was: nat)
    | Exit1 | Exit0

  datatype Frame = Frame(kind: Kind, saved: bool, held: set<Lock>, op: Op)

  /** The interrupt flag, the three counters of the core, the stack, and whether the request
      outstanding since boot is still there. */
  datatype State = State(
    flag: bool, outstanding: nat, interruptDepth: nat, exceptionDepth: nat, frames: seq<Frame>, boot: bool)

  datatype Step =
    | StartLock(lock: Lock, blocking: bool) | Mask | Win | Lose | Drop(lock: Lock)
    | Lower | Finish | EndBoot
    | Interrupt | Fault | Enter | EnterException | Exit | ExitInterrupt | Return

  function Top(s: State): Frame
    requires s.frames != []
  {
    s.frames[|s.frames| - 1]
  }

  function WithTop(s: State, f: Frame): State
    requires s.frames != []
  {
    s.(frames := s.frames[..|s.frames| - 1] + [f])
  }

  ghost predicate HeldBySome(s: State, l: Lock) { exists i :: 0 <= i < |s.frames| && l in s.frames[i].held }

  /** When a step can happen. A failed assertion ends the run, so it is no step. */
  ghost predicate Enabled(s: State, e: Step) {
    && s.frames != []
    && var f := Top(s);
       match e
       case StartLock(l, blocking) =>
         f.op.Ready? && (l.noPreempt || s.interruptDepth == 0) && (!blocking || s.exceptionDepth == 0)
       case Mask => f.op.Counted?
       case Win => f.op.Contending? && !HeldBySome(s, f.op.lock)
       case Lose => f.op.Contending? && !f.op.blocking
       case Drop(l) => f.op.Ready? && l in f.held
       case Lower => f.op.Leaving? && s.outstanding > 0
       case Finish => f.op.Lowered?
       case EndBoot => f.op.Ready? && f.kind.Kernel? && s.boot
       case Interrupt => s.flag
       case Fault => true
       case Enter => f.op.Entry0?
       case EnterException => f.op.Entry1?
       case Exit =>
         && f.op.Ready? && !f.kind.Kernel? && f.held == {} && s.interruptDepth > 0
         && (f.kind.Exception? ==> s.exceptionDepth > 0)
       case ExitInterrupt => f.op.Exit1? && s.interruptDepth > 0
       case Return => f.op.Exit0? && |s.frames| > 1
  }

  function Request(l: Lock): nat { if l.noPreempt then 1 else 0 }

  ghost function After(s: State, e: Step): State
    requires Enabled(s, e)
  {
    var f := Top(s);
    match e
    case StartLock(l, blocking) =>
      WithTop(s, f.(op := if l.noPreempt then Counted(l, blocking) else Contending(l, blocking)))
        .(outstanding := s.outstanding + Request(l))
    case Mask => WithTop(s, f.(op := Contending(f.op.lock, f.op.blocking))).(flag := false)
    case Win => WithTop(s, f.(op := Ready, held := f.held + {f.op.lock}))
    case Lose => WithTop(s, f.(op := if f.op.lock.noPreempt then Leaving else Ready))
    case Drop(l) => WithTop(s, f.(op := if l.noPreempt then Leaving else Ready, held := f.held - {l}))
    case Lower => WithTop(s, f.(op := Lowered(s.outstanding))).(outstanding := s.outstanding - 1)
    case Finish => WithTop(s, f.(op := Ready)).(flag := s.flag || (s.interruptDepth == 0 && f.op.was == 1))
    case EndBoot => WithTop(s, f.(op := Leaving)).(boot := false)
    case Interrupt => s.(flag := false, frames := s.frames + [Frame(Maskable, s.flag, {}, Entry0)])
    case Fault => s.(flag := false, frames := s.frames + [Frame(Exception, s.flag, {}, Entry0)])
    case Enter =>
      WithTop(s, f.(op := if f.kind.Exception? then Entry1 else Ready)).(interruptDepth := s.interruptDepth + 1)
    case EnterException => WithTop(s, f.(op := Ready)).(exceptionDepth := s.exceptionDepth + 1)
    case Exit =>
      if f.kind.Exception? then WithTop(s, f.(op := Exit1)).(exceptionDepth := s.exceptionDepth - 1)
      else WithTop(s, f.(op := Exit0)).(interruptDepth := s.interruptDepth - 1)
    case ExitInterrupt => WithTop(s, f.(op := Exit0)).(interruptDepth := s.interruptDepth - 1)
    case Return => s.(flag := f.saved, frames := s.frames[..|s.frames| - 1])
  }

  // ----- counting -----

  function NoPreempt(held: set<Lock>): set<Lock> { set l | l in held && l.noPreempt }

  /** Disable requests a piece of code has outstanding. */
  function Requests(f: Frame): nat {
    |NoPreempt(f.held)| +
    match f.op
    case Counted(l, _) => 1
    case Contending(l, _) => Request(l)
    case Leaving => 1
    case _ => 0
  }

  function InterruptCount(f: Frame): nat {
    if f.kind.Kernel? || f.op.Entry0? || f.op.Exit0? then 0 else 1
  }

  function ExceptionCount(f: Frame): nat {
    if !f.kind.Exception? || f.op.Entry0? || f.op.Entry1? || f.op.Exit0? || f.op.Exit1? then 0 else 1
  }

  function Sum(fs: seq<Frame>, w: Frame -> nat): nat {
    if fs == [] then 0 else Sum(fs[..|fs| - 1], w) + w(fs[|fs| - 1])
  }

  lemma SumAppend(fs: seq<Frame>, f: Frame, w: Frame -> nat)
    ensures Sum(fs + [f], w) == Sum(fs, w) + w(f)
  {
    assert (fs + [f])[..|fs|] == fs;
  }

  // ----- the invariant -----

  /** Interrupts are on while this code runs with no handler above it. */
  predicate On(f: Frame, boot: bool) {
    && !boot && NoPreempt(f.held) == {} && !f.op.Leaving? && !f.op.Lowered?
    && !(f.op.Contending? && f.op.lock.noPreempt)
  }

  ghost predicate Counts(s: State) {
    && s.outstanding == Sum(s.frames, Requests) + (if s.boot then 1 else 0)
    && s.interruptDepth == Sum(s.frames, InterruptCount)
    && s.exceptionDepth == Sum(s.frames, ExceptionCount)
  }

  predicate FrameOk(f: Frame, i: nat) {
    && (i == 0 <==> f.kind.Kernel?)
    && (f.kind.Kernel? ==> !f.op.Entry0? && !f.op.Entry1? && !f.op.Exit0? && !f.op.Exit1?)
    && (f.op.Entry1? || f.op.Exit1? ==> f.kind.Exception?)
    && (f.op.Entry0? || f.op.Entry1? || f.op.Exit0? || f.op.Exit1? ==> f.held == {})
    && (f.kind.Maskable? ==> i == 1 && f.saved)
    && (i >= 2 ==> !f.saved)
    && (i >= 1 && (f.op.Counted? || f.op.Contending?) ==> f.op.lock.noPreempt && (f.op.blocking ==> f.kind.Maskable?))
    && (f.op.Counted? ==> f.op.lock.noPreempt)
  }

  ghost predicate Flags(s: State)
    requires s.frames != []
  {
    && s.flag == (|s.frames| == 1 && On(s.frames[0], s.boot))
    && (|s.frames| > 1 ==> s.frames[1].saved == On(s.frames[0], s.boot))
    && (s.frames[0].op.Lowered? ==>
          s.frames[0].op.was == |NoPreempt(s.frames[0].held)| + (if s.boot then 1 else 0) + 1)
  }

  ghost predicate Inv(s: State) {
    && s.frames != [] && Counts(s) && Flags(s)
    && (forall i :: 0 <= i < |s.frames| ==> FrameOk(s.frames[i], i))
  }

  // ----- every step keeps it -----

  /** A step of the code on top that changes its frame and moves the counters along. */
  lemma TopStep(s: State, s': State, f: Frame)
    requires Inv(s) && s'.frames == WithTop(s, f).frames
    requires FrameOk(f, |s.frames| - 1) && f.saved == Top(s).saved
    requires s'.outstanding + Requests(Top(s)) + (if s.boot then 1 else 0) ==
               s.outstanding + Requests(f) + (if s'.boot then 1 else 0)
    requires s'.interruptDepth + InterruptCount(Top(s)) == s.interruptDepth + InterruptCount(f)
    requires s'.exceptionDepth + ExceptionCount(Top(s)) == s.exceptionDepth + ExceptionCount(f)
    requires |s.frames| > 1 ==> s'.boot == s.boot && s'.flag == s.flag
    requires |s.frames| == 1 ==> s'.flag == On(f, s'.boot)
    requires |s.frames| == 1 && f.op.Lowered? ==> f.op.was == |NoPreempt(f.held)| + (if s'.boot then 1 else 0) + 1
    ensures Inv(s')
  {
    hide Requests, InterruptCount, ExceptionCount, On, FrameOk;
    var rest := s.frames[..|s.frames| - 1];
    SumAppend(rest, f, Requests);
    SumAppend(rest, f, InterruptCount);
    SumAppend(rest, f, ExceptionCount);
    assert forall i :: 0 <= i < |s.frames| - 1 ==> s'.frames[i] == s.frames[i];
  }

  /** Code on top that has no handler above it: its own requests are all there are besides
      those of the code below. */
  lemma TopCounts(s: State)
    requires Inv(s)
    ensures s.outstanding >= Requests(Top(s)) && s.interruptDepth >= InterruptCount(Top(s))
    ensures s.exceptionDepth >= ExceptionCount(Top(s))
    ensures |s.frames| == 1 ==> s.outstanding == Requests(Top(s)) + (if s.boot then 1 else 0) && s.interruptDepth == 0
    ensures FrameOk(Top(s), |s.frames| - 1)
  {
    hide Requests, InterruptCount, ExceptionCount, Flags;
    if |s.frames| == 1 {
      var rest := s.frames[..|s.frames| - 1];
      assert rest == [];
      assert Sum(rest, Requests) == 0 && Sum(rest, InterruptCount) == 0;
      assert InterruptCount(Top(s)) == 0 by { KernelUncounted(Top(s)); }
    }
  }

  lemma KernelUncounted(f: Frame)
    requires f.kind.Kernel?
    ensures InterruptCount(f) == 0
  {
  }

  lemma OneMore(held: set<Lock>, l: Lock)
    requires l !in held
    ensures |NoPreempt(held + {l})| == |NoPreempt(held)| + Request(l)
  {
    if l.noPreempt {
      assert NoPreempt(held + {l}) == NoPreempt(held) + {l};
    } else {
      assert NoPreempt(held + {l}) == NoPreempt(held);
    }
  }

  lemma OneLess(held: set<Lock>, l: Lock)
    requires l in held
    ensures |NoPreempt(held - {l})| + Request(l) == |NoPreempt(held)|
  {
    OneMore(held - {l}, l);
    assert held - {l} + {l} == held;
  }

  lemma LockStepKeeps(s: State, e: Step)
    requires Inv(s) && Enabled(s, e) && (e.StartLock? || e.Mask? || e.Win? || e.Lose? || e.Drop?)
    ensures Inv(After(s, e))
  {
    hide Inv, Sum;
    var f, s' := Top(s), After(s, e);
    TopCounts(s);
    FlagNow(s);
    var g := s'.frames[|s.frames| - 1];
    if e.Win? { OneMore(f.held, f.op.lock); }
    if e.Drop? { OneLess(f.held, e.lock); }
    TopStep(s, s', g);
  }

  lemma FlagNow(s: State)
    requires Inv(s)
    ensures s.frames != [] && s.flag == (|s.frames| == 1 && On(Top(s), s.boot))
    ensures |s.frames| == 1 && Top(s).op.Lowered? ==>
              Top(s).op.was == |NoPreempt(Top(s).held)| + (if s.boot then 1 else 0) + 1
  {
  }

  lemma EnableStepKeeps(s: State, e: Step)
    requires Inv(s) && Enabled(s, e) && (e.Lower? || e.Finish? || e.EndBoot?)
    ensures Inv(After(s, e))
  {
    hide Inv, Sum;
    var f, s' := Top(s), After(s, e);
    TopCounts(s);
    FlagNow(s);
    TopStep(s, s', s'.frames[|s.frames| - 1]);
  }

  lemma CountStepKeeps(s: State, e: Step)
    requires Inv(s) && Enabled(s, e) && (e.Enter? || e.EnterException? || e.Exit? || e.ExitInterrupt?)
    ensures Inv(After(s, e))
  {
    hide Inv, Sum;
    var f, s' := Top(s), After(s, e);
    TopCounts(s);
    FlagNow(s);
    TopStep(s, s', s'.frames[|s.frames| - 1]);
  }

  /** A handler frame pushed on the stack with interrupts turned off. */
  lemma Arrived(s: State, s': State, g: Frame)
    requires Inv(s) && s' == s.(flag := false, frames := s.frames + [g])
    requires Requests(g) == InterruptCount(g) == ExceptionCount(g) == 0
    requires FrameOk(g, |s.frames|) && g.saved == s.flag
    ensures Inv(s')
  {
    hide Requests, InterruptCount, ExceptionCount, On, FrameOk, Sum;
    SumAppend(s.frames, g, Requests);
    SumAppend(s.frames, g, InterruptCount);
    SumAppend(s.frames, g, ExceptionCount);
  }

  lemma ArrivalKeeps(s: State, e: Step)
    requires Inv(s) && Enabled(s, e) && (e.Interrupt? || e.Fault?)
    ensures Inv(After(s, e))
  {
    FlagNow(s);
    hide Inv, Sum;
    var s' := After(s, e);
    var g := s'.frames[|s.frames|];
    assert NoPreempt({}) == {};
    Arrived(s, s', g);
  }

  lemma ReturnKeeps(s: State)
    requires Inv(s) && Enabled(s, Return)
    ensures Inv(After(s, Return))
  {
    var n := |s.frames| - 1;
    assert s.frames == s.frames[..n] + [s.frames[n]];
    SumAppend(s.frames[..n], s.frames[n], Requests);
    SumAppend(s.frames[..n], s.frames[n], InterruptCount);
    SumAppend(s.frames[..n], s.frames[n], ExceptionCount);
    assert FrameOk(s.frames[n], n);
    assert NoPreempt({}) == {};
    assert Requests(s.frames[n]) == InterruptCount(s.frames[n]) == ExceptionCount(s.frames[n]) == 0;
    hide Requests, InterruptCount, ExceptionCount, On, Sum;
  }

  lemma StepKeeps(s: State, e: Step)
    requires Inv(s) && Enabled(s, e)
    ensures Inv(After(s, e))
  {
    hide Inv;
    match e
    case StartLock(_, _) | Mask | Win | Lose | Drop(_) => LockStepKeeps(s, e);
    case Lower | Finish | EndBoot => EnableStepKeeps(s, e);
    case Enter | EnterException | Exit | ExitInterrupt => CountStepKeeps(s, e);
    case Interrupt | Fault => ArrivalKeeps(s, e);
    case Return => ReturnKeeps(s);
  }

  // ----- whole runs -----

  /** A core at boot: interrupts off, one disable request outstanding, no handler running. */
  ghost predicate Start(s: State) {
    && !s.flag && s.boot && s.outstanding == 1 && s.interruptDepth == s.exceptionDepth == 0
    && s.frames == [Frame(Kernel, false, {}, Ready)]
  }

  ghost predicate Run(s: State, steps: seq<Step>, t: State)
    decreases |steps|
  {
    if steps == [] then s == t else Enabled(s, steps[0]) && Run(After(s, steps[0]), steps[1..], t)
  }

  lemma StartInv(s: State)
    requires Start(s)
    ensures Inv(s)
  {
    assert s.frames == [] + [s.frames[0]] && NoPreempt({}) == {};
    SumAppend([], s.frames[0], Requests);
    SumAppend([], s.frames[0], InterruptCount);
    SumAppend([], s.frames[0], ExceptionCount);
  }

  lemma {:induction false} RunKeeps(s: State, steps: seq<Step>, t: State)
    requires Inv(s) && Run(s, steps, t)
    ensures Inv(t)
    decreases |steps|
  {
    hide Inv, After, Enabled;
    if steps != [] {
      StepKeeps(s, steps[0]);
      RunKeeps(After(s, steps[0]), steps[1..], t);
    }
  }

  lemma Reached(s: State, steps: seq<Step>, t: State)
    requires Start(s) && Run(s, steps, t)
    ensures Inv(t)
  {
    hide Inv, Run;
    StartInv(s);
    RunKeeps(s, steps, t);
  }

  /** The code holds the lock or waits for it. */
  predicate HoldsOrAwaits(f: Frame, l: Lock) { l in f.held || (f.op.Contending? && f.op.lock == l) }

  /** No maskable interrupt arrives while any code on the core holds or awaits a no-preempt
      lock. */
  lemma NoInterruptWhileLocked(s: State, steps: seq<Step>, t: State)
    requires Start(s) && Run(s, steps, t) && Enabled(t, Interrupt)
    ensures forall i, l: Lock :: 0 <= i < |t.frames| && HoldsOrAwaits(t.frames[i], l) ==> !l.noPreempt
  {
    Reached(s, steps, t);
    hide Run, Counts;
    forall i, l: Lock | 0 <= i < |t.frames| && HoldsOrAwaits(t.frames[i], l)
      ensures !l.noPreempt
    {
      var np := NoPreempt(t.frames[i].held);
      assert l in np <==> l in t.frames[i].held && l.noPreempt;
    }
  }

  /** A handler that waits in a loop for a lock waits for one that nothing below it on the
      stack holds or awaits. */
  lemma HandlerNeverSpinsOnInterrupted(s: State, steps: seq<Step>, t: State, i: nat, j: nat)
    requires Start(s) && Run(s, steps, t) && j < i < |t.frames|
    requires t.frames[i].op.Contending? && t.frames[i].op.blocking
    ensures !HoldsOrAwaits(t.frames[j], t.frames[i].op.lock)
  {
    Reached(s, steps, t);
    hide Run, Counts;
    var l := t.frames[i].op.lock;
    assert FrameOk(t.frames[i], i);
    assert i == 1 && j == 0 && l.noPreempt;
    var np := NoPreempt(t.frames[0].held);
    assert l in np <==> l in t.frames[0].held;
  }

  /** The counters are exact: disable requests made and not given up, and handlers entered and
      not left. No counter is ever lowered from zero, so no check on one can fail. */
  lemma Balanced(s: State, steps: seq<Step>, t: State)
    requires Start(s) && Run(s, steps, t)
    ensures Counts(t)
    ensures t.frames != [] && (Top(t).op.Leaving? ==> Enabled(t, Lower))
    ensures Top(t).op.Ready? && !Top(t).kind.Kernel? && Top(t).held == {} ==> Enabled(t, Exit)
    ensures (Top(t).op.Exit1? ==> Enabled(t, ExitInterrupt)) && (Top(t).op.Exit0? ==> Enabled(t, Return))
  {
    Reached(s, steps, t);
    hide Run, Sum, Start, Flags;
    TopCounts(t);
    NeverFromZero(t);
  }

  lemma NeverFromZero(t: State)
    requires t.frames != [] && FrameOk(Top(t), |t.frames| - 1) && t.outstanding >= Requests(Top(t))
    requires t.interruptDepth >= InterruptCount(Top(t)) && t.exceptionDepth >= ExceptionCount(Top(t))
    ensures Top(t).op.Leaving? ==> Enabled(t, Lower)
    ensures Top(t).op.Ready? && !Top(t).kind.Kernel? && Top(t).held == {} ==> Enabled(t, Exit)
    ensures (Top(t).op.Exit1? ==> Enabled(t, ExitInterrupt)) && (Top(t).op.Exit0? ==> Enabled(t, Return))
  {
  }

  /** Outside handlers the flag is on exactly when nothing asks for it to be off and no step
      that turns it on is still to come; inside handlers it is off. */
  lemma FlagExact(s: State, steps: seq<Step>, t: State)
    requires Start(s) && Run(s, steps, t)
    ensures t.frames != [] && (t.flag <==> |t.frames| == 1 && On(t.frames[0], t.boot))
    ensures t.interruptDepth > 0 ==> !t.flag
  {
    Reached(s, steps, t);
    hide Run, Sum;
    TopCounts(t);
  }

  /** Interrupts are turned on exactly by the last disable request given up outside all handlers,
      or by the return from a handler that arrived while they were on. */
  lemma TurnedOn(s: State, steps: seq<Step>, t: State, e: Step)
    requires Start(s) && Run(s, steps, t) && Enabled(t, e) && !t.flag
    ensures After(t, e).flag <==>
              (e.Finish? && t.outstanding == 0 && |t.frames| == 1 && t.interruptDepth == 0) || (e.Return? && Top(t).saved)
  {
    Reached(s, steps, t);
    hide Run, Sum;
    TopCounts(t);
    FlagNow(t);
    if e.Finish? && t.interruptDepth == 0 { UncountedAlone(t); }
  }

  /** The handler count is zero only outside handlers, once they are past their entry and
      before their exit. */
  lemma UncountedAlone(t: State)
    requires Inv(t) && Top(t).op.Lowered? && t.interruptDepth == 0
    ensures |t.frames| == 1
  {
    TopCounts(t);
  }

  // ----- whole operations -----

  /** The flag and the counters depend on the stack alone. */
  lemma StackDecides(s: State, t: State)
    requires Inv(s) && Inv(t) && s.frames == t.frames && s.boot == t.boot
    ensures s == t
  {
    hide Sum, On;
  }

  lemma Rewritten(s: State, f: Frame, g: Frame)
    requires s.frames != []
    ensures var u := WithTop(s, f);
            u.frames != [] && Top(u) == f && |u.frames| == |s.frames| && WithTop(u, g).frames == WithTop(s, g).frames
    ensures WithTop(s, Top(s)).frames == s.frames
  {
    assert s.frames == s.frames[..|s.frames| - 1] + [Top(s)];
  }

  /** The code on top is at the lock, with interrupts off if the lock asks for that. */
  ghost function Contended(s: State, l: Lock, blocking: bool): (c: State)
    requires Enabled(s, StartLock(l, blocking))
    ensures c.frames == WithTop(s, Top(s).(op := Contending(l, blocking))).frames && c.boot == s.boot
    ensures if l.noPreempt then !c.flag else c.flag == s.flag
  {
    var c := After(s, StartLock(l, blocking));
    Rewritten(s, Top(s).(op := Counted(l, blocking)), Top(s).(op := Contending(l, blocking)));
    if l.noPreempt then After(c, Mask) else c
  }

  lemma ContendedKeeps(s: State, l: Lock, blocking: bool)
    requires Inv(s) && Enabled(s, StartLock(l, blocking))
    ensures Inv(Contended(s, l, blocking))
  {
    hide Inv;
    StepKeeps(s, StartLock(l, blocking));
    if l.noPreempt { StepKeeps(After(s, StartLock(l, blocking)), Mask); }
  }

  lemma CanWin(s: State, c: State, l: Lock, blocking: bool)
    requires s.frames != [] && !HeldBySome(s, l) && c.frames == WithTop(s, Top(s).(op := Contending(l, blocking))).frames
    ensures Enabled(c, Win)
  {
    assert forall i :: 0 <= i < |s.frames| ==> c.frames[i].held == s.frames[i].held;
  }

  /** It takes the lock, which nobody on the core holds. */
  ghost function Locked(s: State, l: Lock, blocking: bool): (h: State)
    requires Enabled(s, StartLock(l, blocking)) && !HeldBySome(s, l)
    ensures h.frames == WithTop(s, Top(s).(held := Top(s).held + {l})).frames && h.boot == s.boot
    ensures if l.noPreempt then !h.flag else h.flag == s.flag
  {
    var c := Contended(s, l, blocking);
    CanWin(s, c, l, blocking);
    Rewritten(s, Top(c), Top(s).(held := Top(s).held + {l}));
    After(c, Win)
  }

  lemma LockedKeeps(s: State, l: Lock, blocking: bool)
    requires Inv(s) && Enabled(s, StartLock(l, blocking)) && !HeldBySome(s, l)
    ensures Inv(Locked(s, l, blocking))
  {
    hide Inv, After;
    var c := Contended(s, l, blocking);
    ContendedKeeps(s, l, blocking);
    CanWin(s, c, l, blocking);
    StepKeeps(c, Win);
  }

  /** A disable request given up, if there is one to give up. */
  ghost function Enabling(s: State): (u: State)
    requires s.frames != [] && (Top(s).op.Leaving? ==> s.outstanding > 0)
    ensures u.boot == s.boot
    ensures u.frames == WithTop(s, if Top(s).op.Leaving? then Top(s).(op := Ready) else Top(s)).frames
  {
    Rewritten(s, Top(s).(op := Lowered(s.outstanding)), Top(s).(op := Ready));
    if Top(s).op.Leaving? then After(After(s, Lower), Finish) else s
  }

  lemma EnablingKeeps(s: State)
    requires Inv(s)
    ensures s.frames != [] && (Top(s).op.Leaving? ==> s.outstanding > 0)
    ensures Inv(Enabling(s))
  {
    TopCounts(s);
    if Top(s).op.Leaving? { LowerKeeps(s); }
  }

  lemma LowerKeeps(s: State)
    requires Inv(s) && Enabled(s, Lower)
    ensures var u := After(s, Lower); Enabled(u, Finish) && Inv(After(u, Finish))
  {
    hide Inv;
    Rewritten(s, Top(s).(op := Lowered(s.outstanding)), Top(s));
    StepKeeps(s, Lower);
    hide After;
    CanFinish(s);
    StepKeeps(After(s, Lower), Finish);
  }

  lemma CanFinish(s: State)
    requires Enabled(s, Lower)
    ensures Enabled(After(s, Lower), Finish)
  {
  }

  lemma DropFrames(s: State, l: Lock)
    requires Enabled(s, Drop(l))
    ensures var u := After(s, Drop(l));
            && u.boot == s.boot && u.frames != []
            && u.frames == WithTop(s, Top(s).(op := if l.noPreempt then Leaving else Ready, held := Top(s).held - {l})).frames
  {
  }

  /** Taking a lock that is free holds it, with interrupts off if it asks for that; dropping the
      guard leaves the core exactly as it was. */
  lemma LockThenUnlock(s: State, steps: seq<Step>, t: State, l: Lock, blocking: bool)
    requires Start(s) && Run(s, steps, t) && Enabled(t, StartLock(l, blocking)) && !HeldBySome(t, l)
    ensures var held := Locked(t, l, blocking);
            && held.frames != [] && Top(held).held == Top(t).held + {l} && Top(held).op.Ready?
            && (if l.noPreempt then !held.flag else held.flag == t.flag)
            && Enabled(held, Drop(l)) && Released(After(held, Drop(l)), t)
  {
    Reached(s, steps, t);
    hide Run, Start, Inv, After;
    LockedKeeps(t, l, blocking);
    var f, held := Top(t), Locked(t, l, blocking);
    Rewritten(t, Top(held), Top(held));
    NotHeld(t, l);
    DropGivesBack(t, held, l);
  }

  /** Giving up the disable request, if there is one, leads to `t`. */
  ghost predicate Released(s: State, t: State) {
    s.frames != [] && (Top(s).op.Leaving? ==> s.outstanding > 0) && Enabling(s) == t
  }

  lemma NotHeld(s: State, l: Lock)
    requires s.frames != [] && !HeldBySome(s, l)
    ensures l !in Top(s).held
  {
    assert s.frames[|s.frames| - 1] == Top(s);
  }

  lemma DropGivesBack(t: State, held: State, l: Lock)
    requires Inv(t) && Inv(held) && t.frames != [] && Top(t).op.Ready? && l !in Top(t).held && held.boot == t.boot
    requires held.frames == WithTop(t, Top(t).(held := Top(t).held + {l})).frames
    ensures Enabled(held, Drop(l)) && Released(After(held, Drop(l)), t)
  {
    hide Inv, After;
    var f := Top(t);
    Rewritten(t, Top(held), f);
    DropFrames(held, l);
    var dropped := After(held, Drop(l));
    StepKeeps(held, Drop(l));
    EnablingKeeps(dropped);
    assert f.held + {l} - {l} == f.held;
    Rewritten(held, Top(dropped), f);
    StackDecides(Enabling(dropped), t);
  }

  /** A `try_lock` that does not get the lock leaves the core exactly as it was. */
  lemma FailedTryLock(s: State, steps: seq<Step>, t: State, l: Lock)
    requires Start(s) && Run(s, steps, t) && Enabled(t, StartLock(l, false))
    ensures var c := Contended(t, l, false); Enabled(c, Lose) && Released(After(c, Lose), t)
  {
    Reached(s, steps, t);
    hide Run, Start, Inv, After;
    ContendedKeeps(t, l, false);
    var c := Contended(t, l, false);
    CanLose(t, c, l);
    hide Enabled, Contended, Enabling;
    LoseLeaves(c);
    StackDecides(Enabling(After(c, Lose)), t);
  }

  lemma CanLose(t: State, c: State, l: Lock)
    requires t.frames != [] && Top(t).op.Ready? && c.frames == WithTop(t, Top(t).(op := Contending(l, false))).frames
    ensures Enabled(c, Lose) && WithTop(c, Top(c).(op := Ready)).frames == t.frames
  {
    Rewritten(t, Top(t).(op := Contending(l, false)), Top(t));
  }

  lemma LoseLeaves(c: State)
    requires Inv(c) && Enabled(c, Lose)
    ensures var lost := After(c, Lose);
            && lost.frames != [] && (Top(lost).op.Leaving? ==> lost.outstanding > 0) && Inv(Enabling(lost))
            && Enabling(lost).frames == WithTop(c, Top(c).(op := Ready)).frames && Enabling(lost).boot == c.boot
  {
    hide Inv, After;
    LoseFrames(c);
    var lost := After(c, Lose);
    StepKeeps(c, Lose);
    EnablingKeeps(lost);
    Rewritten(c, Top(lost), Top(c).(op := Ready));
  }

  lemma LoseFrames(s: State)
    requires Enabled(s, Lose)
    ensures var u := After(s, Lose);
            && u.boot == s.boot && u.frames != []
            && u.frames == WithTop(s, Top(s).(op := if Top(s).op.lock.noPreempt then Leaving else Ready)).frames
  {
  }

  /** Dropping the guard of any lock held gives the lock up and nothing else. Interrupts are on
      afterwards exactly if they were on before, or the lock was the last to ask for them to be
      off and no handler is running. */
  lemma DropReleases(s: State, steps: seq<Step>, t: State, l: Lock)
    requires Start(s) && Run(s, steps, t) && Enabled(t, Drop(l))
    ensures var dropped := After(t, Drop(l));
            && dropped.frames != [] && l !in Top(dropped).held && (Top(dropped).op.Leaving? <==> l.noPreempt)
            && (Top(dropped).op.Leaving? ==> dropped.outstanding > 0)
            && var u := Enabling(dropped);
               && u.frames == WithTop(t, Top(t).(held := Top(t).held - {l})).frames && u.boot == t.boot
               && (u.flag <==> t.flag || (|t.frames| == 1 && !t.boot && NoPreempt(Top(t).held) == {l}))
  {
    Reached(s, steps, t);
    hide Run, Start, Inv, After;
    DropLeaves(t, l);
    DropFlag(t, Enabling(After(t, Drop(l))), l);
  }

  lemma DropLeaves(t: State, l: Lock)
    requires Inv(t) && Enabled(t, Drop(l))
    ensures var dropped := After(t, Drop(l));
            && dropped.frames != [] && l !in Top(dropped).held && (Top(dropped).op.Leaving? <==> l.noPreempt)
            && (Top(dropped).op.Leaving? ==> dropped.outstanding > 0) && Inv(Enabling(dropped))
            && Enabling(dropped).frames == WithTop(t, Top(t).(held := Top(t).held - {l})).frames
            && Enabling(dropped).boot == t.boot
  {
    hide Inv, After;
    DropFrames(t, l);
    var f, dropped := Top(t), After(t, Drop(l));
    StepKeeps(t, Drop(l));
    EnablingKeeps(dropped);
    Rewritten(t, Top(dropped), f.(held := f.held - {l}));
  }

  lemma DropFlag(t: State, u: State, l: Lock)
    requires Inv(t) && Inv(u) && t.frames != [] && l in Top(t).held && Top(t).op.Ready? && u.boot == t.boot
    requires u.frames == WithTop(t, Top(t).(held := Top(t).held - {l})).frames
    ensures u.flag <==> t.flag || (|t.frames| == 1 && !t.boot && NoPreempt(Top(t).held) == {l})
  {
    hide Inv, NoPreempt, On;
    var f := Top(t);
    Rewritten(t, f.(held := f.held - {l}), f);
    FlagNow(t);
    FlagNow(u);
    LastRequest(f, l, t.boot);
  }

  lemma LastRequest(f: Frame, l: Lock, boot: bool)
    requires l in f.held && f.op.Ready?
    ensures On(f.(held := f.held - {l}), boot) <==> On(f, boot) || (!boot && NoPreempt(f.held) == {l})
  {
    assert l in NoPreempt(f.held) <==> l.noPreempt;
    assert NoPreempt(f.held - {l}) == NoPreempt(f.held) - {l};
  }

  /** Giving up the request outstanding since boot turns interrupts on, unless a lock held asks
      for them to be off. */
  lemma BootEnds(s: State, steps: seq<Step>, t: State)
    requires Start(s) && Run(s, steps, t) && Enabled(t, EndBoot)
    ensures var ended := After(t, EndBoot);
            && ended.frames != [] && (Top(ended).op.Leaving? ==> ended.outstanding > 0)
            && var u := Enabling(ended);
               !u.boot && u.frames == t.frames && (u.flag <==> NoPreempt(Top(t).held) == {})
  {
    Reached(s, steps, t);
    hide Run, Start, Inv, After;
    TopCounts(t);
    EndFrames(t);
    var ended := After(t, EndBoot);
    StepKeeps(t, EndBoot);
    EnablingKeeps(ended);
    Rewritten(t, Top(ended), Top(t));
    FlagNow(Enabling(ended));
  }

  lemma EndFrames(s: State)
    requires Enabled(s, EndBoot)
    ensures var u := After(s, EndBoot);
            u.frames == WithTop(s, Top(s).(op := Leaving)).frames && !u.boot && u.frames != []
  {
  }

  /** The handler of an interrupt or exception past its entry. */
  ghost function Handling(s: State, e: Step): (h: State)
    requires Enabled(s, e) && (e.Interrupt? || e.Fault?)
    ensures h.frames == s.frames + [Frame(if e.Fault? then Exception else Maskable, s.flag, {}, Ready)]
    ensures !h.flag && h.outstanding == s.outstanding && h.boot == s.boot
    ensures h.interruptDepth == s.interruptDepth + 1 && h.exceptionDepth == s.exceptionDepth + (if e.Fault? then 1 else 0)
  {
    var entered := After(After(s, e), Enter);
    if e.Fault? then After(entered, EnterException) else entered
  }

  /** The handler on top at the end of its exit, having nothing in its hands. */
  ghost function Exited(s: State): (u: State)
    requires |s.frames| > 1 && Enabled(s, Exit)
    ensures u.frames == WithTop(s, Top(s).(op := Exit0)).frames && u.boot == s.boot && u.outstanding == s.outstanding
    ensures u.interruptDepth == s.interruptDepth - 1
    ensures u.exceptionDepth == s.exceptionDepth - (if Top(s).kind.Exception? then 1 else 0)
  {
    var left := After(s, Exit);
    Rewritten(s, Top(s).(op := Exit1), Top(s).(op := Exit0));
    if Top(s).kind.Exception? then After(left, ExitInterrupt) else left
  }

  /** The handler on top left. */
  ghost function Handled(s: State): (u: State)
    requires |s.frames| > 1 && Enabled(s, Exit)
    ensures u.frames == s.frames[..|s.frames| - 1] && u.flag == Top(s).saved && u.boot == s.boot
    ensures u.interruptDepth == s.interruptDepth - 1 && u.outstanding == s.outstanding
    ensures u.exceptionDepth == s.exceptionDepth - (if Top(s).kind.Exception? then 1 else 0)
  {
    var f := Top(s).(op := Exit0);
    Rewritten(s, f, f);
    After(Exited(s), Return)
  }

  /** A handler starts with interrupts off, counted, on top of the code it interrupted, and its
      return leaves the core exactly as it was. */
  lemma HandlerReturns(t: State, e: Step)
    requires Enabled(t, e) && (e.Interrupt? || e.Fault?)
    ensures var h := Handling(t, e);
            && !h.flag && h.interruptDepth == t.interruptDepth + 1 && |h.frames| > 1 && h.frames[..|h.frames| - 1] == t.frames
            && (Top(h).kind.Exception? <==> e.Fault?) && h.exceptionDepth == t.exceptionDepth + (if e.Fault? then 1 else 0)
            && Enabled(h, Exit) && Handled(h) == t
  {
    hide After;
    var h := Handling(t, e);
    assert h.frames[..|h.frames| - 1] == t.frames;
  }

  /** The steps from `s` to `t` all leave more than `n` pieces of code on the stack. */
  ghost predicate Above(s: State, steps: seq<Step>, t: State, n: nat)
    decreases |steps|
  {
    && |s.frames| > n
    && if steps == [] then s == t else Enabled(s, steps[0]) && Above(After(s, steps[0]), steps[1..], t, n)
  }

  lemma StepAbove(s: State, e: Step, n: nat)
    requires Inv(s) && Enabled(s, e) && 1 <= n < |s.frames| && n < |After(s, e).frames|
    ensures After(s, e).frames[..n] == s.frames[..n] && After(s, e).boot == s.boot
  {
    hide Counts, Flags;
    assert FrameOk(Top(s), |s.frames| - 1);
  }

  lemma {:induction false} StaysBelow(s: State, steps: seq<Step>, t: State, n: nat)
    requires Inv(s) && n >= 1 && Above(s, steps, t, n)
    ensures Inv(t) && |t.frames| > n && t.frames[..n] == s.frames[..n] && t.boot == s.boot
    decreases |steps|
  {
    if steps != [] {
      var s' := After(s, steps[0]);
      StepKeeps(s, steps[0]);
      assert |s'.frames| > n;
      StepAbove(s, steps[0], n);
      hide Inv, After, Enabled;
      StaysBelow(s', steps[1..], t, n);
    }
  }

  /** Whatever a handler does from its arrival to its return, with any locks, and any handlers on
      top of it: the code it interrupted finds the core exactly as it was. */
  lemma HandlersAreTransparent(s: State, steps: seq<Step>, t: State, e: Step, inner: seq<Step>, u: State)
    requires Start(s) && Run(s, steps, t) && Enabled(t, e) && (e.Interrupt? || e.Fault?)
    requires Above(After(t, e), inner, u, |t.frames|) && Enabled(u, Return) && |u.frames| == |t.frames| + 1
    ensures After(u, Return) == t
  {
    Reached(s, steps, t);
    hide Run, Start, Inv, Above, After;
    var n := |t.frames|;
    Arrives(t, e);
    StepKeeps(t, e);
    NotEmpty(t);
    StaysBelow(After(t, e), inner, u, n);
    StepKeeps(u, Return);
    Returns(u);
    StackDecides(After(u, Return), t);
  }

  lemma Arrives(s: State, e: Step)
    requires Enabled(s, e) && (e.Interrupt? || e.Fault?)
    ensures After(s, e).frames[..|s.frames|] == s.frames && After(s, e).boot == s.boot
  {
  }

  lemma Returns(s: State)
    requires Enabled(s, Return)
    ensures After(s, Return).frames == s.frames[..|s.frames| - 1] && After(s, Return).boot == s.boot
  {
  }

  lemma NotEmpty(s: State)
    requires Inv(s)
    ensures s.frames != []
  {
  }

  /** Handlers run strictly nested: at most one maskable interrupt is on the stack, directly
      above the kernel's code, and everything above it is an exception. */
  lemma NestingShape(s: State, steps: seq<Step>, t: State, i: nat)
    requires Start(s) && Run(s, steps, t) && i < |t.frames|
    ensures t.frames[i].kind.Kernel? <==> i == 0
    ensures t.frames[i].kind.Maskable? ==> i == 1 && On(t.frames[0], t.boot)
  {
    Reached(s, steps, t);
    hide Run, Counts;
    assert FrameOk(t.frames[i], i);
  }
}
