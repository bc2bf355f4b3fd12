/**
 * experiments/23_portable_signals: block SIGUSR1, fork a child that sends it,
 * find it pending, and take it atomically in sigsuspend; then restore the mask
 * and the action.  A state machine over the parent's calls, the child's steps and
 * the deliveries; no other process sends SIGUSR1.
 */
module PortableSignals {

  /** Where main is; the names follow its calls and tests. */
  datatype ParentPc =
    | Prepare | Block | Install | Fork
    | Wait | CheckStatus | SigPending | CheckPending | DelSet
    | LoopTest | Suspend | Suspended
    | CleanupWait | RestoreMask | RestoreAction | Leaving | Exited

  /** The child; main's child_reaped says that it is Reaped. */
  datatype Child = NoChild | AtKill | AtExit(ok: bool) | Zombie(ok: bool) | Reaped(ok: bool)

  datatype Action = Old | New

  /**
   * SIGUSR1 in the parent: its bit in the mask, now and at the start, whether it is
   * pending, the installed action and signal_received.  sent and toOld are history:
   * the child's signal was sent, and it was delivered to the old action.
   */
  datatype Signal = Signal(
    oldBlocked: bool, blocked: bool, pending: bool, action: Action, flag: bool, sent: bool, toOld: bool)

  /**
   * main's variables; waitOpen says that SIGUSR1 has been taken out of the mask for
   * sigsuspend, which starts as the old mask.  waitFailed and cleanupFailed are history:
   * which of its two waits failed.
   */
  datatype Vars = Vars(
    result: bool, maskChanged: bool, actionChanged: bool, isPending: bool, waitOpen: bool,
    waitFailed: bool, cleanupFailed: bool)

  datatype State = State(pc: ParentPc, child: Child, v: Vars, k: Signal)

  /** A call of the parent succeeds, fails, or is interrupted by some other signal. */
  datatype Outcome = Ok | Fail | Interrupted

  datatype Event = Parent(outcome: Outcome) | ChildKill(ok: bool) | ChildExit | ChildDies | Deliver

  function Init(oldBlocked: bool): State {
    State(Prepare, NoChild, Vars(false, false, false, false, false, false, false),
          Signal(oldBlocked, oldBlocked, false, Old, false, false, false))
  }

  predicate MustReap(child: Child) {
    !child.NoChild? && !child.Reaped?
  }

  predicate InSetup(pc: ParentPc) {
    pc.Prepare? || pc.Block? || pc.Install? || pc.Fork?
  }

  predicate InCheck(pc: ParentPc) {
    pc.Wait? || pc.CheckStatus? || pc.SigPending? || pc.CheckPending? || pc.DelSet?
  }

  predicate InLoop(pc: ParentPc) {
    pc.LoopTest? || pc.Suspend? || pc.Suspended?
  }

  predicate InCleanup(pc: ParentPc) {
    pc.CleanupWait? || pc.RestoreMask? || pc.RestoreAction? || pc.Leaving? || pc.Exited?
  }

  /** The parent's current step makes a call that may report a failure. */
  predicate CanFail(s: State) {
    || InSetup(s.pc)
    || s.pc.Wait? || s.pc.SigPending? || s.pc.DelSet? || s.pc.Suspend?
    || (s.pc.CleanupWait? && MustReap(s.child))
    || (s.pc.RestoreMask? && s.v.maskChanged)
    || (s.pc.RestoreAction? && s.v.actionChanged)
  }

  /** The parent is in a waitpid. */
  predicate Waiting(s: State) {
    s.pc.Wait? || (s.pc.CleanupWait? && MustReap(s.child))
  }

  predicate ParentEnabled(s: State, o: Outcome) {
    match o
    case Ok => !s.pc.Exited? && !s.pc.Suspended? && (Waiting(s) ==> s.child.Zombie?)
    case Fail => CanFail(s)
    case Interrupted => Waiting(s) || s.pc.Suspended?
  }

  predicate Enabled(s: State, e: Event) {
    match e
    case Parent(o) => ParentEnabled(s, o)
    case ChildKill(_) => s.child.AtKill?
    case ChildExit => s.child.AtExit?
    case ChildDies => s.child.AtKill? || s.child.AtExit?
    // In sigsuspend the wait mask applies.
    case Deliver =>
      && s.k.pending && !s.pc.Exited?
      && if s.pc.Suspended? then s.v.waitOpen || !s.k.oldBlocked else !s.k.blocked
  }

  function Delivered(k: Signal): Signal {
    if k.action.New? then k.(pending := false, flag := true) else k.(pending := false, toOld := true)
  }

  /** Lines 36-61. */
  function SetupOk(s: State): State {
    match s.pc
    case Prepare => s.(pc := Block)
    case Block => s.(pc := Install, k := s.k.(blocked := true), v := s.v.(maskChanged := true))
    case Install => s.(pc := Fork, k := s.k.(action := New), v := s.v.(actionChanged := true))
    case _ => s.(pc := Wait, child := AtKill)
  }

  function Reap(child: Child): Child {
    if child.Zombie? then Reaped(child.ok) else child
  }

  /** Lines 63-93. */
  function CheckOk(s: State): State {
    match s.pc
    case Wait => s.(pc := CheckStatus, child := Reap(s.child))
    case CheckStatus => s.(pc := if s.child == Reaped(true) then SigPending else CleanupWait)
    case SigPending => s.(pc := CheckPending, v := s.v.(isPending := s.k.pending))
    case CheckPending => s.(pc := if !s.v.isPending || s.k.flag then CleanupWait else DelSet)
    case _ => s.(pc := LoopTest, v := s.v.(waitOpen := true))
  }

  /** Lines 94-95: the flag test and the way into sigsuspend. */
  function LoopOk(s: State): State {
    if s.pc.Suspend? then s.(pc := Suspended)
    else if s.k.flag then s.(pc := CleanupWait, v := s.v.(result := true))
    else s.(pc := Suspend)
  }

  /** A pending signal that the restored mask lets through is delivered before the call returns. */
  function MaskRestored(k: Signal): Signal {
    if k.pending && !k.oldBlocked then Delivered(k.(blocked := k.oldBlocked)) else k.(blocked := k.oldBlocked)
  }

  /** Lines 104-120. */
  function CleanupOk(s: State): State {
    match s.pc
    case CleanupWait => s.(pc := RestoreMask, child := Reap(s.child))
    case RestoreMask => s.(pc := RestoreAction, k := if s.v.maskChanged then MaskRestored(s.k) else s.k)
    case RestoreAction => s.(pc := Leaving, k := if s.v.actionChanged then s.k.(action := Old) else s.k)
    case _ => s.(pc := Exited)
  }

  function ParentOk(s: State): State {
    if InSetup(s.pc) then SetupOk(s)
    else if InCheck(s.pc) then CheckOk(s)
    else if InLoop(s.pc) then LoopOk(s)
    else CleanupOk(s)
  }

  function FailTo(pc: ParentPc): ParentPc {
    match pc
    case CleanupWait => RestoreMask
    case RestoreMask => RestoreAction
    case RestoreAction => Leaving
    case _ => CleanupWait
  }

  function ParentFail(s: State): State {
    s.(pc := FailTo(s.pc),
       v := s.v.(result := false,
                 waitFailed := s.v.waitFailed || s.pc.Wait?,
                 cleanupFailed := s.v.cleanupFailed || s.pc.CleanupWait?))
  }

  function ChildStep(s: State, e: Event): State {
    match e
    case ChildKill(true) => s.(child := AtExit(true), k := s.k.(pending := true, sent := true))
    case ChildKill(false) => s.(child := AtExit(false))
    case ChildExit => if s.child.AtExit? then s.(child := Zombie(s.child.ok)) else s
    case _ => s.(child := Zombie(false))
  }

  function Apply(s: State, e: Event): State
    requires Enabled(s, e)
  {
    match e
    case Parent(Ok) => ParentOk(s)
    case Parent(Fail) => ParentFail(s)
    case Parent(Interrupted) => s.(pc := if s.pc.Suspended? then LoopTest else s.pc)
    case Deliver => s.(pc := if s.pc.Suspended? then LoopTest else s.pc, k := Delivered(s.k))
    case _ => ChildStep(s, e)
  }

  // ---------------------------------------------------------------- invariant

  predicate AfterRestore(pc: ParentPc) {
    pc.RestoreAction? || pc.Leaving? || pc.Exited?
  }

  /** Which of main's variables go with which place in it. */
  predicate PlaceOk(s: State) {
    && (s.v.maskChanged || s.pc.Prepare? || s.pc.Block? || InCleanup(s.pc))
    && (s.pc.Prepare? || s.pc.Block? ==> !s.v.maskChanged)
    && (s.v.actionChanged ==> s.v.maskChanged)
    && (s.v.actionChanged || s.pc.Prepare? || s.pc.Block? || s.pc.Install? || InCleanup(s.pc))
    && (s.pc.Prepare? || s.pc.Block? || s.pc.Install? ==> !s.v.actionChanged)
    && (!s.child.NoChild? ==> s.v.actionChanged)
    && (InSetup(s.pc) ==> s.child.NoChild?)
    && (InLoop(s.pc) ==> s.v.waitOpen)
    && (s.pc.Wait? ==> MustReap(s.child))
    && (s.pc.CheckStatus? ==> s.child.Reaped?)
    && (InLoop(s.pc) || (InCheck(s.pc) && !s.pc.Wait? && !s.pc.CheckStatus?) ==> s.child == Reaped(true))
  }

  /** Which waits main has made, and that only a failure of both leaves the child unreaped. */
  predicate ReapOk(s: State) {
    && (InSetup(s.pc) || InCheck(s.pc) || InLoop(s.pc) ==> !s.v.waitFailed && !s.v.cleanupFailed)
    && (s.pc.CleanupWait? ==> !s.v.cleanupFailed && (MustReap(s.child) <==> s.v.waitFailed))
    && (s.v.cleanupFailed ==> s.v.waitFailed)
    && (s.pc.RestoreMask? || AfterRestore(s.pc) ==> (MustReap(s.child) <==> s.v.cleanupFailed))
  }

  /**
   * Once blocked, the signal stays blocked until the mask is restored, and for good
   * if it was blocked at the start; the action likewise stays until it is restored.
   */
  predicate MaskOk(s: State) {
    && (s.k.oldBlocked ==> s.k.blocked)
    && (s.v.maskChanged && !AfterRestore(s.pc) ==> s.k.blocked)
    && (!s.v.maskChanged ==> s.k.blocked == s.k.oldBlocked)
    && (s.v.actionChanged && !s.pc.Leaving? && !s.pc.Exited? ==> s.k.action.New?)
    && (!s.v.actionChanged ==> s.k.action.Old?)
  }

  /** The child's one signal is nowhere, pending, handled, or taken by the old action. */
  predicate SignalOk(child: Child, k: Signal) {
    && (child.NoChild? || child.AtKill? ==> !k.sent)
    && (child == AtExit(true) || child == Zombie(true) || child == Reaped(true) ==> k.sent)
    && (k.sent <==> k.pending || k.flag || k.toOld)
    && !(k.pending && k.flag) && !(k.pending && k.toOld) && !(k.flag && k.toOld)
  }

  predicate WaitOk(s: State) {
    && (s.k.flag ==> s.pc.LoopTest? || InCleanup(s.pc))
    && (s.pc.CheckPending? ==> s.v.isPending)
    && (s.v.result ==> InCleanup(s.pc) && s.k.flag && s.child == Reaped(true))
    // What the order of the cleanup is for: nothing is left to reach the old action.
    && (AfterRestore(s.pc) && s.k.pending && s.child.Reaped? ==> s.k.blocked)
    && (s.k.toOld ==> AfterRestore(s.pc) && !s.child.Reaped? && !s.k.oldBlocked)
  }

  predicate Inv(s: State) {
    PlaceOk(s) && ReapOk(s) && MaskOk(s) && SignalOk(s.child, s.k) && WaitOk(s)
  }

  lemma SetupKeepsInv(s: State)
    requires Inv(s) && InSetup(s.pc)
    ensures Inv(SetupOk(s))
  {
  }

  lemma CheckKeepsInv(s: State)
    requires Inv(s) && ParentEnabled(s, Ok) && InCheck(s.pc)
    ensures Inv(CheckOk(s))
  {
  }

  lemma LoopKeepsInv(s: State)
    requires Inv(s) && (s.pc.LoopTest? || s.pc.Suspend?)
    ensures Inv(LoopOk(s))
  {
  }

  lemma CleanupKeepsInv(s: State)
    requires Inv(s) && ParentEnabled(s, Ok) && InCleanup(s.pc)
    ensures Inv(CleanupOk(s))
  {
  }

  lemma FailKeepsInv(s: State)
    requires Inv(s) && CanFail(s)
    ensures Inv(ParentFail(s))
  {
  }

  lemma OtherKeepsInv(s: State, e: Event)
    requires Inv(s) && Enabled(s, e) && e != Parent(Ok) && e != Parent(Fail)
    ensures Inv(Apply(s, e))
  {
  }

  lemma StepKeepsInv(s: State, e: Event)
    requires Inv(s) && Enabled(s, e)
    ensures Inv(Apply(s, e))
  {
    if e == Parent(Ok) {
      if InSetup(s.pc) { SetupKeepsInv(s); }
      else if InCheck(s.pc) { CheckKeepsInv(s); }
      else if InLoop(s.pc) { LoopKeepsInv(s); }
      else { CleanupKeepsInv(s); }
    } else if e == Parent(Fail) {
      FailKeepsInv(s);
    } else {
      OtherKeepsInv(s, e);
    }
  }

  // ------------------------------------------------------------------ progress

  /** Interruptions, failures and the child's death come from outside. */
  predicate External(e: Event) {
    e == Parent(Interrupted) || e == Parent(Fail) || e == ChildKill(false) || e.ChildDies?
  }

  /**
   * Until main has returned something other than an outside event can happen.  In
   * sigsuspend it is the delivery of the child's signal: no wakeup is lost.
   */
  lemma NeverStuck(s: State) returns (e: Event)
    requires Inv(s) && !s.pc.Exited?
    ensures !External(e) && Enabled(s, e)
    ensures s.pc.Suspended? ==> e == Deliver
  {
    if s.pc.Suspended? {
      e := Deliver;
    } else if ParentEnabled(s, Ok) {
      e := Parent(Ok);
    } else if s.child.AtKill? {
      e := ChildKill(true);
    } else {
      e := ChildExit;
    }
  }

  function PlaceRank(pc: ParentPc, flag: bool): nat {
    match pc
    case Prepare => 18
    case Block => 17
    case Install => 16
    case Fork => 15
    case Wait => 14
    case CheckStatus => 13
    case SigPending => 12
    case CheckPending => 11
    case DelSet => 10
    case LoopTest => if flag then 6 else 9
    case Suspend => 8
    case Suspended => 7
    case CleanupWait => 4
    case RestoreMask => 3
    case RestoreAction => 2
    case Leaving => 1
    case Exited => 0
  }

  function ChildRank(child: Child): nat {
    match child
    case NoChild => 2
    case AtKill => 2
    case AtExit(_) => 1
    case _ => 0
  }

  /** A signal that has not been taken may still cost a delivery. */
  function Work(s: State): nat {
    PlaceRank(s.pc, s.k.flag) + 2 * ChildRank(s.child) + if s.k.pending then 1 else 0
  }

  lemma SetupConsumesWork(s: State)
    requires InSetup(s.pc) && s.child.NoChild?
    ensures Work(SetupOk(s)) < Work(s)
  {
  }

  lemma CheckConsumesWork(s: State)
    requires InCheck(s.pc)
    ensures Work(CheckOk(s)) < Work(s)
  {
    var s' := CheckOk(s);
    assert PlaceRank(s'.pc, s.k.flag) < PlaceRank(s.pc, s.k.flag) && s'.k == s.k;
    assert ChildRank(s'.child) == ChildRank(s.child);
  }

  lemma LoopConsumesWork(s: State)
    requires s.pc.LoopTest? || (s.pc.Suspend? && !s.k.flag)
    ensures Work(LoopOk(s)) < Work(s)
  {
  }

  lemma CleanupConsumesWork(s: State)
    requires InCleanup(s.pc) && !s.pc.Exited?
    ensures Work(CleanupOk(s)) < Work(s)
  {
    var s' := CleanupOk(s);
    assert PlaceRank(s'.pc, s'.k.flag) < PlaceRank(s.pc, s.k.flag);
    assert ChildRank(s'.child) == ChildRank(s.child);
  }

  lemma OkConsumesWork(s: State)
    requires Inv(s) && ParentEnabled(s, Ok)
    ensures Work(ParentOk(s)) < Work(s)
  {
    if InSetup(s.pc) {
      SetupConsumesWork(s);
    } else if InCheck(s.pc) {
      CheckConsumesWork(s);
    } else if InLoop(s.pc) {
      LoopConsumesWork(s);
    } else {
      CleanupConsumesWork(s);
    }
  }

  lemma FailConsumesWork(s: State)
    requires CanFail(s)
    ensures Work(ParentFail(s)) < Work(s)
  {
  }

  lemma OtherConsumesWork(s: State, e: Event)
    requires Inv(s) && Enabled(s, e) && e != Parent(Ok) && e != Parent(Fail)
    ensures Work(Apply(s, e)) <= Work(s) + if e == Parent(Interrupted) then 2 else -1
  {
  }

  lemma StepConsumesWork(s: State, e: Event)
    requires Inv(s) && Enabled(s, e)
    ensures Work(Apply(s, e)) <= Work(s) + if e == Parent(Interrupted) then 2 else -1
  {
    if e == Parent(Ok) {
      OkConsumesWork(s);
    } else if e == Parent(Fail) {
      FailConsumesWork(s);
    } else {
      OtherConsumesWork(s, e);
    }
  }

  // ------------------------------------------------------------ failure tracking

  predicate FailedChild(child: Child) {
    child == AtExit(false) || child == Zombie(false) || child == Reaped(false)
  }

  /** Nothing has failed so far: no call of the parent, and not the child. */
  predicate Clean(s: State) {
    (InCleanup(s.pc) ==> s.v.result) && !FailedChild(s.child)
  }

  predicate Failure(e: Event) {
    e == Parent(Fail) || e == ChildKill(false) || e.ChildDies?
  }

  lemma StepTracksFailures(s: State, e: Event)
    requires Inv(s) && Enabled(s, e)
    ensures Clean(Apply(s, e)) <==> Clean(s) && !Failure(e)
  {
    if e == Parent(Ok) {
      OkTracksFailures(s);
    } else if e == Parent(Fail) {
      assert !ParentFail(s).v.result && InCleanup(ParentFail(s).pc);
    }
  }

  lemma OkTracksFailures(s: State)
    requires Inv(s) && ParentEnabled(s, Ok)
    ensures Clean(ParentOk(s)) <==> Clean(s)
  {
    if InSetup(s.pc) {
      assert Clean(SetupOk(s)) <==> Clean(s);
    } else if InCheck(s.pc) {
      assert Clean(CheckOk(s)) <==> Clean(s);
    } else if InLoop(s.pc) {
      assert Clean(LoopOk(s)) <==> Clean(s);
    }
  }

  // ----------------------------------------------------------------- whole runs

  predicate ValidRun(s: State, es: seq<Event>)
    decreases |es|
  {
    es == [] || (Enabled(s, es[0]) && ValidRun(Apply(s, es[0]), es[1..]))
  }

  function Final(s: State, es: seq<Event>): State
    requires ValidRun(s, es)
    decreases |es|
  {
    if es == [] then s else Final(Apply(s, es[0]), es[1..])
  }

  function Interruptions(es: seq<Event>): nat {
    if es == [] then 0 else (if es[0] == Parent(Interrupted) then 1 else 0) + Interruptions(es[1..])
  }

  predicate AnyFailure(es: seq<Event>) {
    es != [] && (Failure(es[0]) || AnyFailure(es[1..]))
  }

  lemma Step(s: State, e: Event)
    requires Inv(s) && Enabled(s, e)
    ensures Inv(Apply(s, e))
    ensures Work(Apply(s, e)) <= Work(s) + if e == Parent(Interrupted) then 2 else -1
    ensures Clean(Apply(s, e)) <==> Clean(s) && !Failure(e)
  {
    StepKeepsInv(s, e);
    StepConsumesWork(s, e);
    StepTracksFailures(s, e);
  }

  lemma {:induction false} RunKeepsInv(s: State, es: seq<Event>)
    requires Inv(s) && ValidRun(s, es)
    ensures Inv(Final(s, es))
    ensures Work(Final(s, es)) <= Work(s) - |es| + 3 * Interruptions(es)
    ensures Clean(Final(s, es)) <==> Clean(s) && !AnyFailure(es)
    decreases |es|
  {
    if es == [] {
    } else {
      var s' := Apply(s, es[0]);
      Step(s, es[0]);
      RunKeepsInv(s', es[1..]);
      assert Final(s, es) == Final(s', es[1..]);
    }
  }

  /**
   * Race freedom over every run: the pending check never fails and never sees the
   * handler's mark; success is only claimed once the handler has run; the signal
   * of a child that was reaped never reaches the old action; and only a failure of
   * both waits leaves a child unreaped behind the cleanup wait.
   */
  lemma EveryRunIsSafe(oldBlocked: bool, es: seq<Event>)
    requires ValidRun(Init(oldBlocked), es)
    ensures var s := Final(Init(oldBlocked), es);
            && (s.pc.CheckPending? ==> s.v.isPending && !s.k.flag)
            && (s.v.result ==> s.k.flag && s.k.sent)
            && (s.k.toOld ==> s.v.waitFailed && s.v.cleanupFailed && !s.k.oldBlocked)
            && (s.child.Reaped? ==> !s.k.toOld)
            && (s.child.Reaped? && s.pc.Exited? && s.k.pending ==> s.k.blocked)
            && (s.pc.RestoreMask? || AfterRestore(s.pc) ==>
                  (MustReap(s.child) <==> s.v.waitFailed && s.v.cleanupFailed))
  {
    RunKeepsInv(Init(oldBlocked), es);
  }

  /**
   * Every run ends, after a number of steps bounded by the interruptions, and it
   * ends in success exactly when no call and not the child failed.
   */
  lemma SucceedsIffNothingFailed(oldBlocked: bool, es: seq<Event>)
    requires ValidRun(Init(oldBlocked), es)
    ensures |es| <= 22 + 3 * Interruptions(es)
    ensures var s := Final(Init(oldBlocked), es);
            && ((forall e :: Enabled(s, e) ==> External(e)) ==> s.pc.Exited?)
            && (s.pc.Exited? ==> (s.v.result <==> !AnyFailure(es)))
  {
    RunKeepsInv(Init(oldBlocked), es);
    var s := Final(Init(oldBlocked), es);
    if !s.pc.Exited? {
      var e := NeverStuck(s);
    }
  }

  // -------------------------------------------------------------- what is restored

  /** The call that main makes at pc fails in the course of the run. */
  predicate FailsAt(pc: ParentPc, s: State, es: seq<Event>)
    requires ValidRun(s, es)
    decreases |es|
  {
    es != [] && ((s.pc == pc && es[0] == Parent(Fail)) || FailsAt(pc, Apply(s, es[0]), es[1..]))
  }

  predicate PastRestore(pc: ParentPc) {
    pc.Leaving? || pc.Exited?
  }

  /** Mask and action, given whether the calls that restore them have failed. */
  predicate Restored(s: State, maskFailed: bool, actionFailed: bool) {
    && (maskFailed ==> AfterRestore(s.pc))
    && (actionFailed ==> PastRestore(s.pc))
    && (AfterRestore(s.pc) ==>
          (s.k.blocked == s.k.oldBlocked <==> s.k.oldBlocked || !s.v.maskChanged || !maskFailed))
    && (PastRestore(s.pc) ==> (s.k.action.Old? <==> !s.v.actionChanged || !actionFailed))
  }

  lemma CleanupRestores(s: State, m: bool, a: bool)
    requires Inv(s) && ParentEnabled(s, Ok) && InCleanup(s.pc) && Restored(s, m, a)
    ensures Restored(CleanupOk(s), m, a)
  {
  }

  lemma FailRestores(s: State, m: bool, a: bool)
    requires Inv(s) && CanFail(s) && Restored(s, m, a)
    ensures Restored(ParentFail(s), m || s.pc.RestoreMask?, a || s.pc.RestoreAction?)
  {
  }

  lemma OtherRestores(s: State, e: Event, m: bool, a: bool)
    requires Inv(s) && Enabled(s, e) && e != Parent(Ok) && e != Parent(Fail) && Restored(s, m, a)
    ensures Restored(Apply(s, e), m, a)
  {
  }

  lemma StepRestores(s: State, e: Event, m: bool, a: bool)
    requires Inv(s) && Enabled(s, e) && Restored(s, m, a)
    ensures Restored(Apply(s, e), m || (s.pc.RestoreMask? && e == Parent(Fail)),
                     a || (s.pc.RestoreAction? && e == Parent(Fail)))
  {
    if e == Parent(Ok) {
      if InSetup(s.pc) {
        assert !AfterRestore(SetupOk(s).pc);
      } else if InCheck(s.pc) {
        assert !AfterRestore(CheckOk(s).pc);
      } else if InLoop(s.pc) {
        assert !AfterRestore(LoopOk(s).pc);
      } else {
        CleanupRestores(s, m, a);
      }
    } else if e == Parent(Fail) {
      FailRestores(s, m, a);
    } else {
      OtherRestores(s, e, m, a);
    }
  }

  lemma {:induction false} RunRestores(s: State, es: seq<Event>, m: bool, a: bool)
    requires Inv(s) && ValidRun(s, es) && Restored(s, m, a)
    ensures Restored(Final(s, es), m || FailsAt(RestoreMask, s, es), a || FailsAt(RestoreAction, s, es))
    decreases |es|
  {
    if es == [] {
      assert Final(s, es) == s;
    } else {
      var e := es[0];
      StepKeepsInv(s, e);
      StepRestores(s, e, m, a);
      RunRestores(Apply(s, e), es[1..], m || (s.pc.RestoreMask? && e == Parent(Fail)),
                  a || (s.pc.RestoreAction? && e == Parent(Fail)));
    }
  }

  lemma StepKeepsMask(s: State, e: Event)
    requires Enabled(s, e)
    ensures Apply(s, e).k.oldBlocked == s.k.oldBlocked
  {
    if e == Parent(Ok) {
      if InSetup(s.pc) {
        assert SetupOk(s).k.oldBlocked == s.k.oldBlocked;
      } else if InCheck(s.pc) {
        assert CheckOk(s).k == s.k;
      } else if InLoop(s.pc) {
        assert LoopOk(s).k == s.k;
      } else {
        assert CleanupOk(s).k.oldBlocked == s.k.oldBlocked;
      }
    } else if e.ChildKill? || e.ChildExit? || e.ChildDies? {
      assert ChildStep(s, e).k.oldBlocked == s.k.oldBlocked;
    }
  }

  lemma {:induction false} RunKeepsMask(s: State, es: seq<Event>)
    requires ValidRun(s, es)
    ensures Final(s, es).k.oldBlocked == s.k.oldBlocked
    decreases |es|
  {
    if es == [] {
      assert Final(s, es) == s;
    } else {
      StepKeepsMask(s, es[0]);
      RunKeepsMask(Apply(s, es[0]), es[1..]);
    }
  }

  lemma {:induction false} CleanRunFailsNowhere(pc: ParentPc, s: State, es: seq<Event>)
    requires ValidRun(s, es) && !AnyFailure(es)
    ensures !FailsAt(pc, s, es)
    decreases |es|
  {
    if es == [] {
    } else {
      assert !Failure(es[0]);
      CleanRunFailsNowhere(pc, Apply(s, es[0]), es[1..]);
    }
  }

  lemma CleanExitIsQuiet(s: State)
    requires Inv(s) && s.pc.Exited? && Clean(s)
    ensures !s.k.pending
  {
  }

  /**
   * What main leaves behind, on every path: SIGUSR1 is blocked as it was at the
   * start unless main had blocked it and failed to restore the mask, and the old
   * action is back unless main had replaced it and failed to restore it.
   */
  lemma ExitRestores(oldBlocked: bool, es: seq<Event>)
    requires ValidRun(Init(oldBlocked), es)
    ensures var s := Final(Init(oldBlocked), es);
            s.pc.Exited? ==>
              && (s.k.blocked == oldBlocked <==>
                    oldBlocked || !s.v.maskChanged || !FailsAt(RestoreMask, Init(oldBlocked), es))
              && (s.k.action.Old? <==> !s.v.actionChanged || !FailsAt(RestoreAction, Init(oldBlocked), es))
  {
    RunKeepsMask(Init(oldBlocked), es);
    RunRestores(Init(oldBlocked), es, false, false);
  }

  lemma CleanRunIsQuiet(oldBlocked: bool, es: seq<Event>)
    requires ValidRun(Init(oldBlocked), es) && !AnyFailure(es) && Final(Init(oldBlocked), es).pc.Exited?
    ensures !Final(Init(oldBlocked), es).k.pending
  {
    RunKeepsInv(Init(oldBlocked), es);
    CleanExitIsQuiet(Final(Init(oldBlocked), es));
  }

  /** After a run without failures mask and action are as at the start, and nothing is pending. */
  lemma CleanRunRestores(oldBlocked: bool, es: seq<Event>)
    requires ValidRun(Init(oldBlocked), es) && !AnyFailure(es)
    ensures var s := Final(Init(oldBlocked), es);
            s.pc.Exited? ==> s.k.blocked == oldBlocked && s.k.action.Old? && !s.k.pending
  {
    var s := Init(oldBlocked);
    ExitRestores(oldBlocked, es);
    CleanRunFailsNowhere(RestoreMask, s, es);
    CleanRunFailsNowhere(RestoreAction, s, es);
    if Final(s, es).pc.Exited? { CleanRunIsQuiet(oldBlocked, es); }
  }

  // ------------------------------------------------------------- the old action

  /** A run that goes on from s and in which the old action takes the child's signal. */
  predicate ReachesOld(s: State, es: seq<Event>) {
    ValidRun(s, es) && Final(s, es).k.toOld
  }

  lemma {:induction false} RunsJoin(s: State, a: seq<Event>, b: seq<Event>)
    requires ValidRun(s, a) && ValidRun(Final(s, a), b)
    ensures ValidRun(s, a + b) && Final(s, a + b) == Final(Final(s, a), b)
    decreases |a|
  {
    if a == [] {
      assert a + b == b;
    } else {
      RunsJoin(Apply(s, a[0]), a[1..], b);
      assert (a + b)[1..] == a[1..] + b;
    }
  }

  lemma OneStep(s: State, e: Event)
    requires Enabled(s, e)
    ensures ValidRun(s, [e]) && Final(s, [e]) == Apply(s, e)
  {
    assert [e][1..] == [];
  }

  lemma TwoSteps(s: State, e: Event, f: Event)
    requires Enabled(s, e) && Enabled(Apply(s, e), f)
    ensures ValidRun(s, [e] + [f]) && Final(s, [e] + [f]) == Apply(Apply(s, e), f)
  {
    OneStep(s, e);
    OneStep(Apply(s, e), f);
    RunsJoin(s, [e], [f]);
  }

  /** From the cleanup on, nothing can bring the signal to the old action any more. */
  predicate Sheltered(s: State) {
    && Inv(s) && !s.k.toOld
    && (s.pc.RestoreMask? || AfterRestore(s.pc))
    && (s.k.oldBlocked || (!s.child.AtKill? && (AfterRestore(s.pc) && s.k.pending ==> s.k.blocked)))
  }

  lemma StepKeepsShelter(s: State, e: Event)
    requires Sheltered(s) && Enabled(s, e)
    ensures Sheltered(Apply(s, e))
  {
    StepKeepsInv(s, e);
    if e == Parent(Ok) {
      assert Apply(s, e) == CleanupOk(s);
    }
  }

  lemma {:induction false} RunKeepsShelter(s: State, es: seq<Event>)
    requires Sheltered(s) && ValidRun(s, es)
    ensures !Final(s, es).k.toOld
    decreases |es|
  {
    if es == [] {
      assert Final(s, es) == s;
    } else {
      StepKeepsShelter(s, es[0]);
      RunKeepsShelter(Apply(s, es[0]), es[1..]);
    }
  }

  /** Both restorations done, the old mask lets the signal through, and the child sends last. */
  lemma LateSignal(s: State) returns (es: seq<Event>)
    requires Inv(s) && s.pc.RestoreMask? && s.child.AtKill? && !s.k.oldBlocked
    ensures ReachesOld(s, es)
  {
    var ok := Parent(Ok);
    var s1 := Apply(s, ok);
    assert s1.pc.RestoreAction? && s1.v.actionChanged && !s1.k.blocked && s1.child.AtKill?;
    var s2 := Apply(s1, ok);
    assert s2.pc.Leaving? && s2.k.action.Old? && !s2.k.blocked && s2.child.AtKill?;
    TwoSteps(s, ok, ok);
    var s3 := Apply(s2, ChildKill(true));
    assert s3.k.pending && s3.k.action.Old? && !s3.k.blocked;
    TwoSteps(s2, ChildKill(true), Deliver);
    RunsJoin(s, [ok] + [ok], [ChildKill(true)] + [Deliver]);
    es := ([ok] + [ok]) + ([ChildKill(true)] + [Deliver]);
  }

  /**
   * What the order of the cleanup leaves open, exactly: where the mask is about to
   * be restored, the old action may yet take the child's signal if and only if the
   * old mask lets the signal through and the child has still to send it.
   */
  lemma OldActionReachableIff(s: State)
    requires Inv(s) && s.pc.RestoreMask?
    ensures (exists es :: ReachesOld(s, es)) <==> !s.k.oldBlocked && s.child.AtKill?
  {
    if !s.k.oldBlocked && s.child.AtKill? {
      var es := LateSignal(s);
      assert ReachesOld(s, es);
    } else {
      assert Sheltered(s);
      forall es | ValidRun(s, es) ensures !ReachesOld(s, es) {
        RunKeepsShelter(s, es);
      }
    }
  }

  /** Set up, fork, and both waits fail before the child has sent anything. */
  lemma BothWaitsFail(oldBlocked: bool) returns (es: seq<Event>)
    ensures ValidRun(Init(oldBlocked), es)
    ensures Final(Init(oldBlocked), es).pc.RestoreMask? && Final(Init(oldBlocked), es).child.AtKill?
    ensures Final(Init(oldBlocked), es).k.oldBlocked == oldBlocked
  {
    var ok, fail := Parent(Ok), Parent(Fail);
    var s := Init(oldBlocked);
    var s2 := Apply(Apply(s, ok), ok);
    TwoSteps(s, ok, ok);
    assert s2.pc.Install? && s2.child.NoChild?;
    var s4 := Apply(Apply(s2, ok), ok);
    TwoSteps(s2, ok, ok);
    assert s4.pc.Wait? && s4.child.AtKill?;
    TwoSteps(s4, fail, fail);
    RunsJoin(s2, [ok] + [ok], [fail] + [fail]);
    es := ([ok] + [ok]) + ([fail] + [fail]);
    RunsJoin(s, [ok] + [ok], es);
    es := ([ok] + [ok]) + es;
  }

  /** Over whole runs: the old action can take the signal if and only if the mask let it through at the start. */
  lemma RunReachesOldIff(oldBlocked: bool)
    ensures (exists es :: ReachesOld(Init(oldBlocked), es)) <==> !oldBlocked
  {
    if oldBlocked {
      forall es | ValidRun(Init(true), es) ensures !ReachesOld(Init(true), es) {
        RunKeepsInv(Init(true), es);
        RunKeepsMask(Init(true), es);
      }
    } else {
      var a := BothWaitsFail(false);
      RunKeepsInv(Init(false), a);
      var b := LateSignal(Final(Init(false), a));
      RunsJoin(Init(false), a, b);
      assert ReachesOld(Init(false), a + b);
    }
  }
}
