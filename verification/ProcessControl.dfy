/**
 * experiments/05_process_control: spawn a child whose standard output is a pipe,
 * capture what it writes, reap it, and clean up.
 *
 * First the descriptor tables that the file actions make for the child, then a
 * state machine of the parent, the child and the bounded pipe between them, for
 * any output, any buffer and any capacity.
 */
module ProcessControl {

  import opened Bytes
  import opened Os

  // -------------------------------------------------- the child's descriptor table

  const STDOUT := 1

  datatype File = PipeReader | PipeWriter | Other(id: nat)

  datatype Descriptor = Descriptor(file: File, cloexec: bool)

  type Table = map<nat, Descriptor>

  datatype Action = Close(fd: nat) | Dup2(from: nat, to: nat)

  /** Duplicating a descriptor onto itself clears its close-on-exec flag. */
  function Perform(t: Table, a: Action): Option<Table> {
    match a
    case Close(fd) => Some(map k | k in t && k != fd :: t[k])
    case Dup2(from, to) => if from in t then Some(t[to := Descriptor(t[from].file, false)]) else None
  }

  function PerformAll(t: Table, actions: seq<Action>): Option<Table>
    decreases |actions|
  {
    if actions == [] then Some(t)
    else
      match Perform(t, actions[0])
      case None => None
      case Some(t') => PerformAll(t', actions[1..])
  }

  /** exec closes the descriptors marked close-on-exec. */
  function Exec(t: Table): Table {
    map k | k in t && !t[k].cloexec :: t[k]
  }

  /** The table a spawned program starts with; None if an action fails. */
  function Spawned(parent: Table, actions: seq<Action>): Option<Table> {
    match PerformAll(parent, actions)
    case None => None
    case Some(t) => Some(Exec(t))
  }

  predicate Holds(t: Table, f: File) {
    exists fd :: fd in t && t[fd].file == f
  }

  /** A close-on-exec pipe at two descriptors that were free; either may be standard output. */
  predicate PipeMade(before: Table, parent: Table, r: nat, w: nat) {
    && r != w && r !in before && w !in before
    && !Holds(before, PipeReader) && !Holds(before, PipeWriter)
    && parent == before[r := Descriptor(PipeReader, true)][w := Descriptor(PipeWriter, true)]
  }

  /** Lines 34-44: what the function adds when nothing fails. */
  function Plan(r: nat, w: nat): seq<Action> {
    [Close(r), Dup2(w, STDOUT)] + if w != STDOUT then [Close(w)] else []
  }

  class FileActions {
    var actions: seq<Action>
    // How many more additions succeed.
    var room: nat

    method Add(a: Action) returns (failed: bool)
      modifies this
      ensures failed <==> old(room) == 0
      ensures actions == if failed then old(actions) else old(actions) + [a]
      ensures room == if failed then 0 else old(room) - 1
    {
      failed := room == 0;
      if !failed {
        actions, room := actions + [a], room - 1;
      }
    }

    /** All the actions, in order, or as many as there was room for and a failure. */
    method AddFileActions(r: nat, w: nat) returns (failed: bool)
      modifies this
      ensures failed <==> old(room) < |Plan(r, w)|
      ensures actions == old(actions) + Plan(r, w)[..if failed then old(room) else |Plan(r, w)|]
    {
      failed := Add(Close(r));
      if !failed {
        failed := Add(Dup2(w, STDOUT));
      }
      if !failed && w != STDOUT {
        failed := Add(Close(w));
      }
    }
  }

  /** Standard output is the writer, no other descriptor is an end of the pipe. */
  predicate OnlyWritesToStdout(t: Table) {
    && STDOUT in t && t[STDOUT].file == PipeWriter
    && forall fd :: fd in t && fd != STDOUT ==> t[fd].file.Other?
  }

  lemma PlanPerformed(t: Table, r: nat, w: nat)
    requires r in t && w in t && r != w
    ensures PerformAll(t, Plan(r, w)).Some?
    ensures var u := PerformAll(t, Plan(r, w)).value;
            && STDOUT in u && u[STDOUT] == Descriptor(t[w].file, false)
            && forall fd :: fd != STDOUT ==>
                 ((fd in u <==> fd in t && fd != r && fd != w) && (fd in u ==> u[fd] == t[fd]))
  {
    var t1 := Perform(t, Close(r)).value;
    var t2 := Perform(t1, Dup2(w, STDOUT)).value;
    var tail := if w != STDOUT then [Close(w)] else [];
    assert Plan(r, w)[1..] == [Dup2(w, STDOUT)] + tail;
    assert Plan(r, w)[1..][1..] == tail;
    if w != STDOUT {
      assert tail[1..] == [];
      assert PerformAll(t2, tail) == Perform(t2, Close(w));
    }
    assert PerformAll(t1, Plan(r, w)[1..]) == PerformAll(t2, tail);
  }

  /**
   * Wherever the pipe's descriptors lie, the spawned program has the writer as its
   * standard output and no other end of the pipe, and its other descriptors are
   * those of the parent before the pipe was made, less the close-on-exec ones.
   */
  lemma SpawnConnectsStdout(before: Table, parent: Table, r: nat, w: nat)
    requires PipeMade(before, parent, r, w)
    ensures Spawned(parent, Plan(r, w)).Some?
    ensures var child := Spawned(parent, Plan(r, w)).value;
            && OnlyWritesToStdout(child)
            && forall fd :: fd != STDOUT ==>
                 ((fd in child <==> fd in before && !before[fd].cloexec) && (fd in child ==> child[fd] == before[fd]))
  {
    PlanPerformed(parent, r, w);
    assert parent[w] == Descriptor(PipeWriter, true);
    assert forall fd :: fd in before ==> !before[fd].file.PipeReader? && !before[fd].file.PipeWriter?;
  }

  /** Closing the writer after duplicating it is right exactly when it is not standard output itself. */
  lemma GuardIsNeeded(before: Table, parent: Table, r: nat, w: nat)
    requires PipeMade(before, parent, r, w)
    ensures var child := Spawned(parent, [Close(r), Dup2(w, STDOUT), Close(w)]);
            child.Some? && (OnlyWritesToStdout(child.value) <==> w != STDOUT)
  {
    if w != STDOUT {
      SpawnConnectsStdout(before, parent, r, w);
      assert Plan(r, w) == [Close(r), Dup2(w, STDOUT), Close(w)];
    } else {
      var t1 := Perform(parent, Close(r)).value;
      var t2 := Perform(t1, Dup2(w, STDOUT)).value;
      var t3 := Perform(t2, Close(w)).value;
      var plan := [Close(r), Dup2(w, STDOUT), Close(w)];
      assert plan[1..] == [Dup2(w, STDOUT), Close(w)];
      assert plan[1..][1..] == [Close(w)];
      assert PerformAll(t2, [Close(w)]) == Some(t3);
      assert PerformAll(t1, plan[1..]) == Some(t3);
    }
  }

  // ----------------------------------------------------- the parent, pipe and child

  /** What the child would print, what main expects, the size of the buffer less one, the pipe's capacity. */
  datatype Config = Config(output: seq<Byte>, expected: seq<Byte>, limit: nat, capacity: nat, child: Table)

  predicate Proper(c: Config) {
    0 < c.capacity && OnlyWritesToStdout(c.child)
  }

  /** Where main is; the names follow its calls and tests. */
  datatype Pc =
    | MakePipe | InitActions | AddActions | Spawn | DestroyActions | CloseWriter
    | LoopTest | Read
    | Wait | CheckStatus | Compare
    | CleanActions | CleanReader | CleanWriter | CleanWait | Exited

  datatype Child = NoChild | Running | Zombie(ok: bool) | Reaped(ok: bool)

  /**
   * main's flags; reader and writer say that pipefd[0] and pipefd[1] are open.
   * abandoned is history: the cleanup wait failed.
   */
  datatype Vars = Vars(actionsReady: bool, reader: bool, writer: bool, result: bool, abandoned: bool)

  /** The capture buffer up to used, the bytes in the pipe, and how many the child has written. */
  datatype Io = Io(captured: seq<Byte>, pipe: seq<Byte>, written: nat)

  datatype State = State(pc: Pc, child: Child, v: Vars, io: Io)

  datatype Outcome = Ok | Fail | Interrupted

  /** A read of k > 0 bytes is Got(k); the end of file is Parent(Ok) at Read. */
  datatype Event = Parent(outcome: Outcome) | Got(k: nat) | ChildWrite(k: nat) | ChildPipe | ChildExit | ChildDies

  function Init(): State {
    State(MakePipe, NoChild, Vars(false, false, false, false, false), Io([], [], 0))
  }

  predicate InSetup(pc: Pc) {
    pc.MakePipe? || pc.InitActions? || pc.AddActions? || pc.Spawn? || pc.DestroyActions? || pc.CloseWriter?
  }

  predicate InMiddle(pc: Pc) {
    pc.LoopTest? || pc.Read? || pc.Wait? || pc.CheckStatus? || pc.Compare?
  }

  predicate InCleanup(pc: Pc) {
    pc.CleanActions? || pc.CleanReader? || pc.CleanWriter? || pc.CleanWait? || pc.Exited?
  }

  predicate MustReap(child: Child) {
    child.Running? || child.Zombie?
  }

  predicate Waiting(s: State) {
    s.pc.Wait? || (s.pc.CleanWait? && MustReap(s.child))
  }

  predicate HasWriter(c: Config, s: State) {
    s.v.writer || (s.child.Running? && Holds(c.child, PipeWriter))
  }

  predicate HasReader(c: Config, s: State) {
    s.v.reader || (s.child.Running? && Holds(c.child, PipeReader))
  }

  predicate CanFail(s: State) {
    || InSetup(s.pc) || s.pc.Read? || Waiting(s)
    || (s.pc.CleanReader? && s.v.reader)
    || (s.pc.CleanWriter? && s.v.writer)
  }

  predicate ParentEnabled(c: Config, s: State, o: Outcome) {
    match o
    case Ok =>
      && !s.pc.Exited?
      && (s.pc.Read? ==> s.io.pipe == [] && !HasWriter(c, s))
      && (Waiting(s) ==> s.child.Zombie?)
    case Fail => CanFail(s)
    case Interrupted => s.pc.Read? || Waiting(s)
  }

  /** The child's next bytes go to the pipe. */
  predicate ChildWrites(c: Config, s: State) {
    && s.child.Running? && s.io.written < |c.output|
    && STDOUT in c.child && c.child[STDOUT].file.PipeWriter?
  }

  predicate Enabled(c: Config, s: State, e: Event) {
    match e
    case Parent(o) => ParentEnabled(c, s, o)
    case Got(k) => s.pc.Read? && 0 < k <= |s.io.pipe| && |s.io.captured| + k <= c.limit
    case ChildWrite(k) =>
      && ChildWrites(c, s) && HasReader(c, s)
      && 0 < k && s.io.written + k <= |c.output| && |s.io.pipe| + k <= c.capacity
    // Without a reader a write raises SIGPIPE, or fails.
    case ChildPipe => ChildWrites(c, s) && !HasReader(c, s)
    case ChildExit => s.child.Running? && s.io.written == |c.output|
    case ChildDies => s.child.Running?
  }

  /** Lines 56-94. */
  function SetupOk(s: State): State {
    match s.pc
    case MakePipe => s.(pc := InitActions, v := s.v.(reader := true, writer := true))
    case InitActions => s.(pc := AddActions, v := s.v.(actionsReady := true))
    case AddActions => s.(pc := Spawn)
    case Spawn => s.(pc := DestroyActions, child := Running)
    case DestroyActions => s.(pc := CloseWriter, v := s.v.(actionsReady := false))
    case _ => s.(pc := LoopTest, v := s.v.(writer := false))
  }

  function Reap(child: Child): Child {
    if child.Zombie? then Reaped(child.ok) else child
  }

  /** strcmp of the terminated buffer with the expected text. */
  predicate Matches(captured: seq<Byte>, expected: seq<Byte>) {
    Text(captured + [0]) == expected
  }

  /** Lines 98-137; a read that returns zero leaves the loop. */
  function MiddleOk(c: Config, s: State): State {
    match s.pc
    case LoopTest => s.(pc := if |s.io.captured| < c.limit then Read else Wait)
    case Read => s.(pc := Wait)
    case Wait => s.(pc := CheckStatus, child := Reap(s.child))
    case CheckStatus => s.(pc := if s.child == Reaped(true) then Compare else CleanActions)
    case _ => s.(pc := CleanActions, v := s.v.(result := Matches(s.io.captured, c.expected)))
  }

  /** Lines 139-156. */
  function CleanupOk(s: State): State {
    match s.pc
    case CleanActions => s.(pc := CleanReader, v := s.v.(actionsReady := false))
    case CleanReader => s.(pc := CleanWriter, v := s.v.(reader := false))
    case CleanWriter => s.(pc := CleanWait, v := s.v.(writer := false))
    case _ => s.(pc := Exited, child := Reap(s.child))
  }

  function ParentOk(c: Config, s: State): State {
    if InSetup(s.pc) then SetupOk(s) else if InMiddle(s.pc) then MiddleOk(c, s) else CleanupOk(s)
  }

  /** A failed close still gives up the descriptor, and a failed destroy the actions. */
  function ParentFail(s: State): State {
    match s.pc
    case DestroyActions => s.(pc := CleanActions, v := s.v.(actionsReady := false))
    case CloseWriter => s.(pc := CleanActions, v := s.v.(writer := false))
    case CleanReader => s.(pc := CleanWriter, v := s.v.(reader := false, result := false))
    case CleanWriter => s.(pc := CleanWait, v := s.v.(writer := false, result := false))
    case CleanWait => s.(pc := Exited, v := s.v.(abandoned := true))
    case _ => s.(pc := CleanActions)
  }

  function OtherStep(c: Config, s: State, e: Event): State
    requires Enabled(c, s, e) && !e.Parent?
  {
    match e
    case Got(k) => s.(pc := LoopTest, io := Io(s.io.captured + s.io.pipe[..k], s.io.pipe[k..], s.io.written))
    case ChildWrite(k) =>
      s.(io := Io(s.io.captured, s.io.pipe + c.output[s.io.written..s.io.written + k], s.io.written + k))
    case ChildExit => s.(child := Zombie(true))
    case _ => s.(child := Zombie(false))
  }

  function Apply(c: Config, s: State, e: Event): State
    requires Enabled(c, s, e)
  {
    match e
    case Parent(Ok) => ParentOk(c, s)
    case Parent(Fail) => ParentFail(s)
    case Parent(Interrupted) => s
    case _ => OtherStep(c, s, e)
  }

  // ---------------------------------------------------------------------- invariant

  function Expect(c: Config): seq<Byte> {
    if |c.output| <= c.limit then c.output else c.output[..c.limit]
  }

  /** No byte is lost, repeated or reordered. */
  predicate BytesOk(c: Config, io: Io) {
    && io.written <= |c.output|
    && io.captured + io.pipe == c.output[..io.written]
    && |io.captured| <= c.limit && |io.pipe| <= c.capacity
  }

  /** The loop ends with a full buffer, or with an ended child and an empty pipe. */
  predicate CaptureOk(c: Config, s: State) {
    && (s.pc.Read? ==> |s.io.captured| < c.limit)
    && (s.pc.Wait? || s.pc.CheckStatus? || s.pc.Compare? ==>
          |s.io.captured| == c.limit || (s.io.pipe == [] && !s.child.Running?))
    && (s.pc.Compare? || s.v.result ==> s.child == Reaped(true) && s.io.captured == Expect(c))
    && (s.v.result ==> Matches(Expect(c), c.expected) && InCleanup(s.pc))
  }

  /** Which descriptors are open where. */
  predicate FlagsOk(s: State) {
    && (s.pc.MakePipe? ==> !s.v.reader && !s.v.writer)
    && (InSetup(s.pc) && !s.pc.MakePipe? ==> s.v.reader && s.v.writer)
    && (InMiddle(s.pc) ==> s.v.reader && !s.v.writer)
    && (s.pc.CleanWriter? || s.pc.CleanWait? || s.pc.Exited? ==> !s.v.reader)
    && (s.pc.CleanWait? || s.pc.Exited? ==> !s.v.writer)
    && (s.v.actionsReady ==> s.pc.AddActions? || s.pc.Spawn? || s.pc.DestroyActions? || s.pc.CleanActions?)
  }

  predicate ChildOk(c: Config, s: State) {
    && (InSetup(s.pc) ==> (s.child.NoChild? <==> !s.pc.DestroyActions? && !s.pc.CloseWriter?))
    && (InSetup(s.pc) ==> !s.child.Reaped?)
    && (s.pc.LoopTest? || s.pc.Read? || s.pc.Wait? ==> MustReap(s.child))
    && (s.pc.CheckStatus? ==> s.child.Reaped?)
    && (s.child == Zombie(true) || s.child == Reaped(true) ==> s.io.written == |c.output|)
    && (s.child.NoChild? ==> s.io == Io([], [], 0))
    && (s.pc.Exited? ==> MustReap(s.child) == s.v.abandoned)
    && (s.v.abandoned ==> s.pc.Exited? && !s.v.result)
  }

  predicate Inv(c: Config, s: State) {
    Proper(c) && BytesOk(c, s.io) && CaptureOk(c, s) && FlagsOk(s) && ChildOk(c, s)
  }

  lemma EndsOfChild(c: Config)
    requires OnlyWritesToStdout(c.child)
    ensures Holds(c.child, PipeWriter) && !Holds(c.child, PipeReader)
  {
    assert STDOUT in c.child && c.child[STDOUT].file == PipeWriter;
  }

  lemma SetupKeepsInv(c: Config, s: State)
    requires Inv(c, s) && InSetup(s.pc)
    ensures Inv(c, SetupOk(s))
  {
  }

  lemma MiddleKeepsInv(c: Config, s: State)
    requires Inv(c, s) && ParentEnabled(c, s, Ok) && InMiddle(s.pc)
    ensures Inv(c, MiddleOk(c, s))
  {
    EndsOfChild(c);
    if s.pc.CheckStatus? && s.child == Reaped(true) {
      CaptureIsPrefix(c, s);
    }
  }

  lemma CaptureIsPrefix(c: Config, s: State)
    requires Inv(c, s) && s.pc.CheckStatus? && s.child == Reaped(true)
    ensures s.io.captured == Expect(c)
  {
    if |s.io.captured| == c.limit {
      assert s.io.captured == (s.io.captured + s.io.pipe)[..c.limit] == c.output[..c.limit];
    } else {
      assert s.io.captured == s.io.captured + s.io.pipe == c.output;
    }
  }

  lemma CleanupKeepsInv(c: Config, s: State)
    requires Inv(c, s) && ParentEnabled(c, s, Ok) && InCleanup(s.pc)
    ensures Inv(c, CleanupOk(s))
  {
  }

  lemma FailKeepsInv(c: Config, s: State)
    requires Inv(c, s) && CanFail(s)
    ensures Inv(c, ParentFail(s))
  {
  }

  lemma OtherKeepsInv(c: Config, s: State, e: Event)
    requires Inv(c, s) && Enabled(c, s, e) && !e.Parent?
    ensures Inv(c, OtherStep(c, s, e))
  {
    var s' := OtherStep(c, s, e);
    match e {
      case Got(k) =>
        assert s'.io.captured + s'.io.pipe == s.io.captured + s.io.pipe;
      case ChildWrite(k) =>
        assert s'.io.captured + s'.io.pipe == (s.io.captured + s.io.pipe) + c.output[s.io.written..s'.io.written];
      case _ =>
    }
  }

  lemma StepKeepsInv(c: Config, s: State, e: Event)
    requires Inv(c, s) && Enabled(c, s, e)
    ensures Inv(c, Apply(c, s, e))
  {
    if e == Parent(Ok) {
      if InSetup(s.pc) { SetupKeepsInv(c, s); }
      else if InMiddle(s.pc) { MiddleKeepsInv(c, s); }
      else { CleanupKeepsInv(c, s); }
    } else if e == Parent(Fail) {
      FailKeepsInv(c, s);
    } else if !e.Parent? {
      OtherKeepsInv(c, s, e);
    }
  }

  // ----------------------------------------------------------------------- progress

  /** Failures, interruptions and the child's death come from outside. */
  predicate External(e: Event) {
    e == Parent(Interrupted) || e == Parent(Fail) || e.ChildDies?
  }

  ghost predicate Stuck(c: Config, s: State) {
    !s.pc.Exited? && forall e :: Enabled(c, s, e) ==> External(e)
  }

  /** The output fits into the buffer and the pipe, so that main may stop reading. */
  predicate Fits(c: Config) {
    |c.output| <= c.limit + c.capacity
  }

  /**
   * The only place where something other than an outside event may be lacking is
   * the first waitpid, when the output does not fit: the cleanup wait, issued with
   * both ends closed, never blocks on a child that is still writing.
   */
  lemma NeverStuck(c: Config, s: State) returns (e: Event)
    requires Inv(c, s) && !s.pc.Exited?
    requires s.pc.Wait? ==> Fits(c)
    ensures !External(e) && Enabled(c, s, e)
  {
    EndsOfChild(c);
    assert |s.io.captured| + |s.io.pipe| == s.io.written;
    if ParentEnabled(c, s, Ok) {
      e := Parent(Ok);
    } else if s.pc.Read? && s.io.pipe != [] {
      e := Got(1);
    } else if s.io.written == |c.output| {
      e := ChildExit;
    } else if HasReader(c, s) {
      e := ChildWrite(1);
    } else {
      e := ChildPipe;
    }
  }

  function PlaceRank(pc: Pc): nat {
    match pc
    case MakePipe => 15
    case InitActions => 14
    case AddActions => 13
    case Spawn => 12
    case DestroyActions => 11
    case CloseWriter => 10
    case LoopTest => 9
    case Read => 8
    case Wait => 7
    case CheckStatus => 6
    case Compare => 5
    case CleanActions => 4
    case CleanReader => 3
    case CleanWriter => 2
    case CleanWait => 1
    case Exited => 0
  }

  /** A byte yet to be captured may cost a read and a loop test, one yet to be written a write. */
  function Work(c: Config, s: State): int {
    PlaceRank(s.pc) + (if s.child.NoChild? || s.child.Running? then 1 else 0)
    + 2 * (|c.output| - |s.io.captured|) + (|c.output| - s.io.written)
  }

  lemma WorkIsNatural(c: Config, s: State)
    requires Inv(c, s)
    ensures 0 <= Work(c, s)
  {
    assert |s.io.captured| + |s.io.pipe| == s.io.written;
  }

  lemma OkConsumesWork(c: Config, s: State)
    requires Inv(c, s) && ParentEnabled(c, s, Ok)
    ensures Work(c, ParentOk(c, s)) < Work(c, s)
  {
    if InSetup(s.pc) {
      assert PlaceRank(SetupOk(s).pc) < PlaceRank(s.pc);
    } else if InMiddle(s.pc) {
      assert PlaceRank(MiddleOk(c, s).pc) < PlaceRank(s.pc);
    } else {
      assert PlaceRank(CleanupOk(s).pc) < PlaceRank(s.pc);
    }
  }

  lemma StepConsumesWork(c: Config, s: State, e: Event)
    requires Inv(c, s) && Enabled(c, s, e)
    ensures Work(c, Apply(c, s, e)) <= Work(c, s) - if e == Parent(Interrupted) then 0 else 1
  {
    if e == Parent(Ok) {
      OkConsumesWork(c, s);
    } else if e == Parent(Fail) {
      assert PlaceRank(ParentFail(s).pc) < PlaceRank(s.pc);
    }
  }

  // --------------------------------------------------------------- failure tracking

  predicate FailedChild(child: Child) {
    child == Zombie(false) || child == Reaped(false)
  }

  predicate Clean(s: State) {
    (InCleanup(s.pc) ==> s.v.result) && !FailedChild(s.child)
  }

  predicate Failure(e: Event) {
    e == Parent(Fail) || e.ChildDies?
  }

  lemma OkTracksFailures(c: Config, s: State)
    requires Inv(c, s) && ParentEnabled(c, s, Ok) && Matches(Expect(c), c.expected)
    ensures Clean(ParentOk(c, s)) <==> Clean(s)
  {
    if InSetup(s.pc) {
      assert Clean(SetupOk(s)) <==> Clean(s);
    } else if InMiddle(s.pc) {
      assert Clean(MiddleOk(c, s)) <==> Clean(s);
    } else {
      assert Clean(CleanupOk(s)) <==> Clean(s);
    }
  }

  lemma StepTracksFailures(c: Config, s: State, e: Event)
    requires Inv(c, s) && Enabled(c, s, e) && Matches(Expect(c), c.expected)
    ensures Clean(Apply(c, s, e)) <==> Clean(s) && !Failure(e)
  {
    if e == Parent(Ok) {
      OkTracksFailures(c, s);
    } else if e == Parent(Fail) {
      assert !Clean(ParentFail(s));
    }
  }

  // --------------------------------------------------------------------- whole runs

  predicate ValidRun(c: Config, s: State, es: seq<Event>)
    decreases |es|
  {
    es == [] || (Enabled(c, s, es[0]) && ValidRun(c, Apply(c, s, es[0]), es[1..]))
  }

  function Final(c: Config, s: State, es: seq<Event>): State
    requires ValidRun(c, s, es)
    decreases |es|
  {
    if es == [] then s else Final(c, Apply(c, s, es[0]), es[1..])
  }

  function Interruptions(es: seq<Event>): nat {
    if es == [] then 0 else (if es[0] == Parent(Interrupted) then 1 else 0) + Interruptions(es[1..])
  }

  predicate AnyFailure(es: seq<Event>) {
    es != [] && (Failure(es[0]) || AnyFailure(es[1..]))
  }

  lemma Step(c: Config, s: State, e: Event)
    requires Inv(c, s) && Enabled(c, s, e)
    ensures Inv(c, Apply(c, s, e))
    ensures Work(c, Apply(c, s, e)) <= Work(c, s) - if e == Parent(Interrupted) then 0 else 1
    ensures Matches(Expect(c), c.expected) ==> (Clean(Apply(c, s, e)) <==> Clean(s) && !Failure(e))
  {
    StepKeepsInv(c, s, e);
    StepConsumesWork(c, s, e);
    if Matches(Expect(c), c.expected) {
      StepTracksFailures(c, s, e);
    }
  }

  lemma {:induction false} RunKeepsInv(c: Config, s: State, es: seq<Event>)
    requires Inv(c, s) && ValidRun(c, s, es)
    ensures Inv(c, Final(c, s, es))
    ensures Work(c, Final(c, s, es)) <= Work(c, s) - |es| + Interruptions(es)
    ensures Matches(Expect(c), c.expected) ==> (Clean(Final(c, s, es)) <==> Clean(s) && !AnyFailure(es))
    decreases |es|
  {
    if es == [] {
    } else {
      var s' := Apply(c, s, es[0]);
      Step(c, s, es[0]);
      RunKeepsInv(c, s', es[1..]);
      assert Final(c, s, es) == Final(c, s', es[1..]);
    }
  }

  /**
   * Over every run: what was captured is a prefix of the output, in order; the end
   * of file is only seen once main has closed its own writer and the child has
   * ended; and at the end no descriptor is left open, and a child whose cleanup
   * wait did not fail is reaped.
   */
  lemma EveryRunIsSafe(c: Config, es: seq<Event>)
    requires Proper(c) && ValidRun(c, Init(), es)
    ensures var s := Final(c, Init(), es);
            && s.io.captured <= Expect(c)
            && (s.pc.Read? && ParentEnabled(c, s, Ok) ==> !s.v.writer && !s.child.Running?)
            && (s.pc.Exited? ==> !s.v.reader && !s.v.writer && !s.v.actionsReady)
            && (s.pc.Exited? && !s.v.abandoned ==> s.child.NoChild? || s.child.Reaped?)
            && (s.v.result ==> s.child == Reaped(true) && s.io.captured == Expect(c))
  {
    RunKeepsInv(c, Init(), es);
    EndsOfChild(c);
    var s := Final(c, Init(), es);
    assert s.io.captured == (s.io.captured + s.io.pipe)[..|s.io.captured|] == c.output[..|s.io.captured|];
  }

  /**
   * Every run is finite but for interruptions, and a finished one ends in success
   * exactly when nothing failed and the capture is the expected text.
   */
  lemma SucceedsIffNothingFailed(c: Config, es: seq<Event>)
    requires Proper(c) && ValidRun(c, Init(), es)
    ensures |es| <= 16 + 3 * |c.output| + Interruptions(es)
    ensures var s := Final(c, Init(), es);
            s.pc.Exited? ==> (s.v.result <==> !AnyFailure(es) && Matches(Expect(c), c.expected))
  {
    RunKeepsInv(c, Init(), es);
    WorkIsNatural(c, Final(c, Init(), es));
  }

  /** Without a NUL in it, what was captured is compared as a whole. */
  lemma MatchesIff(captured: seq<Byte>, expected: seq<Byte>)
    requires !HasNul(captured)
    ensures Matches(captured, expected) <==> captured == expected
  {
    TextIsUnique(captured + [0], captured);
  }

  /**
   * For output without a NUL that fits the buffer, a finished run ends in success
   * exactly when nothing failed and the output is the expected text; it was then
   * captured whole.
   */
  lemma SucceedsIffOutputExpected(c: Config, es: seq<Event>)
    requires Proper(c) && ValidRun(c, Init(), es) && !HasNul(c.output) && |c.output| <= c.limit
    ensures var s := Final(c, Init(), es);
            && (s.pc.Exited? ==> (s.v.result <==> !AnyFailure(es) && c.output == c.expected))
            && (s.v.result ==> s.io.captured == c.output == c.expected)
  {
    MatchesIff(c.output, c.expected);
    SucceedsIffNothingFailed(c, es);
    RunKeepsInv(c, Init(), es);
  }

  // ------------------------------------------------------------------- the deadlock

  lemma RunsThrough(c: Config, s: State, e: Event, es: seq<Event>)
    requires Enabled(c, s, e)
    ensures ValidRun(c, s, [e] + es) <==> ValidRun(c, Apply(c, s, e), es)
    ensures ValidRun(c, s, [e] + es) ==> Final(c, s, [e] + es) == Final(c, Apply(c, s, e), es)
  {
    assert ([e] + es)[1..] == es;
  }

  /** The child writes one byte at a time, and main reads each, until the buffer is full. */
  lemma {:induction false} FillBuffer(c: Config, s: State) returns (es: seq<Event>)
    requires Inv(c, s) && !Fits(c)
    requires s.pc.LoopTest? && s.child.Running? && s.io.pipe == []
    ensures ValidRun(c, s, es) && Inv(c, Final(c, s, es))
    ensures Final(c, s, es).pc.Wait? && Final(c, s, es).child.Running? && Final(c, s, es).io.pipe == []
    ensures |Final(c, s, es).io.captured| == c.limit
    decreases c.limit - |s.io.captured|
  {
    assert |s.io.captured| + |s.io.pipe| == s.io.written;
    var s1 := Apply(c, s, Parent(Ok));
    StepKeepsInv(c, s, Parent(Ok));
    if |s.io.captured| == c.limit {
      es := [];
      RunsThrough(c, s, Parent(Ok), es);
      es := [Parent(Ok)] + es;
      return;
    }
    var s2 := Apply(c, s1, ChildWrite(1));
    StepKeepsInv(c, s1, ChildWrite(1));
    var s3 := Apply(c, s2, Got(1));
    StepKeepsInv(c, s2, Got(1));
    es := FillBuffer(c, s3);
    RunsThrough(c, s2, Got(1), es);
    es := [Got(1)] + es;
    RunsThrough(c, s1, ChildWrite(1), es);
    es := [ChildWrite(1)] + es;
    RunsThrough(c, s, Parent(Ok), es);
    es := [Parent(Ok)] + es;
  }

  lemma {:induction false} RunsJoin(c: Config, s: State, a: seq<Event>, b: seq<Event>)
    requires ValidRun(c, s, a) && ValidRun(c, Final(c, s, a), b)
    ensures ValidRun(c, s, a + b) && Final(c, s, a + b) == Final(c, Final(c, s, a), b)
    decreases |a|
  {
    if a == [] {
      assert a + b == b;
    } else {
      RunsJoin(c, Apply(c, s, a[0]), a[1..], b);
      RunsThrough(c, s, a[0], a[1..] + b);
      assert a + b == [a[0]] + (a[1..] + b);
    }
  }

  lemma Setup(c: Config) returns (es: seq<Event>)
    requires Proper(c)
    ensures ValidRun(c, Init(), es)
    ensures Final(c, Init(), es) == State(LoopTest, Running, Vars(false, true, false, false, false), Io([], [], 0))
  {
    var ok := Parent(Ok);
    var s1 := Apply(c, Init(), ok);
    var s2 := Apply(c, s1, ok);
    var s3 := Apply(c, s2, ok);
    var s4 := Apply(c, s3, ok);
    var s5 := Apply(c, s4, ok);
    RunsThrough(c, s5, ok, []);
    RunsThrough(c, s4, ok, [ok] + []);
    RunsThrough(c, s3, ok, [ok] + ([ok] + []));
    es := [ok] + ([ok] + ([ok] + []));
    RunsThrough(c, s2, ok, es);
    es := [ok] + es;
    RunsThrough(c, s1, ok, es);
    es := [ok] + es;
    RunsThrough(c, Init(), ok, es);
    es := [ok] + es;
  }

  /** Main waits with the reader open, and the child fills the pipe. */
  lemma FillPipe(c: Config, s: State)
    requires Inv(c, s) && !Fits(c)
    requires s.pc.Wait? && s.child.Running? && s.io.pipe == [] && |s.io.captured| == c.limit
    ensures ValidRun(c, s, [ChildWrite(c.capacity)]) && Stuck(c, Final(c, s, [ChildWrite(c.capacity)]))
  {
    assert |s.io.captured| + |s.io.pipe| == s.io.written;
    RunsThrough(c, s, ChildWrite(c.capacity), []);
    var s' := Apply(c, s, ChildWrite(c.capacity));
    assert |s'.io.pipe| == c.capacity && s'.io.written < |c.output| && HasReader(c, s');
    assert [ChildWrite(c.capacity)] + [] == [ChildWrite(c.capacity)];
  }

  lemma StartInv(c: Config)
    requires Proper(c)
    ensures Inv(c, State(LoopTest, Running, Vars(false, true, false, false, false), Io([], [], 0)))
  {
  }

  /**
   * With a full buffer main waits while the pipe's reader is still open: a child
   * that has more to write than the pipe holds blocks, and both wait for ever.
   */
  lemma Deadlock(c: Config) returns (es: seq<Event>)
    requires Proper(c) && !Fits(c)
    ensures ValidRun(c, Init(), es) && Stuck(c, Final(c, Init(), es))
  {
    var setup := Setup(c);
    var s := Final(c, Init(), setup);
    StartInv(c);
    var fill := FillBuffer(c, s);
    FillPipe(c, Final(c, s, fill));
    RunsJoin(c, s, fill, [ChildWrite(c.capacity)]);
    es := fill + [ChildWrite(c.capacity)];
    RunsJoin(c, Init(), setup, es);
    es := setup + es;
  }

  lemma FittingRunsAreNotStuck(c: Config, es: seq<Event>)
    requires Proper(c) && Fits(c) && ValidRun(c, Init(), es)
    ensures !Stuck(c, Final(c, Init(), es))
  {
    RunKeepsInv(c, Init(), es);
    var s := Final(c, Init(), es);
    if !s.pc.Exited? {
      var e := NeverStuck(c, s);
    }
  }

  ghost predicate SticksAfter(c: Config, es: seq<Event>) {
    ValidRun(c, Init(), es) && Stuck(c, Final(c, Init(), es))
  }

  /** A run can get stuck if and only if the output exceeds the buffer and the pipe together. */
  lemma StuckIffOutputDoesNotFit(c: Config)
    requires Proper(c)
    ensures (exists es :: SticksAfter(c, es)) <==> !Fits(c)
  {
    if !Fits(c) {
      var es := Deadlock(c);
      assert SticksAfter(c, es);
    } else {
      forall es | ValidRun(c, Init(), es) ensures !SticksAfter(c, es) {
        FittingRunsAreNotStuck(c, es);
      }
    }
  }

  /** Both halves together: spawned through the planned actions, for any descriptors of the pipe. */
  lemma CaptureOfSpawnedChild(before: Table, parent: Table, r: nat, w: nat, c: Config, es: seq<Event>)
    requires PipeMade(before, parent, r, w) && Spawned(parent, Plan(r, w)) == Some(c.child)
    requires 0 < c.capacity && |c.output| <= c.limit && ValidRun(c, Init(), es)
    requires !AnyFailure(es) && Matches(c.output, c.expected)
    ensures var s := Final(c, Init(), es);
            && !Stuck(c, s)
            && (s.pc.Exited? ==> s.v.result && s.child == Reaped(true) && s.io.captured == c.output)
  {
    SpawnConnectsStdout(before, parent, r, w);
    FittingRunsAreNotStuck(c, es);
    SucceedsIffNothingFailed(c, es);
    EveryRunIsSafe(c, es);
  }
}
