/**
 * experiments/24_thread_specific_data: N workers share one key created through
 * pthread_once; each hands a heap block to the key, and the key's destructor
 * counts and frees it when the worker exits.  main joins, checks and deletes.
 *
 * A state machine: any interleaving of the steps, and any pattern of failures of
 * the library calls (an event carries whether its call fails).
 */
module ThreadSpecificData {

  import opened Os

  datatype WorkerPc =
    | NotCreated
    | Once | CreateKey | RecordKey | CheckError
    | Malloc | SetSpecific | FreeUnset | GetSpecific
    | Exiting | AddCount | AddSum | FreeValue | Terminated

  /** value and tsd are the local and the thread's slot of the key; arg is the destructor's argument. */
  datatype Worker = Worker(
    id: int, pc: WorkerPc, value: Option<nat>, tsd: Option<nat>, arg: Option<nat>,
    setOk: bool, verified: bool)

  datatype OnceState = Uncalled | Running(i: nat) | Complete

  datatype MainPc =
    | Creating(i: nat)
    | Joining(i: nat)
    | Deleting(verified: bool)
    | Finished(success: bool)

  /**
   * What the threads share.  heap maps each live block to the id stored in it;
   * next is an address never handed out.  fault records a use of an unusable key
   * or of a dead block.
   */
  datatype Shared = Shared(
    once: OnceState, keyCreates: nat, keyLive: bool, keyError: bool, keyInitialized: bool,
    heap: map<nat, int>, next: nat, destructorCount: int, destructorIdSum: int, fault: bool)

  datatype State = State(
    workers: seq<Worker>, g: Shared, main: MainPc, created: nat, joinFailed: bool, keyDeleted: bool)

  datatype Event = Main(fail: bool) | Step(i: nat, fail: bool)

  function Init(n: nat): State {
    State(seq(n, _ => Worker(0, NotCreated, None, None, None, false, false)),
          Shared(Uncalled, 0, false, false, false, map[], 0, 0, 0, false), Creating(0), 0, false, false)
  }

  // -------------------------------------------------------------------- steps

  /** The steps that call something that can fail. */
  predicate CanFail(pc: WorkerPc) {
    pc.Once? || pc.CreateKey? || pc.Malloc? || pc.SetSpecific?
  }

  predicate WorkerEnabled(g: Shared, pc: WorkerPc, fail: bool) {
    && !pc.NotCreated? && !pc.Terminated?
    && (fail ==> CanFail(pc))
    && (pc.Once? && !fail ==> !g.once.Running?)
  }

  predicate MainEnabled(s: State, fail: bool) {
    match s.main
    case Creating(i) => i < |s.workers| || !fail
    case Joining(i) =>
      if i == s.created then !fail
      else i < |s.workers| && (fail || s.workers[i].pc.Terminated?)
    case Deleting(_) => fail ==> !s.g.keyError && s.g.keyInitialized
    case Finished(_) => false
  }

  predicate Enabled(s: State, e: Event) {
    && !s.main.Finished?
    && match e
       case Main(fail) => MainEnabled(s, fail)
       case Step(i, fail) => i < |s.workers| && WorkerEnabled(s.g, s.workers[i].pc, fail)
  }

  predicate Points(g: Shared, p: Option<nat>) {
    p.Some? && p.value in g.heap
  }

  function Free(g: Shared, p: Option<nat>): Shared {
    if Points(g, p) then g.(heap := g.heap - {p.value}) else g.(fault := true)
  }

  /** What a step of worker w does to the worker itself. */
  function Local(g: Shared, w: Worker, fail: bool): Worker {
    match w.pc
    case Once => w.(pc := if fail then Exiting else if g.once.Uncalled? then CreateKey else CheckError)
    case CreateKey => w.(pc := RecordKey)
    case RecordKey => w.(pc := CheckError)
    case CheckError => w.(pc := if g.keyError then Exiting else Malloc)
    case Malloc => if fail then w.(pc := Exiting) else w.(pc := SetSpecific, value := Some(g.next))
    case SetSpecific => if fail then w.(pc := FreeUnset) else w.(pc := GetSpecific, tsd := w.value, setOk := true)
    case FreeUnset => w.(pc := Exiting)
    case GetSpecific =>
      w.(pc := Exiting, verified := Points(g, w.tsd) && w.tsd == w.value && g.heap[w.tsd.value] == w.id)
    case Exiting =>
      if w.tsd.Some? && g.keyLive then w.(pc := AddCount, tsd := None, arg := w.tsd) else w.(pc := Terminated)
    case AddCount => w.(pc := AddSum)
    case AddSum => w.(pc := FreeValue)
    case FreeValue => w.(pc := Terminated)
    case _ => w
  }

  /** What a step of worker w, the i-th, does to the shared state. */
  function Effect(g: Shared, i: nat, w: Worker, fail: bool): Shared {
    match w.pc
    case Once => if !fail && g.once.Uncalled? then g.(once := Running(i)) else g
    case CreateKey => g.(keyCreates := g.keyCreates + 1, keyError := fail, keyLive := !fail)
    case RecordKey => g.(keyInitialized := !g.keyError, once := Complete)
    case Malloc => if fail then g else g.(heap := g.heap[g.next := w.id], next := g.next + 1)
    case SetSpecific => g.(fault := g.fault || !g.keyLive)
    case FreeUnset => Free(g, w.value)
    case GetSpecific => g.(fault := g.fault || !g.keyLive || !Points(g, w.tsd))
    case AddCount => g.(destructorCount := g.destructorCount + 1)
    case AddSum =>
      if Points(g, w.arg) then g.(destructorIdSum := g.destructorIdSum + g.heap[w.arg.value])
      else g.(fault := true)
    case FreeValue => Free(g, w.arg)
    case _ => g
  }

  predicate AllVerified(s: State) {
    s.created == |s.workers| && forall i :: 0 <= i < |s.workers| ==> s.workers[i].verified
  }

  /** Lines 101-112. */
  predicate Verified(s: State) {
    && AllVerified(s)
    && s.g.keyInitialized && !s.g.keyError
    && s.g.destructorCount == |s.workers|
    && s.g.destructorIdSum == |s.workers| * (|s.workers| + 1) / 2
  }

  function MainStep(s: State, fail: bool): State {
    match s.main
    case Creating(i) =>
      if i >= |s.workers| || fail then s.(main := Joining(0))
      else s.(workers := s.workers[i := s.workers[i].(id := i + 1, pc := Once)],
              created := i + 1, main := Creating(i + 1))
    case Joining(i) =>
      if i == s.created then
        s.(main := if s.joinFailed then Finished(false) else Deleting(Verified(s)))
      else s.(joinFailed := s.joinFailed || fail, main := Joining(i + 1))
    case Deleting(verified) =>
      if s.g.keyError || !s.g.keyInitialized || fail then s.(main := Finished(false))
      else s.(g := s.g.(keyLive := false, fault := s.g.fault || !s.g.keyLive),
              keyDeleted := true, main := Finished(verified))
    case Finished(_) => s
  }

  function Apply(s: State, e: Event): State
    requires Enabled(s, e)
  {
    match e
    case Main(fail) => MainStep(s, fail)
    case Step(i, fail) =>
      s.(workers := s.workers[i := Local(s.g, s.workers[i], fail)], g := Effect(s.g, i, s.workers[i], fail))
  }

  // ---------------------------------------------------------------- invariant

  /** The block this worker is responsible for, directly or through the key. */
  function Holds(w: Worker): Option<nat> {
    match w.pc
    case SetSpecific => w.value
    case FreeUnset => w.value
    case GetSpecific => w.tsd
    case Exiting => w.tsd
    case AddCount => w.arg
    case AddSum => w.arg
    case FreeValue => w.arg
    case _ => None
  }

  predicate InInit(pc: WorkerPc) {
    pc.CreateKey? || pc.RecordKey?
  }

  predicate Early(pc: WorkerPc) {
    pc.NotCreated? || pc.Once? || InInit(pc) || pc.CheckError?
  }

  /** Past the key check, so the key must exist. */
  predicate NeedsKey(w: Worker) {
    w.setOk || w.pc.Malloc? || w.pc.SetSpecific? || w.pc.FreeUnset?
  }

  predicate WorkerOk(g: Shared, i: nat, w: Worker) {
    && (!w.pc.NotCreated? ==> w.id == i + 1)
    && (InInit(w.pc) ==> g.once == Running(i) && !g.keyInitialized)
    && (w.pc.CreateKey? ==> g.keyCreates == 0 && !g.keyError)
    && (w.pc.RecordKey? ==> g.keyCreates == 1 && g.keyLive == !g.keyError)
    && (w.pc.CheckError? || NeedsKey(w) ==> g.once.Complete?)
    && (NeedsKey(w) ==> !g.keyError)
    && (Early(w.pc) || w.pc.Malloc? || w.pc.SetSpecific? || w.pc.FreeUnset? ==> !w.setOk)
    && (w.pc.GetSpecific? || w.pc.AddCount? || w.pc.AddSum? || w.pc.FreeValue? ==> w.setOk)
    && (w.verified ==> w.setOk)
    && (w.setOk && !w.pc.GetSpecific? ==> w.verified)
    && (w.tsd.Some? <==> w.setOk && (w.pc.GetSpecific? || w.pc.Exiting?))
    && (w.tsd.Some? ==> w.tsd == w.value)
    && (w.setOk || w.pc.SetSpecific? || w.pc.FreeUnset? ==> w.value.Some?)
    && (w.pc.AddCount? || w.pc.AddSum? || w.pc.FreeValue? ==> w.arg.Some?)
    && (Holds(w).Some? ==> Holds(w).value in g.heap && g.heap[Holds(w).value] == w.id)
  }

  predicate WorkersOk(s: State) {
    forall i :: 0 <= i < |s.workers| ==> WorkerOk(s.g, i, s.workers[i])
  }

  predicate CellOk(heap: map<nat, int>, next: nat, ws: seq<Worker>, p: nat)
    requires p in heap
  {
    p < next && 1 <= heap[p] <= |ws| && Holds(ws[heap[p] - 1]) == Some(p)
  }

  /** Every live block is held by exactly the worker whose id it stores: no leak, no double free. */
  predicate HeapOk(s: State) {
    forall p :: p in s.g.heap ==> CellOk(s.g.heap, s.g.next, s.workers, p)
  }

  /** The key exists once initialisation is over and has not failed, until main deletes it. */
  predicate KeyOk(g: Shared, deleted: bool) {
    && (g.once.Uncalled? ==> g.keyCreates == 0 && !g.keyError && !g.keyInitialized && !g.keyLive)
    && (g.once.Running? ==> g.keyCreates <= 1 && !g.keyInitialized)
    && (g.once.Complete? ==>
          && g.keyCreates == 1
          && g.keyInitialized == !g.keyError
          && g.keyLive == (!g.keyError && !deleted))
  }

  predicate OnceOk(s: State) {
    && (s.g.once.Running? ==> s.g.once.i < |s.workers| && InInit(s.workers[s.g.once.i].pc))
    && (!s.g.once.Uncalled? ==> 0 < |s.workers|)
  }

  function Total(ws: seq<Worker>, f: Worker -> int): int {
    if ws == [] then 0 else f(ws[0]) + Total(ws[1..], f)
  }

  function Counted(w: Worker): int {
    if w.setOk && (w.pc.AddSum? || w.pc.FreeValue? || w.pc.Terminated?) then 1 else 0
  }

  function Summed(w: Worker): int {
    if w.setOk && (w.pc.FreeValue? || w.pc.Terminated?) then w.id else 0
  }

  predicate CountsOk(s: State) {
    && s.g.destructorCount == Total(s.workers, Counted)
    && s.g.destructorIdSum == Total(s.workers, Summed)
  }

  predicate JoinedUpTo(ws: seq<Worker>, k: nat) {
    forall i :: 0 <= i < k && i < |ws| ==> ws[i].pc.Terminated?
  }

  predicate MainOk(s: State) {
    && s.created <= |s.workers|
    && (forall i :: 0 <= i < |s.workers| ==> (s.workers[i].pc.NotCreated? <==> s.created <= i))
    && (s.main.Creating? ==> s.created == s.main.i && !s.joinFailed)
    && (s.main.Joining? ==> s.main.i <= s.created && (!s.joinFailed ==> JoinedUpTo(s.workers, s.main.i)))
    && (s.main.Deleting? ==> !s.joinFailed && JoinedUpTo(s.workers, s.created) && s.main.verified == Verified(s))
    && (s.keyDeleted ==> s.main.Finished? && JoinedUpTo(s.workers, s.created))
    && (s.main.Finished? && s.main.success ==> !s.joinFailed && s.keyDeleted && Verified(s))
  }

  predicate Inv(s: State) {
    && !s.g.fault && WorkersOk(s) && HeapOk(s) && KeyOk(s.g, s.keyDeleted) && OnceOk(s)
    && CountsOk(s) && MainOk(s)
  }

  lemma {:induction false} TotalUpdate(ws: seq<Worker>, i: nat, w: Worker, f: Worker -> int)
    requires i < |ws|
    ensures Total(ws[i := w], f) == Total(ws, f) - f(ws[i]) + f(w)
  {
    if i == 0 {
      assert ws[i := w][1..] == ws[1..];
    } else {
      assert ws[i := w][1..] == ws[1..][i - 1 := w];
      TotalUpdate(ws[1..], i - 1, w, f);
    }
  }

  lemma {:induction false} TotalZero(ws: seq<Worker>, f: Worker -> int)
    requires forall i :: 0 <= i < |ws| ==> f(ws[i]) == 0
    ensures Total(ws, f) == 0
  {
    if ws == [] {
    } else {
      TotalZero(ws[1..], f);
    }
  }

  lemma InitInv(n: nat)
    ensures Inv(Init(n))
  {
    TotalZero(Init(n).workers, Counted);
    TotalZero(Init(n).workers, Summed);
  }

  lemma StepKeepsSelf(g: Shared, i: nat, w: Worker, fail: bool)
    requires WorkerEnabled(g, w.pc, fail) && WorkerOk(g, i, w) && KeyOk(g, false)
    ensures WorkerOk(Effect(g, i, w, fail), i, Local(g, w, fail))
    ensures KeyOk(Effect(g, i, w, fail), false)
    ensures Effect(g, i, w, fail).fault == g.fault
  {
  }

  lemma StepKeepsOther(g: Shared, i: nat, w: Worker, fail: bool, j: nat, v: Worker)
    requires WorkerEnabled(g, w.pc, fail) && j != i
    requires WorkerOk(g, i, w) && WorkerOk(g, j, v) && KeyOk(g, false) && g.next !in g.heap
    ensures WorkerOk(Effect(g, i, w, fail), j, v)
  {
  }

  lemma StepKeepsCell(g: Shared, ws: seq<Worker>, i: nat, fail: bool, p: nat)
    requires i < |ws| && WorkerEnabled(g, ws[i].pc, fail) && WorkerOk(g, i, ws[i]) && KeyOk(g, false)
    requires p in g.heap ==> CellOk(g.heap, g.next, ws, p)
    requires p in Effect(g, i, ws[i], fail).heap
    ensures var g' := Effect(g, i, ws[i], fail);
            CellOk(g'.heap, g'.next, ws[i := Local(g, ws[i], fail)], p)
  {
  }

  lemma StepKeepsCounts(g: Shared, i: nat, w: Worker, fail: bool)
    requires WorkerEnabled(g, w.pc, fail) && WorkerOk(g, i, w) && KeyOk(g, false)
    ensures var g', w' := Effect(g, i, w, fail), Local(g, w, fail);
            && g'.destructorCount == g.destructorCount - Counted(w) + Counted(w')
            && g'.destructorIdSum == g.destructorIdSum - Summed(w) + Summed(w')
  {
  }

  lemma WorkerKeepsShared(s: State, i: nat, fail: bool)
    requires WorkersOk(s) && HeapOk(s) && KeyOk(s.g, false)
    requires i < |s.workers| && WorkerEnabled(s.g, s.workers[i].pc, fail)
    ensures var w := s.workers[i];
            var s' := s.(workers := s.workers[i := Local(s.g, w, fail)], g := Effect(s.g, i, w, fail));
            WorkersOk(s') && HeapOk(s') && KeyOk(s'.g, false) && s'.g.fault == s.g.fault
  {
    var w := s.workers[i];
    var ws', g' := s.workers[i := Local(s.g, w, fail)], Effect(s.g, i, w, fail);
    assert WorkerOk(s.g, i, w);
    assert s.g.next !in s.g.heap;
    StepKeepsSelf(s.g, i, w, fail);
    forall j | 0 <= j < |ws'| ensures WorkerOk(g', j, ws'[j]) {
      if j != i { StepKeepsOther(s.g, i, w, fail, j, s.workers[j]); }
    }
    forall p | p in g'.heap ensures CellOk(g'.heap, g'.next, ws', p) {
      StepKeepsCell(s.g, s.workers, i, fail, p);
    }
  }

  lemma WorkerKeepsCounts(s: State, i: nat, fail: bool)
    requires WorkersOk(s) && KeyOk(s.g, false) && CountsOk(s)
    requires i < |s.workers| && WorkerEnabled(s.g, s.workers[i].pc, fail)
    ensures var w := s.workers[i];
            CountsOk(s.(workers := s.workers[i := Local(s.g, w, fail)], g := Effect(s.g, i, w, fail)))
  {
    var w := s.workers[i];
    assert WorkerOk(s.g, i, w);
    StepKeepsCounts(s.g, i, w, fail);
    TotalUpdate(s.workers, i, Local(s.g, w, fail), Counted);
    TotalUpdate(s.workers, i, Local(s.g, w, fail), Summed);
  }

  lemma StepKeepsOnce(g: Shared, i: nat, w: Worker, fail: bool)
    requires WorkerEnabled(g, w.pc, fail) && WorkerOk(g, i, w)
    requires g.once == Running(i) ==> InInit(w.pc)
    ensures var g', w' := Effect(g, i, w, fail), Local(g, w, fail);
            && (g'.once.Running? ==> if g'.once.i == i then InInit(w'.pc) else g'.once == g.once)
            && !w'.pc.NotCreated?
  {
  }

  lemma WorkerKeepsMain(s: State, i: nat, fail: bool)
    requires Inv(s) && Enabled(s, Step(i, fail))
    ensures OnceOk(Apply(s, Step(i, fail))) && MainOk(Apply(s, Step(i, fail)))
  {
    assert WorkerOk(s.g, i, s.workers[i]);
    StepKeepsOnce(s.g, i, s.workers[i], fail);
    assert !s.main.Deleting?;
  }

  lemma WorkerKeepsInv(s: State, i: nat, fail: bool)
    requires Inv(s) && Enabled(s, Step(i, fail))
    ensures Inv(Apply(s, Step(i, fail)))
  {
    WorkerKeepsShared(s, i, fail);
    WorkerKeepsCounts(s, i, fail);
    WorkerKeepsMain(s, i, fail);
  }

  lemma CreateKeepsInv(s: State)
    requires Inv(s) && s.main.Creating? && s.main.i < |s.workers|
    ensures Inv(MainStep(s, false))
  {
    var s', i := MainStep(s, false), s.main.i;
    assert WorkerOk(s.g, i, s.workers[i]);
    TotalUpdate(s.workers, i, s'.workers[i], Counted);
    TotalUpdate(s.workers, i, s'.workers[i], Summed);
    forall p | p in s'.g.heap ensures CellOk(s'.g.heap, s'.g.next, s'.workers, p) {
      assert CellOk(s.g.heap, s.g.next, s.workers, p);
    }
  }

  /** Steps of main that change none of the workers and nothing they share. */
  lemma MainAloneKeepsInv(s: State, s': State)
    requires Inv(s) && !s.keyDeleted && s' == s.(main := s'.main, joinFailed := s'.joinFailed)
    requires MainOk(s')
    ensures Inv(s')
  {
    assert s'.workers == s.workers && s'.g == s.g;
  }

  lemma StopCreatingKeepsInv(s: State, fail: bool)
    requires Inv(s) && s.main.Creating? && (fail || s.main.i >= |s.workers|)
    ensures Inv(MainStep(s, fail))
  {
    MainAloneKeepsInv(s, MainStep(s, fail));
  }

  lemma JoinKeepsInv(s: State, fail: bool)
    requires Inv(s) && s.main.Joining? && MainEnabled(s, fail)
    ensures Inv(MainStep(s, fail))
  {
    MainAloneKeepsInv(s, MainStep(s, fail));
  }

  lemma DeleteKeepsInv(s: State, fail: bool)
    requires Inv(s) && s.main.Deleting? && MainEnabled(s, fail)
    ensures Inv(MainStep(s, fail))
  {
    var s' := MainStep(s, fail);
    if s.g.keyError || !s.g.keyInitialized || fail {
      MainAloneKeepsInv(s, s');
    } else {
      assert s.g.once.Complete? && s.g.keyLive;
      forall j | 0 <= j < |s'.workers| ensures WorkerOk(s'.g, j, s'.workers[j]) {
        assert WorkerOk(s.g, j, s.workers[j]);
      }
    }
  }

  lemma StepKeepsInv(s: State, e: Event)
    requires Inv(s) && Enabled(s, e)
    ensures Inv(Apply(s, e))
  {
    match e
    case Main(fail) =>
      if s.main.Creating? && s.main.i < |s.workers| && !fail { CreateKeepsInv(s); }
      else if s.main.Creating? { StopCreatingKeepsInv(s, fail); }
      else if s.main.Joining? { JoinKeepsInv(s, fail); }
      else { DeleteKeepsInv(s, fail); }
    case Step(i, fail) => WorkerKeepsInv(s, i, fail);
  }

  // --------------------------------------------------------------- accounting

  function Succeeded(w: Worker): int { if w.setOk then 1 else 0 }

  function SucceededId(w: Worker): int { if w.setOk then w.id else 0 }

  lemma {:induction false} TotalAgrees(ws: seq<Worker>, f: Worker -> int, h: Worker -> int)
    requires forall i :: 0 <= i < |ws| ==> f(ws[i]) == h(ws[i])
    ensures Total(ws, f) == Total(ws, h)
  {
    if ws == [] {
    } else {
      TotalAgrees(ws[1..], f, h);
    }
  }

  lemma {:induction false} TotalOfRange(ws: seq<Worker>, f: Worker -> int, base: int)
    requires forall i :: 0 <= i < |ws| ==> f(ws[i]) == base + i + 1
    ensures Total(ws, f) == |ws| * base + |ws| * (|ws| + 1) / 2
  {
    if ws == [] {
    } else {
      var n := |ws| - 1;
      forall i | 0 <= i < |ws[1..]| ensures f(ws[1..][i]) == base + 1 + i + 1 {
        assert ws[1..][i] == ws[i + 1];
      }
      TotalOfRange(ws[1..], f, base + 1);
      assert (n + 1) * (n + 2) == n * (n + 1) + 2 * (n + 1);
      assert n * (base + 1) == n * base + n;
      assert (n + 1) * base == n * base + base;
    }
  }

  lemma {:induction false} TotalOfOnes(ws: seq<Worker>, f: Worker -> int)
    requires forall i :: 0 <= i < |ws| ==> f(ws[i]) == 1
    ensures Total(ws, f) == |ws|
  {
    if ws == [] {
    } else {
      TotalOfOnes(ws[1..], f);
    }
  }

  /**
   * Once every created worker has been joined, nothing is left on the heap and the
   * destructor has run exactly for the workers whose set succeeded.
   */
  lemma JoinedAccounting(s: State)
    requires Inv(s) && JoinedUpTo(s.workers, s.created)
    ensures s.g.heap == map[]
    ensures s.g.destructorCount == Total(s.workers, Succeeded)
    ensures s.g.destructorIdSum == Total(s.workers, SucceededId)
  {
    assert forall i :: 0 <= i < |s.workers| ==> Holds(s.workers[i]) == None;
    assert forall p :: p !in s.g.heap;
    forall i | 0 <= i < |s.workers|
      ensures Counted(s.workers[i]) == Succeeded(s.workers[i]) && Summed(s.workers[i]) == SucceededId(s.workers[i])
    {
      assert WorkerOk(s.g, i, s.workers[i]);
    }
    TotalAgrees(s.workers, Counted, Succeeded);
    TotalAgrees(s.workers, Summed, SucceededId);
  }

  /** main's checks of the counters add nothing to all workers having verified. */
  lemma VerifiedIffAllVerified(s: State)
    requires Inv(s) && JoinedUpTo(s.workers, s.created)
    ensures Verified(s) <==> 0 < |s.workers| && AllVerified(s)
  {
    if 0 < |s.workers| && AllVerified(s) {
      JoinedAccounting(s);
      forall i | 0 <= i < |s.workers|
        ensures Succeeded(s.workers[i]) == 1 && SucceededId(s.workers[i]) == i + 1
      {
        assert WorkerOk(s.g, i, s.workers[i]);
      }
      TotalOfOnes(s.workers, Succeeded);
      TotalOfRange(s.workers, SucceededId, 0);
      assert WorkerOk(s.g, 0, s.workers[0]);
    }
  }

  // ------------------------------------------------------------ failure tracking

  /** Gave up before handing a block to the key. */
  predicate Lost(w: Worker) {
    !w.setOk && (w.pc.FreeUnset? || w.pc.Exiting? || w.pc.Terminated?)
  }

  /** No call has failed so far. */
  predicate Clean(s: State) {
    && !s.g.keyError && !s.joinFailed
    && (s.main.Creating? || s.created == |s.workers|)
    && (forall i :: 0 <= i < |s.workers| ==> !Lost(s.workers[i]))
    && (s.main.Finished? ==> s.main.success || s.workers == [])
  }

  lemma CleanIsVerified(s: State)
    requires Inv(s) && Clean(s) && !s.main.Creating? && JoinedUpTo(s.workers, s.created) && s.workers != []
    ensures Verified(s)
  {
    forall i | 0 <= i < |s.workers| ensures s.workers[i].verified {
      assert WorkerOk(s.g, i, s.workers[i]);
    }
    VerifiedIffAllVerified(s);
  }

  lemma SuccessIsClean(s: State)
    requires Inv(s) && s.main.Finished? && s.main.success
    ensures Clean(s) && s.workers != []
  {
    VerifiedIffAllVerified(s);
    forall i | 0 <= i < |s.workers| ensures !Lost(s.workers[i]) {
      assert WorkerOk(s.g, i, s.workers[i]);
    }
  }

  lemma WorkerTracksFailures(g: Shared, i: nat, w: Worker, fail: bool)
    requires WorkerEnabled(g, w.pc, fail) && WorkerOk(g, i, w)
    ensures !Effect(g, i, w, fail).keyError && !Lost(Local(g, w, fail)) <==> !g.keyError && !Lost(w) && !fail
  {
  }

  lemma StepTracksFailures(s: State, e: Event)
    requires Inv(s) && Enabled(s, e)
    ensures Clean(Apply(s, e)) <==> Clean(s) && !e.fail
  {
    var s' := Apply(s, e);
    match e
    case Step(i, fail) =>
      assert WorkerOk(s.g, i, s.workers[i]);
      WorkerTracksFailures(s.g, i, s.workers[i], fail);
      assert s'.workers[i] == Local(s.g, s.workers[i], fail);
      assert forall j :: 0 <= j < |s.workers| && j != i ==> s'.workers[j] == s.workers[j];
      if Clean(s') {
        forall j | 0 <= j < |s.workers| ensures !Lost(s.workers[j]) {
          assert !Lost(s'.workers[j]);
        }
      }
    case Main(fail) =>
      if s.main.Creating? && s.main.i < |s.workers| && !fail {
        assert !Lost(s.workers[s.main.i]) && !Lost(s'.workers[s.main.i]);
        assert forall j :: 0 <= j < |s.workers| && j != s.main.i ==> s'.workers[j] == s.workers[j];
      } else if s.main.Deleting? && Clean(s) && s.workers != [] {
        CleanIsVerified(s);
      }
  }

  // ----------------------------------------------------------------- whole runs

  function Rank(w: Worker): int {
    match w.pc
    case NotCreated => 13
    case Once => 12
    case CreateKey => 11
    case RecordKey => 10
    case CheckError => 9
    case Malloc => 8
    case SetSpecific => 7
    case FreeUnset => 6
    case GetSpecific => 6
    case Exiting => 5
    case AddCount => 4
    case AddSum => 3
    case FreeValue => 2
    case Terminated => 1
  }

  function MainWork(s: State): int {
    match s.main
    case Creating(i) => |s.workers| - i + |s.workers| + 3
    case Joining(i) => s.created - i + 2
    case Deleting(_) => 1
    case Finished(_) => 0
  }

  function Work(s: State): int {
    Total(s.workers, Rank) + MainWork(s)
  }

  lemma {:induction false} RankBounds(ws: seq<Worker>)
    ensures 0 <= Total(ws, Rank) <= 13 * |ws|
  {
    if ws == [] {
    } else {
      RankBounds(ws[1..]);
    }
  }

  lemma LocalConsumesRank(g: Shared, w: Worker, fail: bool)
    requires WorkerEnabled(g, w.pc, fail)
    ensures Rank(Local(g, w, fail)) < Rank(w)
  {
  }

  lemma StepConsumesWork(s: State, e: Event)
    requires Inv(s) && Enabled(s, e)
    ensures Work(Apply(s, e)) < Work(s)
  {
    match e
    case Step(i, fail) =>
      LocalConsumesRank(s.g, s.workers[i], fail);
      TotalUpdate(s.workers, i, Local(s.g, s.workers[i], fail), Rank);
    case Main(fail) =>
      if s.main.Creating? && s.main.i < |s.workers| && !fail {
        TotalUpdate(s.workers, s.main.i, s.workers[s.main.i].(id := s.main.i + 1, pc := Once), Rank);
      }
  }

  /** Until main has finished, some step that does not fail can happen. */
  lemma NeverStuck(s: State) returns (e: Event)
    requires Inv(s) && !s.main.Finished?
    ensures !e.fail && Enabled(s, e)
  {
    if MainEnabled(s, false) {
      e := Main(false);
    } else {
      var i := s.main.i;
      if s.workers[i].pc.Once? && s.g.once.Running? {
        e := Step(s.g.once.i, false);
      } else {
        e := Step(i, false);
      }
    }
  }

  predicate ValidRun(s: State, es: seq<Event>)
    decreases |es|
  {
    es == [] || (Enabled(s, es[0]) && ValidRun(Apply(s, es[0]), es[1..]))
  }

  function Final(s: State, es: seq<Event>): State
    requires ValidRun(s, es)
    decreases |es|
  {
    if es == [] then s else Final(Apply(s, es[0]), es[1..])
  }

  predicate AnyFailure(es: seq<Event>) {
    es != [] && (es[0].fail || AnyFailure(es[1..]))
  }

  lemma Step1(s: State, e: Event)
    requires Inv(s) && Enabled(s, e)
    ensures Inv(Apply(s, e)) && |Apply(s, e).workers| == |s.workers|
    ensures Work(Apply(s, e)) < Work(s)
    ensures Clean(Apply(s, e)) <==> Clean(s) && !e.fail
  {
    StepKeepsInv(s, e);
    StepConsumesWork(s, e);
    StepTracksFailures(s, e);
  }

  lemma {:induction false} RunKeepsInv(s: State, es: seq<Event>)
    requires Inv(s) && ValidRun(s, es)
    ensures Inv(Final(s, es)) && |Final(s, es).workers| == |s.workers|
    ensures Work(Final(s, es)) <= Work(s) - |es|
    ensures Clean(Final(s, es)) <==> Clean(s) && !AnyFailure(es)
    decreases |es|
  {
    if es == [] {
    } else {
      var s' := Apply(s, es[0]);
      Step1(s, es[0]);
      RunKeepsInv(s', es[1..]);
      assert Final(s, es) == Final(s', es[1..]);
    }
  }

  /**
   * Safety at every moment of every run: no key or block is misused, the key is
   * created at most once, and it is deleted only when every worker that was ever
   * created, destructor included, is over.  By then every block has been freed and
   * the destructor has counted exactly the workers whose set succeeded.
   */
  lemma EveryRunIsSafe(n: nat, es: seq<Event>)
    requires ValidRun(Init(n), es)
    ensures var s := Final(Init(n), es);
            && !s.g.fault
            && s.g.keyCreates <= 1
            && (s.keyDeleted ==>
                  forall i :: 0 <= i < |s.workers| ==> s.workers[i].pc.Terminated? || s.workers[i].pc.NotCreated?)
            && (s.main.Deleting? ==>
                  && s.g.heap == map[]
                  && s.g.destructorCount == Total(s.workers, Succeeded)
                  && s.g.destructorIdSum == Total(s.workers, SucceededId))
  {
    InitInv(n);
    RunKeepsInv(Init(n), es);
    if Final(Init(n), es).main.Deleting? { JoinedAccounting(Final(Init(n), es)); }
  }

  /**
   * Every run ends, and it ends in success exactly when there was a worker and no
   * call failed anywhere; then no block is left and the key is gone.
   */
  lemma SucceedsIffNothingFailed(n: nat, es: seq<Event>)
    requires ValidRun(Init(n), es)
    ensures |es| <= 15 * n + 3
    ensures var s := Final(Init(n), es);
            && ((forall e :: !Enabled(s, e)) ==> s.main.Finished?)
            && (s.main.Finished? ==> (s.main.success <==> 0 < n && !AnyFailure(es)))
            && (s.main.Finished? && s.main.success ==> s.g.heap == map[] && s.keyDeleted)
  {
    InitInv(n);
    RunKeepsInv(Init(n), es);
    RankBounds(Init(n).workers);
    var s := Final(Init(n), es);
    RankBounds(s.workers);
    if !s.main.Finished? {
      var e := NeverStuck(s);
    } else if s.main.success {
      JoinedAccounting(s);
      SuccessIsClean(s);
    }
  }

  // ------------------------------------------------------- what main leaves behind

  /** A creation fails in the course of the run. */
  predicate CreateFails(s: State, es: seq<Event>)
    requires ValidRun(s, es)
    decreases |es|
  {
    es != [] && ((s.main.Creating? && es[0] == Main(true)) || CreateFails(Apply(s, es[0]), es[1..]))
  }

  /** The threads whose join fails. */
  function FailedJoins(s: State, es: seq<Event>): set<nat>
    requires ValidRun(s, es)
    decreases |es|
  {
    if es == [] then {}
    else
      (if s.main.Joining? && es[0] == Main(true) then {s.main.i} else {}) + FailedJoins(Apply(s, es[0]), es[1..])
  }

  /** The deletion of the key fails. */
  predicate DeleteFails(s: State, es: seq<Event>)
    requires ValidRun(s, es)
    decreases |es|
  {
    es != [] && ((s.main.Deleting? && es[0] == Main(true)) || DeleteFails(Apply(s, es[0]), es[1..]))
  }

  /** How far main has got, given which of its calls have failed so far. */
  predicate Accounted(s: State, createFailed: bool, failedJoins: set<nat>, deleteFailed: bool) {
    && (s.main.Creating? ==> !createFailed && failedJoins == {})
    && (!s.main.Creating? ==> (s.created == |s.workers| <==> !createFailed))
    && (s.joinFailed <==> failedJoins != {})
    && (forall j :: 0 <= j < |s.workers| && (if s.main.Joining? then j < s.main.i else j < s.created) ==>
          s.main.Creating? || s.workers[j].pc.Terminated? || j in failedJoins)
    && (deleteFailed ==> s.main.Finished?)
    && (s.keyDeleted ==> s.main.Finished?)
    && (s.main.Finished? ==>
          (s.keyDeleted <==> failedJoins == {} && s.g.keyInitialized && !s.g.keyError && !deleteFailed))
  }

  lemma MainStepAccounts(s: State, fail: bool, c: bool, j: set<nat>, d: bool)
    requires Inv(s) && Enabled(s, Main(fail)) && Accounted(s, c, j, d)
    ensures Accounted(MainStep(s, fail), c || (s.main.Creating? && fail),
                      j + if s.main.Joining? && fail then {s.main.i} else {}, d || (s.main.Deleting? && fail))
  {
  }

  lemma StepAccounts(s: State, e: Event, c: bool, j: set<nat>, d: bool)
    requires Inv(s) && Enabled(s, e) && Accounted(s, c, j, d)
    ensures Accounted(Apply(s, e), c || (s.main.Creating? && e == Main(true)),
                      j + if s.main.Joining? && e == Main(true) then {s.main.i} else {},
                      d || (s.main.Deleting? && e == Main(true)))
  {
    match e
    case Main(fail) => MainStepAccounts(s, fail, c, j, d);
    case Step(i, fail) => assert j + {} == j;
  }

  lemma {:induction false} RunAccounts(s: State, es: seq<Event>, c: bool, j: set<nat>, d: bool)
    requires Inv(s) && ValidRun(s, es) && Accounted(s, c, j, d)
    ensures Accounted(Final(s, es), c || CreateFails(s, es), j + FailedJoins(s, es), d || DeleteFails(s, es))
    decreases |es|
  {
    if es == [] {
      assert j + FailedJoins(s, es) == j;
    } else {
      var e := es[0];
      StepKeepsInv(s, e);
      StepAccounts(s, e, c, j, d);
      var j' := j + if s.main.Joining? && e == Main(true) then {s.main.i} else {};
      RunAccounts(Apply(s, e), es[1..], c || (s.main.Creating? && e == Main(true)), j',
                  d || (s.main.Deleting? && e == Main(true)));
      assert j' + FailedJoins(Apply(s, e), es[1..]) == j + FailedJoins(s, es);
    }
  }

  /**
   * What a finished main leaves behind, verified or not: it created all threads
   * unless a creation failed; it joined every created thread but those whose join
   * failed; and it deleted the key exactly when no join failed, the key had been
   * created, and the deletion did not fail.  So no key is left unless a call of
   * main failed.
   */
  lemma KeyDeletedIff(n: nat, es: seq<Event>)
    requires ValidRun(Init(n), es)
    ensures var s := Final(Init(n), es);
            var failedJoins := FailedJoins(Init(n), es);
            s.main.Finished? ==>
              && (s.created == n <==> !CreateFails(Init(n), es))
              && (forall i :: 0 <= i < s.created && i < |s.workers| ==> s.workers[i].pc.Terminated? || i in failedJoins)
              && (s.keyDeleted <==>
                    failedJoins == {} && s.g.keyInitialized && !s.g.keyError && !DeleteFails(Init(n), es))
              && (failedJoins == {} && !DeleteFails(Init(n), es) ==> !s.g.keyLive)
  {
    InitInv(n);
    RunKeepsInv(Init(n), es);
    RunAccounts(Init(n), es, false, {}, false);
    assert {} + FailedJoins(Init(n), es) == FailedJoins(Init(n), es);
  }
}
