/**
 * experiments/07_threads: a ring buffer shared by one producer and one consumer
 * under a mutex and two condition variables.
 *
 * The first half is the ring buffer and the statements of the two critical
 * sections; the second half is the protocol as a state machine.  Every
 * statement of a critical section is a step of its own, so mutual exclusion is
 * proved rather than assumed.  The queue capacity and the item count are free.
 */
module Threads {

  // ---------------------------------------------------------------- the queue

  datatype Queue = Queue(
    items: seq<int>, head: int, tail: int, count: int,
    produced: int, consumed: int, consumedSum: int)

  type Ring = q: Queue | 0 <= q.head < |q.items| && 0 <= q.tail < |q.items|
    witness Queue([0], 0, 0, 0, 0, 0, 0)

  /** The k-th cell after the head, counted around the ring. */
  function Slot(q: Ring, k: nat): (i: nat)
    ensures i < |q.items|
  {
    (q.head + k) % |q.items|
  }

  /** The queued values in the order the consumer will see them. */
  function Contents(q: Ring): (s: seq<int>)
    requires 0 <= q.count
    ensures |s| == q.count
    ensures forall k :: 0 <= k < q.count ==> s[k] == q.items[Slot(q, k)]
  {
    seq(q.count, k requires 0 <= k < q.count => q.items[Slot(q, k)])
  }

  function OneTo(n: nat): (s: seq<int>)
    ensures |s| == n && forall i :: 0 <= i < n ==> s[i] == i + 1
  {
    seq(n, i => i + 1)
  }

  function Sum(s: seq<int>): int {
    if s == [] then 0 else Sum(s[..|s| - 1]) + s[|s| - 1]
  }

  /** The effect of one whole producer critical section. */
  function Inserted(q: Ring, value: int): Ring {
    q.(items := q.items[q.tail := value], tail := (q.tail + 1) % |q.items|,
       count := q.count + 1, produced := q.produced + 1)
  }

  /** The effect of one whole consumer critical section. */
  function Removed(q: Ring): Ring {
    q.(head := (q.head + 1) % |q.items|, count := q.count - 1,
       consumed := q.consumed + 1, consumedSum := q.consumedSum + q.items[q.head])
  }

  /**
   * The queue is a FIFO of the numbers 1, 2, 3, ...: what was taken, followed by
   * what is still in the ring, is exactly what was produced, in order.
   */
  ghost predicate Fifo(q: Ring, taken: seq<int>) {
    && 0 <= q.count <= |q.items|
    && q.tail == Slot(q, q.count)
    && q.consumed == |taken|
    && q.produced == q.consumed + q.count
    && q.consumedSum == Sum(taken)
    && taken + Contents(q) == OneTo(q.produced)
  }

  lemma WrapOnce(a: nat, c: nat)
    requires 0 < c && a < 2 * c
    ensures a % c == if a < c then a else a - c
  {
    if a >= c {
      assert a == c * 1 + (a - c);
      assert a / c == 1;
    }
  }

  lemma InsertAppends(q: Ring, value: int)
    requires 0 <= q.count < |q.items| && q.tail == Slot(q, q.count)
    ensures Contents(Inserted(q, value)) == Contents(q) + [value]
    ensures Inserted(q, value).tail == Slot(q, q.count + 1)
  {
    var r := Inserted(q, value);
    WrapOnce(q.head + q.count, |q.items|);
    WrapOnce(q.tail + 1, |q.items|);
    WrapOnce(q.head + q.count + 1, |q.items|);
    forall k | 0 <= k < q.count
      ensures r.items[Slot(r, k)] == q.items[Slot(q, k)]
    {
      WrapOnce(q.head + k, |q.items|);
    }
  }

  lemma RemoveDropsHead(q: Ring)
    requires 0 < q.count <= |q.items|
    ensures Contents(q) == [q.items[q.head]] + Contents(Removed(q))
    ensures Slot(Removed(q), q.count - 1) == Slot(q, q.count)
  {
    var r := Removed(q);
    WrapOnce(q.head + 1, |q.items|);
    forall k | 0 <= k < q.count
      ensures Slot(r, k) == Slot(q, k + 1)
    {
      WrapOnce(r.head + k, |q.items|);
      WrapOnce(q.head + k + 1, |q.items|);
    }
    assert Slot(r, q.count - 1) == Slot(q, q.count);
    assert Slot(q, 0) == q.head by { WrapOnce(q.head, |q.items|); }
    forall i | 0 <= i < q.count
      ensures Contents(q)[i] == ([q.items[q.head]] + Contents(r))[i]
    {
      if i > 0 { assert Slot(r, i - 1) == Slot(q, i); }
    }
  }

  lemma InsertKeepsFifo(q: Ring, taken: seq<int>)
    requires Fifo(q, taken) && q.count < |q.items|
    ensures Fifo(Inserted(q, q.produced + 1), taken)
  {
    InsertAppends(q, q.produced + 1);
    var r := Inserted(q, q.produced + 1);
    assert taken + Contents(r) == (taken + Contents(q)) + [q.produced + 1];
    assert OneTo(r.produced) == OneTo(q.produced) + [q.produced + 1];
  }

  lemma RemoveKeepsFifo(q: Ring, taken: seq<int>)
    requires Fifo(q, taken) && 0 < q.count
    ensures q.items[q.head] == q.consumed + 1
    ensures Fifo(Removed(q), taken + [q.items[q.head]])
  {
    RemoveDropsHead(q);
    var v := q.items[q.head];
    assert (taken + Contents(q))[|taken|] == v;
    assert (taken + [v])[..|taken|] == taken;
    assert taken + [v] + Contents(Removed(q)) == taken + Contents(q);
  }

  lemma {:induction false} SumOneTo(n: nat)
    ensures Sum(OneTo(n)) == n * (n + 1) / 2
  {
    if n == 0 {
    } else {
      assert OneTo(n)[..n - 1] == OneTo(n - 1);
      SumOneTo(n - 1);
      assert n * (n + 1) == (n - 1) * n + 2 * n;
    }
  }

  // The queue as the program holds it: an array and counters updated in place.
  class SharedQueue {
    const items: array<int>
    var head: int
    var tail: int
    var count: int
    var produced: int
    var consumed: int
    var consumedSum: int

    ghost predicate InBounds()
      reads this
    {
      0 <= head < items.Length && 0 <= tail < items.Length
    }

    ghost function Snapshot(): Ring
      reads this, items
      requires InBounds()
    {
      Queue(items[..], head, tail, count, produced, consumed, consumedSum)
    }

    /** New values go behind the last one queued. */
    ghost predicate Valid()
      reads this, items
    {
      InBounds() && 0 <= count <= items.Length && tail == Slot(Snapshot(), count)
    }

    /** The queued values, from the head around the ring. */
    ghost function Queued(): seq<int>
      reads this, items
      requires Valid()
    {
      Contents(Snapshot())
    }

    /** The statically initialised queue: everything is zero. */
    constructor (capacity: nat)
      requires 1 <= capacity
      ensures Valid() && fresh(items) && Queued() == []
      ensures Snapshot() == Queue(seq(capacity, _ => 0), 0, 0, 0, 0, 0, 0)
    {
      items := new int[capacity](_ => 0);
      head, tail, count, produced, consumed, consumedSum := 0, 0, 0, 0, 0, 0;
      new;
      assert items[..] == seq(capacity, _ => 0);
    }

    /** Lines 41-44, once there is room. */
    method Put(value: int)
      requires Valid() && count < items.Length
      modifies this, items
      ensures Valid() && Queued() == old(Queued()) + [value]
      ensures Snapshot() == Inserted(old(Snapshot()), value)
    {
      ghost var before := Snapshot();
      InsertAppends(before, value);
      items[tail] := value;
      tail := (tail + 1) % items.Length;
      count := count + 1;
      produced := produced + 1;
      assert Snapshot() == Inserted(before, value);
    }

    /** Lines 64-68, once there is something to take. */
    method Take() returns (value: int)
      requires Valid() && 0 < count
      modifies this
      ensures Valid() && old(Queued()) == [value] + Queued()
      ensures Snapshot() == Removed(old(Snapshot())) && consumedSum == old(consumedSum) + value
    {
      ghost var before := Snapshot();
      RemoveDropsHead(before);
      value := items[head];
      head := (head + 1) % items.Length;
      count := count - 1;
      consumed := consumed + 1;
      consumedSum := consumedSum + value;
      assert Snapshot() == Removed(before);
    }
  }

  // ------------------------------------------------------------- the protocol

  datatype Thread = Producer | Consumer

  datatype Owner = Free | Held(thread: Thread)

  /** Where a thread is.  Body(k) is about to run statement k of its critical section. */
  datatype Pc =
    | NotStarted
    | LoopTest
    | Lock
    | Predicate
    | Asleep
    | Reacquire
    | Body(statement: nat)
    | Signal
    | Unlock
    | Returned

  datatype MainPc =
    | CreateProducer
    | CreateConsumer
    | JoinProducer
    | JoinConsumer
    | Verify
    | Exited(verified: bool)

  /**
   * The process.  value, index and local are the loop variables and the local of
   * the two thread functions; taken is a history of the values added to consumedSum.
   */
  datatype State = State(
    n: nat, q: Ring, owner: Owner, mainPc: MainPc,
    producerPc: Pc, value: int,
    consumerPc: Pc, index: int, local: int, taken: seq<int>)

  datatype Event = Main | Run(thread: Thread) | Spurious(thread: Thread)

  function Init(capacity: nat, n: nat): State
    requires 1 <= capacity
  {
    State(n, Queue(seq(capacity, _ => 0), 0, 0, 0, 0, 0, 0), Free, CreateProducer,
          NotStarted, 1, NotStarted, 0, 0, [])
  }

  function PcOf(s: State, t: Thread): Pc {
    if t.Producer? then s.producerPc else s.consumerPc
  }

  predicate Enabled(s: State, e: Event) {
    match e
    case Main =>
      (match s.mainPc
       case JoinProducer => s.producerPc.Returned?
       case JoinConsumer => s.consumerPc.Returned?
       case Exited(_) => false
       case _ => true)
    case Run(t) =>
      (match PcOf(s, t)
       case NotStarted => false
       case Asleep => false
       case Returned => false
       case Lock => s.owner.Free?
       case Reacquire => s.owner.Free?
       case _ => true)
    case Spurious(t) => PcOf(s, t).Asleep?
  }

  function Verified(s: State): bool {
    && s.q.produced == s.n
    && s.q.consumed == s.n
    && s.q.count == 0
    && s.q.consumedSum == s.n * (s.n + 1) / 2
  }

  function MainStep(s: State): State {
    match s.mainPc
    case CreateProducer => s.(mainPc := CreateConsumer, producerPc := LoopTest)
    case CreateConsumer => s.(mainPc := JoinProducer, consumerPc := LoopTest)
    case JoinProducer => s.(mainPc := JoinConsumer)
    case JoinConsumer => s.(mainPc := Verify)
    case _ => s.(mainPc := Exited(Verified(s)))
  }

  /** Statement k of lines 41-44. */
  function PutStatement(s: State, k: nat): State {
    var q := s.q;
    var r: Ring :=
      if k == 0 then q.(items := q.items[q.tail := s.value])
      else if k == 1 then q.(tail := (q.tail + 1) % |q.items|)
      else if k == 2 then q.(count := q.count + 1)
      else q.(produced := q.produced + 1);
    s.(q := r, producerPc := if k < 3 then Body(k + 1) else Signal)
  }

  /** Statement k of lines 64-68. */
  function TakeStatement(s: State, k: nat): State {
    var q := s.q;
    var t := s.(consumerPc := if k < 4 then Body(k + 1) else Signal);
    if k == 0 then t.(local := q.items[q.head])
    else if k == 1 then t.(q := q.(head := (q.head + 1) % |q.items|))
    else if k == 2 then t.(q := q.(count := q.count - 1))
    else if k == 3 then t.(q := q.(consumed := q.consumed + 1))
    else t.(q := q.(consumedSum := q.consumedSum + s.local), taken := s.taken + [s.local])
  }

  function ProducerStep(s: State): State {
    match s.producerPc
    case LoopTest => s.(producerPc := if s.value <= s.n then Lock else Returned)
    case Lock => s.(owner := Held(Producer), producerPc := Predicate)
    case Reacquire => s.(owner := Held(Producer), producerPc := Predicate)
    case Predicate =>
      if s.q.count == |s.q.items| then s.(owner := Free, producerPc := Asleep)
      else s.(producerPc := Body(0))
    case Body(k) => PutStatement(s, k)
    case Signal =>
      s.(producerPc := Unlock,
         consumerPc := if s.consumerPc.Asleep? then Reacquire else s.consumerPc)
    case Unlock => s.(owner := Free, producerPc := LoopTest, value := s.value + 1)
    case _ => s
  }

  function ConsumerStep(s: State): State {
    match s.consumerPc
    case LoopTest => s.(consumerPc := if s.index < s.n then Lock else Returned)
    case Lock => s.(owner := Held(Consumer), consumerPc := Predicate)
    case Reacquire => s.(owner := Held(Consumer), consumerPc := Predicate)
    case Predicate =>
      if s.q.count == 0 then s.(owner := Free, consumerPc := Asleep)
      else s.(consumerPc := Body(0))
    case Body(k) => TakeStatement(s, k)
    case Signal =>
      s.(consumerPc := Unlock,
         producerPc := if s.producerPc.Asleep? then Reacquire else s.producerPc)
    case Unlock => s.(owner := Free, consumerPc := LoopTest, index := s.index + 1)
    case _ => s
  }

  function Apply(s: State, e: Event): State
    requires Enabled(s, e)
  {
    match e
    case Main => MainStep(s)
    case Run(Producer) => ProducerStep(s)
    case Run(Consumer) => ConsumerStep(s)
    case Spurious(Producer) => s.(producerPc := Reacquire)
    case Spurious(Consumer) => s.(consumerPc := Reacquire)
  }

  // ---------------------------------------------------------------- invariant

  predicate HoldsMutex(pc: Pc) {
    pc.Predicate? || pc.Body? || pc.Signal? || pc.Unlock?
  }

  function FinishPut(s: State, k: nat): State
    decreases 4 - k
  {
    if k < 4 then FinishPut(PutStatement(s, k), k + 1) else s
  }

  function FinishTake(s: State, k: nat): State
    decreases 5 - k
  {
    if k < 5 then FinishTake(TakeStatement(s, k), k + 1) else s
  }

  /** The state once the thread inside its critical section, if any, leaves it. */
  function Settled(s: State): State {
    if s.producerPc.Body? then FinishPut(s, s.producerPc.statement)
    else if s.consumerPc.Body? then FinishTake(s, s.consumerPc.statement)
    else s
  }

  lemma PutIsAtomic(s: State)
    requires s.producerPc == Body(0)
    ensures Settled(s) == s.(q := Inserted(s.q, s.value), producerPc := Signal)
  {
    var s1 := PutStatement(s, 0);
    var s2 := PutStatement(s1, 1);
    var s3 := PutStatement(s2, 2);
    assert FinishPut(s, 0) == FinishPut(s1, 1) == FinishPut(s2, 2) == FinishPut(s3, 3);
  }

  lemma TakeIsAtomic(s: State)
    requires !s.producerPc.Body? && s.consumerPc == Body(0)
    ensures var v := s.q.items[s.q.head];
            Settled(s) == s.(q := Removed(s.q), local := v, taken := s.taken + [v], consumerPc := Signal)
  {
    var s1 := TakeStatement(s, 0);
    var s2 := TakeStatement(s1, 1);
    var s3 := TakeStatement(s2, 2);
    var s4 := TakeStatement(s3, 3);
    assert FinishTake(s, 0) == FinishTake(s1, 1) == FinishTake(s2, 2) == FinishTake(s3, 3) == FinishTake(s4, 4);
  }

  lemma {:induction false} FinishPutFrame(s: State, s': State, k: nat)
    requires s.q == s'.q && s.value == s'.value && s.taken == s'.taken
    ensures FinishPut(s, k).q == FinishPut(s', k).q && FinishPut(s, k).taken == FinishPut(s', k).taken
    decreases 4 - k
  {
    if k >= 4 {
    } else {
      FinishPutFrame(PutStatement(s, k), PutStatement(s', k), k + 1);
    }
  }

  lemma {:induction false} FinishTakeFrame(s: State, s': State, k: nat)
    requires s.q == s'.q && s.local == s'.local && s.taken == s'.taken
    ensures FinishTake(s, k).q == FinishTake(s', k).q && FinishTake(s, k).taken == FinishTake(s', k).taken
    decreases 5 - k
  {
    if k >= 5 {
    } else {
      FinishTakeFrame(TakeStatement(s, k), TakeStatement(s', k), k + 1);
    }
  }

  /** Steps outside the critical sections do not disturb the settled queue. */
  lemma SettledFrame(s: State, s': State)
    requires s.q == s'.q && s.value == s'.value && s.local == s'.local && s.taken == s'.taken
    requires s.producerPc.Body? || s'.producerPc.Body? ==> s.producerPc == s'.producerPc
    requires s.consumerPc.Body? || s'.consumerPc.Body? ==> s.consumerPc == s'.consumerPc
    ensures Settled(s).q == Settled(s').q && Settled(s).taken == Settled(s').taken
  {
    if s.producerPc.Body? {
      FinishPutFrame(s, s', s.producerPc.statement);
    } else if s.consumerPc.Body? {
      FinishTakeFrame(s, s', s.consumerPc.statement);
    }
  }

  /** Mutual exclusion: the owner field and the two program counters agree. */
  predicate MutexOk(s: State) {
    && (HoldsMutex(s.producerPc) <==> s.owner == Held(Producer))
    && (HoldsMutex(s.consumerPc) <==> s.owner == Held(Consumer))
  }

  /** Past the body of the critical section of the current iteration. */
  predicate Acted(pc: Pc) {
    pc.Body? || pc.Signal? || pc.Unlock?
  }

  /** The loop counters agree with the settled queue. */
  predicate CountersOk(s: State, q: Ring) {
    && 1 <= s.value <= s.n + 1
    && 0 <= s.index <= s.n
    && q.produced == s.value - (if Acted(s.producerPc) then 0 else 1)
    && q.consumed == s.index + (if Acted(s.consumerPc) then 1 else 0)
    && (s.producerPc.Returned? ==> s.value == s.n + 1)
    && (s.consumerPc.Returned? ==> s.index == s.n)
    && (s.producerPc.NotStarted? || s.producerPc.LoopTest? || s.producerPc.Returned? || s.value <= s.n)
    && (s.consumerPc.NotStarted? || s.consumerPc.LoopTest? || s.consumerPc.Returned? || s.index < s.n)
    && (s.producerPc.Body? ==> s.producerPc.statement < 4)
    && (s.consumerPc.Body? ==> s.consumerPc.statement < 5)
  }

  /**
   * No lost wakeup: a thread sleeps only while the queue gives it nothing to do,
   * or while the peer holds the mutex between its change and its signal.
   */
  predicate WakeupsOk(s: State, q: Ring) {
    && (s.producerPc.Asleep? ==>
          q.count == |q.items| || s.consumerPc.Body? || s.consumerPc.Signal?)
    && (s.consumerPc.Asleep? ==>
          q.count == 0 || s.producerPc.Body? || s.producerPc.Signal?)
  }

  predicate MainOk(s: State) {
    && (s.producerPc.NotStarted? <==> s.mainPc.CreateProducer?)
    && (s.consumerPc.NotStarted? <==> s.mainPc.CreateProducer? || s.mainPc.CreateConsumer?)
    && (s.mainPc.JoinConsumer? || s.mainPc.Verify? || s.mainPc.Exited? ==> s.producerPc.Returned?)
    && (s.mainPc.Verify? || s.mainPc.Exited? ==> s.consumerPc.Returned?)
    && (s.mainPc.Exited? ==> s.mainPc.verified)
  }

  /** Everything the invariant says about control, given the settled queue q. */
  predicate Control(s: State, q: Ring) {
    MutexOk(s) && CountersOk(s, q) && WakeupsOk(s, q) && MainOk(s)
  }

  ghost predicate Inv(s: State) {
    Fifo(Settled(s).q, Settled(s).taken) && Control(s, Settled(s).q)
  }

  lemma InitInv(capacity: nat, n: nat)
    requires 1 <= capacity
    ensures Inv(Init(capacity, n))
  {
    var s := Init(capacity, n);
    assert Contents(s.q) == [];
    WrapOnce(0, capacity);
  }

  lemma ProducerKeepsControl(s: State, q: Ring)
    requires Control(s, q) && Enabled(s, Run(Producer))
    requires s.producerPc.Predicate? ==> q == s.q
    ensures Control(ProducerStep(s),
                    if s.producerPc.Predicate? && q.count != |q.items| then Inserted(q, s.value) else q)
  {
  }

  lemma ConsumerKeepsControl(s: State, q: Ring)
    requires Control(s, q) && Enabled(s, Run(Consumer))
    requires s.consumerPc.Predicate? ==> q == s.q
    ensures Control(ConsumerStep(s),
                    if s.consumerPc.Predicate? && q.count != 0 then Removed(q) else q)
  {
  }

  lemma PutSettles(s: State)
    requires MutexOk(s) && s.producerPc.Body? && s.producerPc.statement < 4
    ensures Settled(ProducerStep(s)) == Settled(s)
  {
    var k := s.producerPc.statement;
    assert FinishPut(s, k) == FinishPut(ProducerStep(s), k + 1);
  }

  lemma TakeSettles(s: State)
    requires MutexOk(s) && s.consumerPc.Body? && s.consumerPc.statement < 5
    ensures Settled(ConsumerStep(s)) == Settled(s)
  {
    var k := s.consumerPc.statement;
    assert FinishTake(s, k) == FinishTake(ConsumerStep(s), k + 1);
  }

  lemma ProducerKeepsInv(s: State)
    requires Inv(s) && Enabled(s, Run(Producer))
    ensures Inv(ProducerStep(s))
  {
    ProducerKeepsControl(s, Settled(s).q);
    if s.producerPc.Predicate? && s.q.count != |s.q.items| {
      InsertKeepsFifo(s.q, s.taken);
      PutIsAtomic(ProducerStep(s));
    } else if s.producerPc.Body? {
      PutSettles(s);
    } else if s.producerPc.Unlock? {
      assert Settled(s) == s && Settled(ProducerStep(s)) == ProducerStep(s);
    } else {
      SettledFrame(s, ProducerStep(s));
    }
  }

  lemma ConsumerKeepsInv(s: State)
    requires Inv(s) && Enabled(s, Run(Consumer))
    ensures Inv(ConsumerStep(s))
  {
    ConsumerKeepsControl(s, Settled(s).q);
    if s.consumerPc.Predicate? && s.q.count != 0 {
      RemoveKeepsFifo(s.q, s.taken);
      TakeIsAtomic(ConsumerStep(s));
    } else if s.consumerPc.Body? {
      TakeSettles(s);
    } else {
      SettledFrame(s, ConsumerStep(s));
    }
  }

  /** A finished pair of threads leaves the queue that main expects. */
  lemma FinishedIsVerified(s: State)
    requires Inv(s) && s.producerPc.Returned? && s.consumerPc.Returned?
    ensures s.taken == OneTo(s.n) && Verified(s)
  {
    assert Contents(s.q) == [];
    assert s.taken == s.taken + Contents(s.q);
    SumOneTo(s.n);
  }

  lemma OtherKeepsControl(s: State, q: Ring, e: Event)
    requires Control(s, q) && Enabled(s, e) && !e.Run?
    requires s.mainPc.Verify? ==> Verified(s)
    ensures Control(Apply(s, e), q)
  {
  }

  lemma StepKeepsInv(s: State, e: Event)
    requires Inv(s) && Enabled(s, e)
    ensures Inv(Apply(s, e))
  {
    match e
    case Run(Producer) => ProducerKeepsInv(s);
    case Run(Consumer) => ConsumerKeepsInv(s);
    case _ =>
      if s.mainPc.Verify? { FinishedIsVerified(s); }
      OtherKeepsControl(s, Settled(s).q, e);
      SettledFrame(s, Apply(s, e));
  }

  // ------------------------------------------------------ liveness and results

  /** Until main has exited, some step other than a spurious wakeup can happen. */
  lemma NeverStuck(s: State) returns (e: Event)
    requires Inv(s) && !s.mainPc.Exited?
    ensures !e.Spurious? && Enabled(s, e)
  {
    if Enabled(s, Main) {
      e := Main;
    } else if Enabled(s, Run(Producer)) {
      e := Run(Producer);
    } else {
      e := Run(Consumer);
    }
  }

  // The steps an iteration may still take; a wakeup costs its signaller three.
  function Rank(pc: Pc): nat {
    match pc
    case LoopTest => 16
    case Lock => 15
    case Reacquire => 14
    case Predicate => 13
    case Asleep => 12
    case Body(k) => if k < 5 then 11 - k else 5
    case Signal => 5
    case Unlock => 1
    case _ => 0
  }

  function ThreadWork(pc: Pc, remaining: int): int {
    match pc
    case Returned => 0
    case NotStarted => 17 * remaining + 18
    case LoopTest => 17 * remaining + 17
    case _ => 17 * remaining + Rank(pc)
  }

  function MainWork(pc: MainPc): int {
    match pc
    case CreateProducer => 5
    case CreateConsumer => 4
    case JoinProducer => 3
    case JoinConsumer => 2
    case Verify => 1
    case Exited(_) => 0
  }

  /** A bound on the steps the process can still take without spurious wakeups. */
  function Work(s: State): int {
    MainWork(s.mainPc) + ThreadWork(s.producerPc, s.n + 1 - s.value) + ThreadWork(s.consumerPc, s.n - s.index)
  }

  lemma PutWork(s: State, k: nat)
    requires s.producerPc == Body(k) && k < 4
    ensures Work(PutStatement(s, k)) < Work(s)
  {
    assert Rank(PutStatement(s, k).producerPc) < Rank(Body(k));
  }

  lemma ProducerWork(s: State)
    requires Enabled(s, Run(Producer)) && s.value <= s.n + 1
    requires s.producerPc.Body? ==> s.producerPc.statement < 4
    ensures Work(ProducerStep(s)) < Work(s)
  {
    if s.producerPc.Body? {
      PutWork(s, s.producerPc.statement);
    }
  }

  lemma TakeWork(s: State, k: nat)
    requires s.consumerPc == Body(k) && k < 5
    ensures Work(TakeStatement(s, k)) < Work(s)
  {
    assert Rank(TakeStatement(s, k).consumerPc) < Rank(Body(k));
  }

  lemma ConsumerWork(s: State)
    requires Enabled(s, Run(Consumer)) && s.index <= s.n
    requires s.consumerPc.Body? ==> s.consumerPc.statement < 5
    ensures Work(ConsumerStep(s)) < Work(s)
  {
    if s.consumerPc.Body? {
      TakeWork(s, s.consumerPc.statement);
    }
  }

  lemma StepConsumesWork(s: State, q: Ring, e: Event)
    requires CountersOk(s, q) && Enabled(s, e)
    requires s.producerPc.NotStarted? <==> s.mainPc.CreateProducer?
    requires s.consumerPc.NotStarted? <==> s.mainPc.CreateProducer? || s.mainPc.CreateConsumer?
    ensures Work(Apply(s, e)) <= Work(s) + (if e.Spurious? then 2 else -1)
  {
    match e
    case Main =>
    case Run(t) => if t.Producer? { ProducerWork(s); } else { ConsumerWork(s); }
    case Spurious(_) =>
  }

  lemma WorkRemains(s: State)
    requires Inv(s)
    ensures 0 <= Work(s)
  {
    assert CountersOk(s, Settled(s).q);
  }

  predicate ValidRun(s: State, es: seq<Event>)
    decreases |es|
  {
    es == [] || (Enabled(s, es[0]) && ValidRun(Apply(s, es[0]), es[1..]))
  }

  function Final(s: State, es: seq<Event>): State
    requires ValidRun(s, es)
    decreases |es|
  {
    if es == [] then s else Final(Apply(s, es[0]), es[1..])
  }

  function SpuriousCount(es: seq<Event>): nat {
    if es == [] then 0 else (if es[0].Spurious? then 1 else 0) + SpuriousCount(es[1..])
  }

  lemma StepKeepsCount(s: State, e: Event)
    requires Enabled(s, e)
    ensures Apply(s, e).n == s.n
  {
  }

  lemma Step(s: State, e: Event)
    requires Inv(s) && Enabled(s, e)
    ensures Inv(Apply(s, e)) && Apply(s, e).n == s.n
    ensures Work(Apply(s, e)) <= Work(s) + (if e.Spurious? then 2 else -1)
  {
    StepKeepsInv(s, e);
    StepKeepsCount(s, e);
    assert Control(s, Settled(s).q);
    StepConsumesWork(s, Settled(s).q, e);
  }

  lemma {:induction false} RunKeepsInv(s: State, es: seq<Event>)
    requires Inv(s) && ValidRun(s, es)
    ensures Inv(Final(s, es)) && Final(s, es).n == s.n
    ensures 0 <= Work(Final(s, es)) <= Work(s) - |es| + 3 * SpuriousCount(es)
    decreases |es|
  {
    if es == [] {
      WorkRemains(s);
    } else {
      var s' := Apply(s, es[0]);
      Step(s, es[0]);
      RunKeepsInv(s', es[1..]);
      assert Final(s, es) == Final(s', es[1..]);
    }
  }

  /**
   * Safety over every run: the critical sections exclude each other; whenever the
   * mutex is free the queue is a FIFO of the values produced; both threads never
   * sleep at once; and a sleeper has nothing to do, unless its peer is between
   * its critical section and its signal.
   */
  lemma EveryRunIsSafe(capacity: nat, n: nat, es: seq<Event>)
    requires 1 <= capacity && ValidRun(Init(capacity, n), es)
    ensures var s := Final(Init(capacity, n), es);
            && !(HoldsMutex(s.producerPc) && HoldsMutex(s.consumerPc))
            && !(s.producerPc.Asleep? && s.consumerPc.Asleep?)
            && (s.owner.Free? ==> Fifo(s.q, s.taken))
            && (s.producerPc.Asleep? ==>
                  s.q.count == |s.q.items| || s.consumerPc.Body? || s.consumerPc.Signal?)
            && (s.consumerPc.Asleep? ==>
                  s.q.count == 0 || s.producerPc.Body? || s.producerPc.Signal?)
  {
    InitInv(capacity, n);
    RunKeepsInv(Init(capacity, n), es);
  }

  /**
   * Termination and total correctness: a run with k spurious wakeups has at most
   * 34 * n + 41 + 3 * k steps, and a run that cannot be continued (other than by
   * spurious wakeups) has joined both threads and verified all n values in order.
   */
  lemma EveryRunFinishes(capacity: nat, n: nat, es: seq<Event>)
    requires 1 <= capacity && ValidRun(Init(capacity, n), es)
    ensures |es| <= 34 * n + 41 + 3 * SpuriousCount(es)
    ensures var s := Final(Init(capacity, n), es);
            (forall e :: Enabled(s, e) ==> e.Spurious?) ==>
              s.mainPc == Exited(true) && s.taken == OneTo(n) && s.q.consumedSum == n * (n + 1) / 2
  {
    InitInv(capacity, n);
    RunKeepsInv(Init(capacity, n), es);
    var s := Final(Init(capacity, n), es);
    if forall e :: Enabled(s, e) ==> e.Spurious? {
      if !s.mainPc.Exited? {
        var e := NeverStuck(s);
        assert false;
      }
      FinishedIsVerified(s);
    }
  }
}
