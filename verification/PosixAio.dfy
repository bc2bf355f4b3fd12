/**
 * experiments/27_posix_aio: one asynchronous read, submitted, waited for and
 * reaped, with a cleanup that cancels and reaps whatever was left pending.
 *
 * Class Request is the request together with the library calls on it.  When the
 * operation ends and which calls fail is decided by a finite script; afterwards
 * calls succeed and the operation ends.  The preconditions of the calls are the
 * discipline the program has to keep: no call once the descriptor is closed or
 * the request reaped, and aio_return only on an ended operation.
 */
module PosixAio {

  import opened Bytes
  import opened Os

  datatype Result = Result(status: nat, data: seq<Byte>)

  /** How an operation ends: an errno, or zero and the bytes read. */
  type Ending = r: Result | r.status != EINPROGRESS witness Result(0, [])

  datatype Phase =
    | Idle
    | InProgress
    | Ended(ending: Ending)
    | Reaped(ending: Ending)

  /**
   * What happens at one call: the operation may end just before it, the call may
   * fail with an errno (0 if the library does not set it), and a cancellation may
   * come in time.
   */
  datatype Tick = Tick(ends: Option<Ending>, fails: Option<nat>, cancels: bool)

  /** An operation on a buffer of that size never reads more. */
  function Fitted(e: Ending, size: nat): Ending {
    if size < |e.data| then Result(e.status, e.data[..size]) else e
  }

  // ------------------------------------------------------------------ call traces

  /** A call of the library and its answer; inTime says that the cancellation ended the operation. */
  datatype Call =
    | Queried(status: nat)
    | QueryFailed(errno: Errno)
    | Suspended
    | SuspendFailed(errno: Errno)
    | Cancelled(inTime: bool)
    | CancelFailed(errno: Errno)
    | Returned(status: nat, count: nat)
    | ReturnFailed(errno: Errno)

  /** An API failure; an interrupted suspension is none, and neither is a failed operation. */
  function FailureOf(c: Call): Option<Errno> {
    match c
    case QueryFailed(e) => Some(e)
    case SuspendFailed(e) => if e == EINTR then None else Some(e)
    case CancelFailed(e) => Some(e)
    case ReturnFailed(e) => Some(e)
    case _ => None
  }

  function FirstFailure(calls: seq<Call>): Option<Errno> {
    if calls == [] then None
    else if FailureOf(calls[0]).Some? then FailureOf(calls[0])
    else FirstFailure(calls[1..])
  }

  lemma {:induction false} FailureOfBoth(a: seq<Call>, b: seq<Call>)
    ensures FirstFailure(a + b) == if FirstFailure(a).Some? then FirstFailure(a) else FirstFailure(b)
  {
    if a == [] {
      assert a + b == b;
    } else {
      assert (a + b)[1..] == a[1..] + b;
      FailureOfBoth(a[1..], b);
    }
  }

  lemma FailureOfOne(c: Call)
    ensures FirstFailure([c]) == FailureOf(c)
  {
    assert [c][1..] == [];
  }

  lemma FailureOfSnoc(a: seq<Call>, c: Call)
    ensures FirstFailure(a + [c]) == if FirstFailure(a).Some? then FirstFailure(a) else FailureOf(c)
  {
    FailureOfBoth(a, [c]);
    FailureOfOne(c);
  }

  datatype WaitResult = Completed(status: nat) | WaitFailed(errno: Errno)

  /** A wait so far: in progress each time it was queried, and then suspended until it was woken. */
  predicate AtQuery(calls: seq<Call>) {
    calls == [] || (calls[|calls| - 1].Suspended? && AtSuspend(calls[..|calls| - 1]))
  }

  predicate AtSuspend(calls: seq<Call>) {
    && calls != []
    && var init, last := calls[..|calls| - 1], calls[|calls| - 1];
       || (last == Queried(EINPROGRESS) && AtQuery(init))
       || (last == SuspendFailed(EINTR) && AtSuspend(init))
  }

  /** The calls of a whole wait with result r. */
  predicate Waits(calls: seq<Call>, r: WaitResult) {
    && calls != []
    && var init, last := calls[..|calls| - 1], calls[|calls| - 1];
       match r
       case Completed(status) => last == Queried(status) && status != EINPROGRESS && AtQuery(init)
       case WaitFailed(errno) =>
         || (last == QueryFailed(errno) && AtQuery(init))
         || (last == SuspendFailed(errno) && errno != EINTR && AtSuspend(init))
  }

  /** The calls of a cleanup, part by part, and the result of its wait. */
  datatype Cleanup = Cleanup(query: Call, cancel: seq<Call>, wait: seq<Call>, result: WaitResult, reap: seq<Call>)

  function CallsOf(c: Cleanup): seq<Call> {
    [c.query] + c.cancel + c.wait + c.reap
  }

  function ErrorOf(e: Option<Errno>): nat {
    if e.Some? then e.value else 0
  }

  predicate Begins(query: Call, cancel: seq<Call>) {
    && (query.Queried? || query.QueryFailed?)
    && if query == Queried(EINPROGRESS)
       then |cancel| == 1 && (cancel[0].Cancelled? || cancel[0].CancelFailed?)
       else cancel == []
  }

  predicate Reaps(result: WaitResult, reap: seq<Call>) {
    if result.Completed? then |reap| == 1 && (reap[0].Returned? || reap[0].ReturnFailed?) else reap == []
  }

  /**
   * A cleanup cancels if and only if it finds the operation in progress, then waits,
   * and reaps if and only if the wait succeeded.
   */
  predicate Proper(c: Cleanup) {
    Begins(c.query, c.cancel) && Waits(c.wait, c.result) && Reaps(c.result, c.reap)
  }

  lemma CleanupParts(c: Cleanup, before: seq<Call>)
    ensures before + ([c.query] + c.cancel) + (c.wait + c.reap) == before + CallsOf(c)
    ensures FirstFailure(CallsOf(c)) ==
            var begun := FirstFailure([c.query] + c.cancel);
            if begun.Some? then begun else FirstFailure(c.wait + c.reap)
  {
    var a, b := [c.query] + c.cancel, c.wait + c.reap;
    assert CallsOf(c) == a + b;
    FailureOfBoth(a, b);
  }

  // ------------------------------------------------------------------- the request

  class Request {
    var phase: Phase
    // The aio_nbytes bytes that the operation may fill.
    var buffer: seq<Byte>
    var fdOpen: bool
    var script: seq<Tick>
    // History: the calls made, and how many of them were aio_return.
    ghost var log: seq<Call>
    ghost var returnCalls: nat

    constructor (size: nat, script: seq<Tick>)
      ensures phase == Idle && fdOpen && returnCalls == 0 && log == [] && |buffer| == size
    {
      phase, buffer, fdOpen, this.script := Idle, seq(size, _ => 0), true, script;
      log, returnCalls := [], 0;
    }

    predicate Pending()
      reads this
    {
      fdOpen && (phase.InProgress? || (phase.Ended? && phase.ending.data <= buffer))
    }

    /** The operation ends, with what it has read in the buffer. */
    method End(ending: Ending)
      requires Pending() && phase.InProgress?
      modifies this`phase, this`buffer
      ensures Pending() && phase == Ended(Fitted(ending, |buffer|)) && |buffer| == |old(buffer)|
    {
      var e := Fitted(ending, |buffer|);
      buffer := e.data + buffer[|e.data|..];
      phase := Ended(e);
    }

    /** Time passes up to the next call. */
    method Advance() returns (fails: Option<nat>, cancels: bool)
      requires Pending()
      modifies this`phase, this`buffer, this`script
      ensures Pending() && (old(phase).Ended? ==> phase == old(phase)) && |buffer| == |old(buffer)|
      ensures |script| < |old(script)| || (script == [] && phase.Ended? && fails.None?)
    {
      if script == [] {
        if phase.InProgress? { End(Result(0, [])); }
        return None, false;
      }
      var tick := script[0];
      script := script[1..];
      if phase.InProgress? && tick.ends.Some? {
        End(tick.ends.value);
      }
      return tick.fails, tick.cancels;
    }

    /** Minus one and errno, or EINPROGRESS, or the status of the ended operation. */
    method AioError() returns (r: int, errno: Errno)
      requires Pending()
      modifies this`phase, this`buffer, this`script, this`log
      ensures Pending() && (old(phase).Ended? ==> phase == old(phase)) && |buffer| == |old(buffer)|
      ensures |script| < |old(script)| || (script == [] && phase.Ended? && r != -1)
      ensures r == -1 || r == if phase.Ended? then phase.ending.status else EINPROGRESS
      ensures log == old(log) + [if r == -1 then QueryFailed(errno) else Queried(r)]
    {
      errno := EIO;
      var fails, cancels := Advance();
      if fails.Some? {
        if fails.value > 0 { errno := fails.value; }
        log := log + [QueryFailed(errno)];
        return -1, errno;
      }
      r := if phase.Ended? then phase.ending.status else EINPROGRESS;
      log := log + [Queried(r)];
    }

    /** Returns whether it failed, which it also does when it is interrupted. */
    method AioSuspend() returns (failed: bool, errno: Errno)
      requires Pending()
      modifies this`phase, this`buffer, this`script, this`log
      ensures Pending() && (old(phase).Ended? ==> phase == old(phase)) && |buffer| == |old(buffer)|
      ensures |script| < |old(script)| || (script == [] && phase.Ended? && !failed)
      ensures log == old(log) + [if failed then SuspendFailed(errno) else Suspended]
    {
      errno := EIO;
      var fails, cancels := Advance();
      failed := fails.Some?;
      if failed && fails.value > 0 { errno := fails.value; }
      log := log + [if failed then SuspendFailed(errno) else Suspended];
    }

    /** Cancellation may come too late, and its success shows only in the status. */
    method AioCancel() returns (failed: bool, errno: Errno, ghost inTime: bool)
      requires Pending()
      modifies this`phase, this`buffer, this`script, this`log
      ensures Pending() && (old(phase).Ended? ==> phase == old(phase)) && |buffer| == |old(buffer)|
      ensures log == old(log) + [if failed then CancelFailed(errno) else Cancelled(inTime)]
      ensures !failed && inTime ==> phase == Ended(Result(ECANCELED, []))
    {
      errno := EIO;
      var fails, cancels := Advance();
      failed, inTime := fails.Some?, false;
      if failed {
        if fails.value > 0 { errno := fails.value; }
      } else if phase.InProgress? && cancels {
        End(Result(ECANCELED, []));
        inTime := true;
      }
      log := log + [if failed then CancelFailed(errno) else Cancelled(inTime)];
    }

    /**
     * Reaps the ended operation.  Minus one is the operation's own failure, or, for
     * an operation that succeeded, a failure of the call, perhaps without an errno.
     */
    method AioReturn() returns (r: int, errno: nat)
      requires Pending() && phase.Ended?
      modifies this`phase, this`buffer, this`script, this`log, this`returnCalls
      ensures phase == Reaped(old(phase).ending) && phase.ending.data <= buffer && |buffer| == |old(buffer)|
      ensures returnCalls == old(returnCalls) + 1
      ensures var status, count := old(phase).ending.status, |old(phase).ending.data|;
              if status != 0 then r == -1 && errno == status && log == old(log) + [Returned(status, count)]
              else if r == -1 then log == old(log) + [ReturnFailed(if errno > 0 then errno else EIO)]
              else r == count && log == old(log) + [Returned(status, count)]
    {
      var fails, cancels := Advance();
      returnCalls := returnCalls + 1;
      if phase.ending.status == 0 && fails.Some? {
        r, errno := -1, fails.value;
        log := log + [ReturnFailed(if errno > 0 then errno else EIO)];
      } else {
        r, errno := if phase.ending.status == 0 then |phase.ending.data| else -1, phase.ending.status;
        log := log + [Returned(phase.ending.status, |phase.ending.data|)];
      }
      phase := Reaped(phase.ending);
    }

    /** Lines 43-46: suspend, repeated while it is interrupted. */
    method SuspendUntilWoken(ghost before: seq<Call>, ghost soFar: seq<Call>)
      returns (failed: bool, errno: Errno, ghost calls: seq<Call>)
      requires Pending() && log == before + soFar && AtSuspend(soFar) && FirstFailure(soFar).None?
      modifies this`phase, this`buffer, this`script, this`log
      ensures Pending() && |buffer| == |old(buffer)| && (old(phase).Ended? ==> phase == old(phase))
      ensures |script| < |old(script)| || (script == [] && phase.Ended?)
      ensures log == before + calls && FirstFailure(calls) == if failed then Some(errno) else None
      ensures if failed then Waits(calls, WaitFailed(errno)) else AtQuery(calls)
    {
      calls := soFar;
      while true
        invariant Pending() && |buffer| == |old(buffer)| && (old(phase).Ended? ==> phase == old(phase))
        invariant log == before + calls && AtSuspend(calls) && FirstFailure(calls).None?
        invariant |script| <= |old(script)|
        decreases |script|
      {
        failed, errno := AioSuspend();
        ghost var c := if failed then SuspendFailed(errno) else Suspended;
        FailureOfSnoc(calls, c);
        assert log == before + (calls + [c]);
        assert (calls + [c])[..|calls|] == calls;
        calls := calls + [c];
        if !(failed && errno == EINTR) {
          return;
        }
      }
    }

    /**
     * Lines 30-51.  The status of the ended operation, or the one failure; the calls
     * are queries with a suspension after each that finds the operation in progress.
     */
    method WaitUntilComplete() returns (failed: bool, status: nat, errno: Errno, ghost calls: seq<Call>)
      requires Pending()
      modifies this`phase, this`buffer, this`script, this`log
      ensures Pending() && |buffer| == |old(buffer)| && (old(phase).Ended? ==> phase == old(phase))
      ensures !failed ==> phase.Ended? && status == phase.ending.status
      ensures log == old(log) + calls && Waits(calls, if failed then WaitFailed(errno) else Completed(status))
      ensures FirstFailure(calls) == if failed then Some(errno) else None
    {
      status, errno, calls := 0, EIO, [];
      while true
        invariant Pending() && |buffer| == |old(buffer)| && (old(phase).Ended? ==> phase == old(phase))
        invariant log == old(log) + calls && AtQuery(calls) && FirstFailure(calls).None?
        decreases |script|, phase.InProgress?
      {
        var current;
        current, errno := AioError();
        ghost var c := if current == -1 then QueryFailed(errno) else Queried(current);
        FailureOfSnoc(calls, c);
        assert log == old(log) + (calls + [c]);
        assert (calls + [c])[..|calls|] == calls;
        calls := calls + [c];
        if current < 0 {
          return true, status, errno, calls;
        }
        if current != EINPROGRESS {
          return false, current, errno, calls;
        }
        var failedSuspend;
        failedSuspend, errno, calls := SuspendUntilWoken(old(log), calls);
        if failedSuspend {
          return true, status, errno, calls;
        }
      }
    }

    /** Lines 55-62: cancel, if and only if the operation is found in progress. */
    method QueryAndCancel() returns (firstError: nat, ghost query: Call, ghost cancel: seq<Call>)
      requires Pending()
      modifies this`phase, this`buffer, this`script, this`log
      ensures Pending() && (old(phase).Ended? ==> phase == old(phase)) && |buffer| == |old(buffer)|
      ensures log == old(log) + ([query] + cancel) && Begins(query, cancel)
      ensures FirstFailure([query] + cancel) == if firstError != 0 then Some(firstError) else None
      ensures cancel == [Cancelled(true)] ==> phase == Ended(Result(ECANCELED, []))
    {
      firstError, cancel := 0, [];
      var status, errno := AioError();
      query := if status == -1 then QueryFailed(errno) else Queried(status);
      FailureOfOne(query);
      if status < 0 {
        firstError := errno;
      } else if status == EINPROGRESS {
        var failed;
        ghost var inTime;
        failed, errno, inTime := AioCancel();
        cancel := [if failed then CancelFailed(errno) else Cancelled(inTime)];
        FailureOfOne(cancel[0]);
        if failed {
          firstError := errno;
        }
      }
      FailureOfBoth([query], cancel);
    }

    /** Lines 64-74: wait, and reap if and only if the wait succeeded; earlier is an error from before. */
    method WaitAndReap(earlier: nat)
      returns (firstError: nat, ghost wait: seq<Call>, ghost result: WaitResult, ghost reap: seq<Call>)
      requires Pending()
      modifies this`phase, this`buffer, this`script, this`log, this`returnCalls
      ensures log == old(log) + (wait + reap) && Waits(wait, result) && Reaps(result, reap)
      ensures firstError == if earlier != 0 then earlier else ErrorOf(FirstFailure(wait + reap))
      ensures if result.Completed? then phase.Reaped? && returnCalls == old(returnCalls) + 1
              else Pending() && returnCalls == old(returnCalls) && firstError != 0
      ensures result.Completed? ==> result.status == phase.ending.status
      ensures old(phase).Ended? && result.Completed? ==> phase == Reaped(old(phase).ending)
    {
      firstError, reap := earlier, [];
      var failed, endStatus, errno;
      failed, endStatus, errno, wait := WaitUntilComplete();
      result := if failed then WaitFailed(errno) else Completed(endStatus);
      assert wait + [] == wait;
      if failed {
        if firstError == 0 {
          firstError := errno;
        }
      } else {
        var ignored, returnErrno := AioReturn();
        reap := [if endStatus == 0 && ignored == -1 then ReturnFailed(if returnErrno > 0 then returnErrno else EIO)
                 else Returned(endStatus, |phase.ending.data|)];
        FailureOfSnoc(wait, reap[0]);
        if ignored < 0 && endStatus == 0 && firstError == 0 {
          firstError := if returnErrno != 0 then returnErrno else EIO;
        }
      }
    }

    /**
     * Lines 53-81.  Cancels, waits and reaps as it should; the error is the earliest
     * failure of its calls, so that it succeeds exactly when none of them failed,
     * however the operation itself ended.  A request cancelled in time and waited
     * for is reaped as cancelled.
     */
    method CancelAndReap() returns (error: Option<Errno>, ghost calls: Cleanup)
      requires Pending()
      modifies this`phase, this`buffer, this`script, this`log, this`returnCalls
      ensures log == old(log) + CallsOf(calls) && Proper(calls)
      ensures error == FirstFailure(CallsOf(calls))
      ensures if calls.result.Completed? then phase.Reaped? && returnCalls == old(returnCalls) + 1
              else Pending() && returnCalls == old(returnCalls) && error.Some?
      ensures calls.result.Completed? ==> calls.result.status == phase.ending.status
      ensures old(phase).Ended? && calls.result.Completed? ==> phase == Reaped(old(phase).ending)
      ensures calls.cancel == [Cancelled(true)] && calls.result.Completed? ==> phase == Reaped(Result(ECANCELED, []))
    {
      var firstError;
      ghost var query, cancel, wait, result, reap;
      firstError, query, cancel := QueryAndCancel();
      firstError, wait, result, reap := WaitAndReap(firstError);
      calls := Cleanup(query, cancel, wait, result, reap);
      CleanupParts(calls, old(log));
      return if firstError != 0 then Some(firstError) else None, calls;
    }

    /**
     * main: setupOk stands for creating, unlinking and filling the file, submitOk
     * and closeOk for aio_read and close.
     *
     * The calls are those of a first wait, and then either one aio_return, if the
     * operation has succeeded, or a cleanup; nothing is called after the close.  The
     * request is reaped exactly once if the last wait succeeded, and never otherwise.
     * The program succeeds exactly when nothing failed and the whole payload arrived.
     */
    method Run(setupOk: bool, submitOk: bool, payload: seq<Byte>, closeOk: bool)
      returns (success: bool, ghost wait: seq<Call>, ghost result: WaitResult, ghost cleanup: Option<Cleanup>)
      requires phase == Idle && fdOpen && returnCalls == 0 && log == []
      requires |buffer| == |payload|
      modifies this
      ensures !fdOpen
      ensures !(setupOk && submitOk) ==> phase == Idle && log == [] && returnCalls == 0 && !success
      ensures setupOk && submitOk ==> Waits(wait, result)
      ensures setupOk && submitOk && result == Completed(0) ==>
                && cleanup.None? && phase.Reaped? && returnCalls == 1
                && |log| == |wait| + 1 && log[..|wait|] == wait
                && (log[|wait|].Returned? || log[|wait|].ReturnFailed?)
      ensures setupOk && submitOk && result != Completed(0) ==>
                && cleanup.Some? && Proper(cleanup.value)
                && log == wait + CallsOf(cleanup.value)
                && returnCalls == (if cleanup.value.result.Completed? then 1 else 0)
                && (phase.Reaped? <==> cleanup.value.result.Completed?)
                && (result.Completed? && cleanup.value.result.Completed? ==> cleanup.value.result == result)
      ensures success <==>
                && setupOk && submitOk && closeOk
                && FirstFailure(log).None? && phase == Reaped(Result(0, payload))
      ensures success ==> buffer == payload
    {
      success, wait, result, cleanup := false, [], Completed(0), None;
      var pending := false;
      if setupOk && submitOk {
        phase := InProgress;
        pending := true;
        var failed, status, errno;
        failed, status, errno, wait := WaitUntilComplete();
        result := if failed then WaitFailed(errno) else Completed(status);
        assert log == wait;
        if !failed && status == 0 {
          var received;
          var returnErrno;
          received, returnErrno := AioReturn();
          pending := false;
          success := received == |payload| && buffer == payload;
          ghost var c := log[|wait|];
          assert log == wait + [c];
          FailureOfSnoc(wait, c);
        }
      }
      if pending {
        var error;
        ghost var calls;
        error, calls := CancelAndReap();
        cleanup := Some(calls);
        FailureOfBoth(wait, CallsOf(calls));
        if error.Some? {
          success := false;
        }
      }
      fdOpen := false;
      if !closeOk {
        success := false;
      }
    }
  }
}
