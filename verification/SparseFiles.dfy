/**
 * experiments/20_sparse_files: write a head and a far tail, and compare the
 * extents that SEEK_DATA and SEEK_HOLE report with what was written.
 *
 * A file is the map of its bytes that count as data; the written bytes do, the
 * filesystem decides about the rest.  Queries answer from that map, with a hole at
 * the end of the file, or fail.
 */
module SparseFiles {

  import opened Os

  datatype Whence = SeekData | SeekHole

  datatype Verdict = Accept | Skip | Reject | Error

  /** The first offset from there on that is data, or is not; the size if there is none. */
  function Next(d: seq<bool>, from: nat, data: bool): (p: nat)
    requires from <= |d|
    ensures from <= p <= |d| && (p < |d| ==> d[p] == data)
    ensures forall i :: from <= i < p ==> d[i] != data
    decreases |d| - from
  {
    if from == |d| || d[from] == data then from else Next(d, from + 1, data)
  }

  class File {
    const data: seq<bool>
    // Which of the coming queries fail; queries beyond the script succeed.
    var script: seq<Option<Errno>>

    constructor (data: seq<bool>, script: seq<Option<Errno>>)
      ensures this.data == data && this.script == script
    {
      this.data, this.script := data, script;
    }

    /** lseek: minus one and errno, or the offset found. */
    method Seek(from: int, whence: Whence) returns (r: int, errno: Errno)
      requires 0 <= from
      modifies this`script
      ensures script == if old(script) == [] then [] else old(script)[1..]
      ensures NextFails(old(script)).Some? ==> r == -1 && errno == NextFails(old(script)).value
      ensures NextFails(old(script)).None? && from < |data| ==>
                var p := Next(data, from, whence.SeekData?);
                if whence.SeekData? && p == |data| then r == -1 && errno == ENXIO else r == p
      ensures NextFails(old(script)).None? && |data| <= from ==> r == -1 && errno == ENXIO
    {
      var fails := NextFails(script);
      script := if script == [] then [] else script[1..];
      if fails.Some? {
        return -1, fails.value;
      }
      if |data| <= from {
        return -1, ENXIO;
      }
      var p := from;
      while p < |data| && data[p] != whence.SeekData?
        invariant from <= p <= |data|
        invariant Next(data, from, whence.SeekData?) == Next(data, p, whence.SeekData?)
      {
        p := p + 1;
      }
      return if whence.SeekData? && p == |data| then -1 else p, ENXIO;
    }
  }

  function NextFails(script: seq<Option<Errno>>): Option<Errno> {
    if script == [] then None else script[0]
  }

  predicate ExtentQueryUnsupported(e: Errno) {
    e == EINVAL || e == ENOTSUP || e == EOPNOTSUPP
  }

  /** Query k, counted from zero, failed with e: the check is skipped, or it is an error. */
  predicate Tolerated(k: nat, e: Errno) {
    ExtentQueryUnsupported(e) || (k == 2 && e == ENXIO)
  }

  /** The first failure among queries k to n, if the script has one. */
  function FirstFailure(script: seq<Option<Errno>>, k: nat, n: nat): Option<bool>
    decreases n - k
  {
    if n <= k then None
    else if NextFails(script).Some? then Some(Tolerated(k, NextFails(script).value))
    else FirstFailure(if script == [] then [] else script[1..], k + 1, n)
  }

  class Extents {
    var firstData: int
    var firstHole: int
    var secondData: int
    var endHole: int

    constructor ()
      ensures firstData == firstHole == secondData == endHole == 0
    {
      firstData, firstHole, secondData, endHole := 0, 0, 0, 0;
    }
  }

  /** The head at 0 and the tail at its offset are data, and nothing was written behind the tail. */
  predicate Written(d: seq<bool>, head: nat, tailOffset: nat, tail: nat) {
    && 0 < head <= tailOffset && 0 < tail && |d| == tailOffset + tail
    && (forall i :: 0 <= i < head ==> d[i])
    && (forall i :: tailOffset <= i < |d| ==> d[i])
  }

  predicate HasHole(d: seq<bool>) {
    exists i :: 0 <= i < |d| && !d[i]
  }

  /** A third run of data: a hole, data behind it, and a hole behind that. */
  predicate ThreeRuns(d: seq<bool>) {
    exists i, j, k :: 0 <= i < j < k < |d| && !d[i] && d[j] && !d[k]
  }

  /** Data is exactly what lies before a and from b on. */
  predicate TwoRuns(d: seq<bool>, a: nat, b: nat) {
    a < b <= |d| && forall i :: 0 <= i < |d| ==> (d[i] <==> i < a || b <= i)
  }

  /** The specified verdict, by the runs of data and the first query that fails. */
  function Judge(d: seq<bool>, script: seq<Option<Errno>>): Verdict {
    match FirstFailure(script, 0, if HasHole(d) then 4 else 2)
    case Some(tolerated) => if tolerated then Skip else Error
    case None => if !HasHole(d) then Skip else if ThreeRuns(d) then Reject else Accept
  }

  /** Lines 47-57. */
  method QueryExtents(file: File, found: Extents) returns (r: int)
    requires |file.data| > 0 && file.data[0]
    modifies file`script, found
    ensures match FirstFailure(old(file.script), 0, 2)
            case Some(tolerated) => r == if tolerated then 0 else -1
            case None => r == 1 && found.firstData == 0 && found.firstHole == Next(file.data, 0, false)
    ensures r == 1 ==> forall n :: 2 <= n ==> FirstFailure(old(file.script), 0, n) == FirstFailure(file.script, 2, n)
  {
    ghost var s0 := file.script;
    var errno;
    found.firstData, errno := file.Seek(0, SeekData);
    if found.firstData < 0 {
      return if ExtentQueryUnsupported(errno) then 0 else -1;
    }
    ghost var s1 := file.script;
    assert forall n :: 1 <= n ==> FirstFailure(s0, 0, n) == FirstFailure(s1, 1, n);
    found.firstHole, errno := file.Seek(found.firstData, SeekHole);
    if found.firstHole < 0 {
      return if ExtentQueryUnsupported(errno) then 0 else -1;
    }
    return 1;
  }

  /** Lines 61-74. */
  method QuerySecondExtent(file: File, fileSize: int, found: Extents) returns (r: int)
    requires fileSize == |file.data| && found.firstData == 0 && 0 <= found.firstHole <= fileSize
    requires found.firstHole < fileSize ==> file.data[fileSize - 1]
    modifies file`script, found
    ensures found.firstData == old(found.firstData) && found.firstHole == old(found.firstHole)
    ensures found.firstHole == fileSize ==> r == 0
    ensures found.firstHole < fileSize ==>
              match FirstFailure(old(file.script), 2, 4)
              case Some(tolerated) => r == if tolerated then 0 else -1
              case None =>
                && r == 1
                && found.secondData == Next(file.data, found.firstHole, true)
                && found.secondData < fileSize
                && found.endHole == Next(file.data, found.secondData, false)
  {
    if found.firstData != 0 || found.firstHole >= fileSize {
      return 0;
    }
    ghost var s2 := file.script;
    var errno;
    found.secondData, errno := file.Seek(found.firstHole, SeekData);
    if found.secondData < 0 {
      return if errno == ENXIO || ExtentQueryUnsupported(errno) then 0 else -1;
    }
    ghost var s3 := file.script;
    assert FirstFailure(s2, 2, 4) == FirstFailure(s3, 3, 4);
    found.endHole, errno := file.Seek(found.secondData, SeekHole);
    if found.endHole < 0 {
      return if ExtentQueryUnsupported(errno) then 0 else -1;
    }
    return 1;
  }

  /** The test of lines 135-137. */
  predicate Unexpected(firstHole: int, secondData: int, endHole: int, tailOffset: int, size: int) {
    || firstHole <= 0 || firstHole >= tailOffset
    || secondData < firstHole || secondData > tailOffset
    || endHole != size
  }

  /** What conforming answers say about the file, and that the test finds out exactly a third run. */
  lemma AnswersDecide(d: seq<bool>, head: nat, tailOffset: nat, tail: nat)
    requires Written(d, head, tailOffset, tail)
    ensures HasHole(d) <==> Next(d, 0, false) < |d|
    ensures HasHole(d) ==>
              var firstHole := Next(d, 0, false);
              var secondData := Next(d, firstHole, true);
              var endHole := Next(d, secondData, false);
              && secondData < |d|
              && (Unexpected(firstHole, secondData, endHole, tailOffset, |d|) <==> ThreeRuns(d))
              && (ThreeRuns(d) <==> exists k :: secondData <= k < |d| && !d[k])
              && (!ThreeRuns(d) ==> TwoRuns(d, firstHole, secondData) && head <= firstHole && secondData <= tailOffset)
  {
    if HasHole(d) {
      var firstHole := Next(d, 0, false);
      var secondData := Next(d, firstHole, true);
      assert !d[firstHole] && firstHole < tailOffset;
      assert d[tailOffset];
      var endHole := Next(d, secondData, false);
      if endHole < |d| {
        assert !d[firstHole] && d[secondData] && !d[endHole];
      }
    }
  }

  /**
   * Lines 116-142.  The verdict is the specified one, whatever fails; an accepted
   * file has exactly the two reported runs of data, which cover all that was written.
   */
  method CheckExtents(file: File, head: nat, tailOffset: nat, tail: nat, found: Extents) returns (verdict: Verdict)
    requires Written(file.data, head, tailOffset, tail)
    modifies file`script, found
    ensures verdict == Judge(file.data, old(file.script))
    ensures verdict == Accept ==>
              && found.firstData == 0 && head <= found.firstHole < found.secondData <= tailOffset
              && found.endHole == tailOffset + tail
              && TwoRuns(file.data, found.firstHole, found.secondData)
  {
    AnswersDecide(file.data, head, tailOffset, tail);
    FailuresJoin(file.script);
    var size := tailOffset + tail;
    var extentResult := QueryExtents(file, found);
    if extentResult < 0 {
      return Error;
    }
    var detailResult := 0;
    if extentResult == 1 {
      detailResult := QuerySecondExtent(file, size, found);
    }
    if detailResult < 0 {
      return Error;
    }
    if extentResult == 0 || detailResult == 0 {
      return Skip;
    }
    if Unexpected(found.firstHole, found.secondData, found.endHole, tailOffset, size) {
      return Reject;
    }
    return Accept;
  }

  /** A failure among the first two queries is the first one among all four. */
  lemma FailuresJoin(script: seq<Option<Errno>>)
    ensures FirstFailure(script, 0, 2).Some? ==> FirstFailure(script, 0, 4) == FirstFailure(script, 0, 2)
  {
    var s1 := if script == [] then [] else script[1..];
    assert FirstFailure(s1, 1, 2).Some? ==> FirstFailure(s1, 1, 4) == FirstFailure(s1, 1, 2);
  }

  /**
   * Without failures: accepted exactly when data is two runs, skipped exactly when
   * it is one, rejected exactly when it is more.
   */
  lemma JudgeCountsRuns(d: seq<bool>, head: nat, tailOffset: nat, tail: nat)
    requires Written(d, head, tailOffset, tail)
    ensures Judge(d, []) == Accept <==>
              exists a: nat, b: nat :: head <= a && b <= tailOffset && TwoRuns(d, a, b)
    ensures Judge(d, []) == Skip <==> forall i :: 0 <= i < |d| ==> d[i]
    ensures Judge(d, []) == Reject <==> ThreeRuns(d)
  {
    AnswersDecide(d, head, tailOffset, tail);
    assert FirstFailure([], 0, 2) == FirstFailure([], 1, 2) == FirstFailure([], 2, 2) == None;
    assert FirstFailure([], 0, 4) == FirstFailure([], 1, 4) == FirstFailure([], 2, 4) == FirstFailure([], 3, 4) == None;
    if a: nat, b: nat :| head <= a && b <= tailOffset && TwoRuns(d, a, b) {
      assert !d[a];
    }
  }

  /**
   * Failing queries only ever turn the verdict into a skip or an error; they never
   * accept a file that would be rejected, nor reject one that would be accepted.
   */
  lemma FailuresNeverDecide(d: seq<bool>, script: seq<Option<Errno>>)
    ensures Judge(d, script) == Accept || Judge(d, script) == Reject ==> Judge(d, script) == Judge(d, [])
    ensures Judge(d, script) == Skip ==>
              !HasHole(d) || exists e :: e in script && e.Some? && (ExtentQueryUnsupported(e.value) || e.value == ENXIO)
  {
    assert FirstFailure([], 0, 2) == FirstFailure([], 1, 2) == FirstFailure([], 2, 2) == None;
    assert FirstFailure([], 0, 4) == FirstFailure([], 1, 4) == FirstFailure([], 2, 4) == FirstFailure([], 3, 4) == None;
    FailureIsInScript(script, 0, if HasHole(d) then 4 else 2);
  }

  lemma {:induction false} FailureIsInScript(script: seq<Option<Errno>>, k: nat, n: nat)
    ensures FirstFailure(script, k, n) == Some(true) ==>
              exists e :: e in script && e.Some? && (ExtentQueryUnsupported(e.value) || e.value == ENXIO)
    decreases n - k
  {
    if k < n && NextFails(script).None? && script != [] {
      FailureIsInScript(script[1..], k + 1, n);
    } else if k < n && NextFails(script).Some? {
      assert script[0] in script;
    } else if k < n {
      FailureIsInScript([], k + 1, n);
    }
  }

  /** The queries before k succeed, and query k fails with e. */
  predicate FailsFirstAt(script: seq<Option<Errno>>, k: nat, e: Errno) {
    k < |script| && script[k] == Some(e) && forall i :: 0 <= i < k ==> script[i].None?
  }

  lemma {:induction false} FirstFailureAt(script: seq<Option<Errno>>, k: nat, e: Errno, from: nat, n: nat)
    requires FailsFirstAt(script, k, e)
    ensures FirstFailure(script, from, n) == if from + k < n then Some(Tolerated(from + k, e)) else None
    decreases k
  {
    if k == 0 {
    } else if from < n {
      FirstFailureAt(script[1..], k - 1, e, from + 1, n);
    }
  }

  /**
   * The table of errors: two numbers are tolerated at every query, a third only at
   * the query for the second run; the other two queries are made only if there is a
   * hole.
   */
  lemma ErrnoTable(d: seq<bool>, script: seq<Option<Errno>>, k: nat, e: Errno)
    requires FailsFirstAt(script, k, e) && k < if HasHole(d) then 4 else 2
    ensures Judge(d, script) == if e in {22, 95} || (k == 2 && e == 6) then Skip else Error
  {
    FirstFailureAt(script, k, e, 0, if HasHole(d) then 4 else 2);
  }

  predicate InRuns(i: int, firstHole: int, secondData: int, endHole: int) {
    0 <= i < firstHole || secondData <= i < endHole
  }

  /**
   * The test, told by the two runs: the first holds the first byte but does not
   * reach the tail's predecessor, the second starts behind it, at the latest where
   * the tail starts, and ends with the file.
   */
  lemma TestPassesIff(firstHole: int, secondData: int, endHole: int, tailOffset: nat, tail: nat)
    requires 0 < tailOffset && 0 < tail
    ensures !Unexpected(firstHole, secondData, endHole, tailOffset, tailOffset + tail) <==>
              && InRuns(0, firstHole, 0, 0) && !InRuns(tailOffset - 1, firstHole, 0, 0)
              && firstHole <= secondData && InRuns(tailOffset, 0, secondData, endHole)
              && InRuns(tailOffset + tail - 1, 0, secondData, endHole)
              && !InRuns(tailOffset + tail, 0, secondData, endHole)
  {
  }

  /**
   * The test alone, on any answers whatever: the two runs it lets pass cover what
   * was written if and only if the first reaches over the whole head, or up to the
   * second.
   */
  lemma TestCoversIff(firstHole: int, secondData: int, endHole: int, head: nat, tailOffset: nat, tail: nat)
    requires 0 < head <= tailOffset && 0 < tail
    requires !Unexpected(firstHole, secondData, endHole, tailOffset, tailOffset + tail)
    ensures (forall i :: 0 <= i < head || tailOffset <= i < tailOffset + tail ==>
               InRuns(i, firstHole, secondData, endHole))
            <==> head <= firstHole || secondData == firstHole
  {
    if firstHole < head && firstHole < secondData {
      assert !InRuns(firstHole, firstHole, secondData, endHole);
    }
  }

  /** main: success is a file of the right size that is sparse, judged fit or not judged, and closed and unlinked. */
  method Run(file: File, head: nat, tailOffset: nat, tail: nat,
             writesOk: bool, statOk: bool, blocks: int, closeOk: bool, unlinkOk: bool) returns (success: bool)
    requires writesOk ==> 0 < head <= tailOffset && 0 < tail
    requires writesOk && |file.data| == tailOffset + tail ==> Written(file.data, head, tailOffset, tail)
    modifies file`script
    ensures success <==>
              && writesOk && statOk && closeOk && unlinkOk
              && |file.data| == tailOffset + tail && 0 <= blocks && blocks * 512 < |file.data|
              && (Judge(file.data, old(file.script)) == Accept || Judge(file.data, old(file.script)) == Skip)
  {
    success := false;
    if writesOk && statOk && |file.data| == tailOffset + tail && 0 <= blocks && blocks * 512 < |file.data| {
      var found := new Extents();
      var verdict := CheckExtents(file, head, tailOffset, tail, found);
      success := verdict == Accept || verdict == Skip;
    }
    if !closeOk || !unlinkOk {
      success := false;
    }
  }
}
