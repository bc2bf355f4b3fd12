/**
 * experiments/01_file_io: positioned I/O and scatter/gather I/O that survives
 * short transfers and interruptions.
 *
 * Buffers live in one memory array; an Iovec names a stretch of it.  The kernel
 * is class File: each system call obeys the next entry of a finite list of
 * answers, and does the whole transfer once the list is used up.
 */
module FileIo {

  import opened Bytes
  import opened Os

  datatype Iovec = Iovec(base: nat, len: nat)

  function Min(a: nat, b: nat): nat { if a <= b then a else b }

  // ------------------------------------------------------------ specification

  /** bytes with the one at position at replaced, or added; a gap before it reads as zeros. */
  function Put(bytes: seq<Byte>, at: nat, b: Byte): (r: seq<Byte>)
    ensures |r| == if at < |bytes| then |bytes| else at + 1
    ensures forall i :: 0 <= i < |r| ==> r[i] == if i == at then b else if i < |bytes| then bytes[i] else 0
  {
    if at < |bytes| then bytes[at := b] else bytes + seq(at - |bytes|, _ => 0) + [b]
  }

  /** bytes after data has been written from position at on. */
  function Overlay(bytes: seq<Byte>, at: nat, data: seq<Byte>): (r: seq<Byte>)
    ensures |r| == if data == [] || at + |data| < |bytes| then |bytes| else at + |data|
    decreases |data|
  {
    if data == [] then bytes else Overlay(Put(bytes, at, data[0]), at + 1, data[1..])
  }

  /** The written range holds data, and nothing else has changed but a gap filled with zeros. */
  lemma {:induction false} OverlayAt(bytes: seq<Byte>, at: nat, data: seq<Byte>, i: nat)
    requires i < |Overlay(bytes, at, data)|
    ensures Overlay(bytes, at, data)[i] ==
            if at <= i < at + |data| then data[i - at] else if i < |bytes| then bytes[i] else 0
    decreases |data|
  {
    if data == [] {
      assert Overlay(bytes, at, data) == bytes;
    } else {
      OverlayAt(Put(bytes, at, data[0]), at + 1, data[1..], i);
    }
  }

  lemma {:induction false} OverlayExtends(bytes: seq<Byte>, at: nat, x: seq<Byte>, y: seq<Byte>)
    ensures Overlay(Overlay(bytes, at, x), at + |x|, y) == Overlay(bytes, at, x + y)
    decreases |x|
  {
    if x == [] {
      assert x + y == y;
    } else {
      assert (x + y)[1..] == x[1..] + y;
      OverlayExtends(Put(bytes, at, x[0]), at + 1, x[1..], y);
    }
  }

  lemma {:induction false} OverlayAppends(bytes: seq<Byte>, data: seq<Byte>)
    ensures Overlay(bytes, |bytes|, data) == bytes + data
    decreases |data|
  {
    if data == [] {
      assert bytes + data == bytes;
    } else {
      assert Put(bytes, |bytes|, data[0]) == bytes + [data[0]];
      OverlayAppends(bytes + [data[0]], data[1..]);
      assert bytes + [data[0]] + data[1..] == bytes + data;
    }
  }

  /** The memory cells that the vectors name, in transfer order. */
  function Cells(vs: seq<Iovec>): seq<nat> {
    if vs == [] then [] else seq(vs[0].len, i requires 0 <= i => vs[0].base + i) + Cells(vs[1..])
  }

  predicate InMemory(cells: seq<nat>, size: nat) {
    forall i :: 0 <= i < |cells| ==> cells[i] < size
  }

  function Total(vs: seq<Iovec>): nat {
    |Cells(vs)|
  }

  /** What the cells hold. */
  function Read(mem: seq<Byte>, cells: seq<nat>): (r: seq<Byte>)
    requires InMemory(cells, |mem|)
    ensures |r| == |cells|
  {
    if cells == [] then [] else [mem[cells[0]]] + Read(mem, cells[1..])
  }

  /** Memory after data has been dealt out to the cells from the first on. */
  function Fill(mem: seq<Byte>, cells: seq<nat>, data: seq<Byte>): (r: seq<Byte>)
    requires InMemory(cells, |mem|)
    ensures |r| == |mem|
    decreases |cells|
  {
    if cells == [] || data == [] then mem
    else Fill(mem[cells[0] := data[0]], cells[1..], data[1..])
  }

  /** The vectors that remain after the first k bytes have been transferred. */
  function Advance(vs: seq<Iovec>, k: nat): seq<Iovec> {
    if k == 0 || vs == [] then vs
    else if k >= vs[0].len then Advance(vs[1..], k - vs[0].len)
    else [Iovec(vs[0].base + k, vs[0].len - k)] + vs[1..]
  }

  lemma {:induction false} AdvanceDropsCells(vs: seq<Iovec>, k: nat)
    requires k <= Total(vs)
    ensures Cells(Advance(vs, k)) == Cells(vs)[k..]
  {
    if k == 0 {
      assert Advance(vs, k) == vs;
    } else if k >= vs[0].len {
      AdvanceDropsCells(vs[1..], k - vs[0].len);
      assert Cells(vs)[k..] == Cells(vs[1..])[k - vs[0].len..];
    } else {
      var v := Iovec(vs[0].base + k, vs[0].len - k);
      assert Advance(vs, k) == [v] + vs[1..] && ([v] + vs[1..])[1..] == vs[1..];
      assert Cells(vs)[k..] == Cells(vs)[k..vs[0].len] + Cells(vs[1..]);
      assert Cells(vs)[k..vs[0].len] == seq(v.len, i requires 0 <= i => v.base + i);
    }
  }

  /** Filling in two goes, from where the first one stopped, is filling at once. */
  lemma {:induction false} FillResumes(mem: seq<Byte>, cells: seq<nat>, a: seq<Byte>, b: seq<Byte>)
    requires InMemory(cells, |mem|) && |a| <= |cells|
    ensures Fill(Fill(mem, cells, a), cells[|a|..], b) == Fill(mem, cells, a + b)
    decreases |a|
  {
    if a == [] {
      assert a + b == b;
    } else {
      assert (a + b)[1..] == a[1..] + b;
      assert cells[1..][|a[1..]|..] == cells[|a|..];
      FillResumes(mem[cells[0] := a[0]], cells[1..], a[1..], b);
    }
  }

  predicate Distinct(cells: seq<nat>) {
    forall i, j :: 0 <= i < j < |cells| ==> cells[i] != cells[j]
  }

  lemma {:induction false} FillFrame(mem: seq<Byte>, cells: seq<nat>, data: seq<Byte>, c: nat)
    requires InMemory(cells, |mem|) && c < |mem| && c !in cells
    ensures Fill(mem, cells, data)[c] == mem[c]
    decreases |cells|
  {
    if cells == [] || data == [] {
    } else {
      FillFrame(mem[cells[0] := data[0]], cells[1..], data[1..], c);
    }
  }

  /** Reading distinct cells gives back what was filled into them. */
  lemma {:induction false} ReadAfterFill(mem: seq<Byte>, cells: seq<nat>, data: seq<Byte>)
    requires InMemory(cells, |mem|) && Distinct(cells) && |data| == |cells|
    ensures Read(Fill(mem, cells, data), cells) == data
    decreases |cells|
  {
    if cells == [] {
    } else {
      var mem' := mem[cells[0] := data[0]];
      FillFrame(mem', cells[1..], data[1..], cells[0]);
      ReadAfterFill(mem', cells[1..], data[1..]);
      assert Read(Fill(mem, cells, data), cells)[1..] == data[1..];
    }
  }

  // --------------------------------------------------------------- the kernel

  datatype Answer = Moves(limit: nat) | Fails(errno: Errno)

  /** Short counts and interruptions, but no error and no refusal to make progress. */
  predicate Benign(answers: seq<Answer>) {
    forall i :: 0 <= i < |answers| ==> BenignAnswer(answers[i])
  }

  predicate BenignAnswer(a: Answer) {
    match a
    case Moves(limit) => 0 < limit
    case Fails(e) => e == EINTR
  }

  datatype IoResult = Count(n: nat) | Error(errno: Errno)

  /** What a call that writes up to request bytes does with answer from, or beyond the last one. */
  predicate WritesAs(answers: seq<Answer>, from: nat, to: nat, request: nat, r: IoResult) {
    if from < |answers| then
      && to == from + 1
      && match answers[from]
         case Fails(e) => r == Error(e)
         case Moves(limit) => r == Count(Min(limit, request))
    else to == from && r == Count(request)
  }

  /** The same for reading; as long as there is something to read, at least one byte is. */
  predicate ReadsAs(answers: seq<Answer>, from: nat, to: nat, request: nat, available: nat, r: IoResult) {
    if from < |answers| then
      && to == from + 1
      && match answers[from]
         case Fails(e) => r == Error(e)
         case Moves(limit) => r == Count(Min(Min(if limit == 0 then 1 else limit, request), available))
    else to == from && r == Count(Min(request, available))
  }

  class File {
    var bytes: seq<Byte>
    var offset: nat
    const answers: seq<Answer>
    var next: nat
    // Which calls of lseek fail; those beyond the list succeed.
    const seekFails: seq<bool>
    var seeks: nat
    // History: how many bytes the positioned reads have delivered.
    ghost var delivered: nat

    constructor (answers: seq<Answer>, seekFails: seq<bool>)
      ensures bytes == [] && offset == 0 && this.answers == answers && next == 0
      ensures this.seekFails == seekFails && seeks == 0 && delivered == 0
    {
      bytes, offset, this.answers, next := [], 0, answers, 0;
      this.seekFails, seeks, delivered := seekFails, 0, 0;
    }

    predicate SeekFails(k: nat) {
      k < |seekFails| && seekFails[k]
    }

    predicate SeeksWell() {
      forall i :: 0 <= i < |seekFails| ==> !seekFails[i]
    }

    function Left(): nat
      reads this`next
    {
      if next <= |answers| then |answers| - next else 0
    }

    /** lseek(fd, 0, SEEK_CUR): the shared offset, or minus one. */
    method Tell() returns (r: int)
      modifies this`seeks
      ensures seeks == old(seeks) + 1 && r == if SeekFails(old(seeks)) then -1 else offset
    {
      r := if SeekFails(seeks) then -1 else offset;
      seeks := seeks + 1;
    }

    /** lseek(fd, 0, SEEK_SET). */
    method Rewind() returns (ok: bool)
      modifies this`seeks, this`offset
      ensures seeks == old(seeks) + 1 && ok == !SeekFails(old(seeks))
      ensures offset == if ok then 0 else old(offset)
    {
      ok := !SeekFails(seeks);
      seeks := seeks + 1;
      if ok {
        offset := 0;
      }
    }

    function Available(at: nat): nat
      reads this`bytes
    {
      if at <= |bytes| then |bytes| - at else 0
    }

    method NextAnswer(request: nat) returns (a: Answer)
      modifies this`next
      ensures if old(next) < |answers| then next == old(next) + 1 && a == answers[old(next)]
              else next == old(next) && a == Moves(request)
    {
      if next < |answers| {
        a := answers[next];
        next := next + 1;
      } else {
        a := Moves(request);
      }
    }

    /** Writes a prefix of the gathered bytes at the shared offset. */
    method Writev(mem: array<Byte>, vs: seq<Iovec>) returns (r: IoResult)
      requires InMemory(Cells(vs), mem.Length)
      modifies this`bytes, this`offset, this`next
      ensures WritesAs(answers, old(next), next, Total(vs), r)
      ensures r.Error? ==> bytes == old(bytes) && offset == old(offset)
      ensures r.Count? ==>
                && r.n <= Total(vs)
                && bytes == Overlay(old(bytes), old(offset), Read(mem[..], Cells(vs))[..r.n])
                && offset == old(offset) + r.n
    {
      var a := NextAnswer(Total(vs));
      match a
      case Fails(e) => r := Error(e);
      case Moves(limit) =>
        var n := Min(limit, Total(vs));
        bytes := Overlay(bytes, offset, Read(mem[..], Cells(vs))[..n]);
        offset := offset + n;
        r := Count(n);
    }

    /** Reads at the shared offset; zero bytes only at the end of the file. */
    method Readv(mem: array<Byte>, vs: seq<Iovec>) returns (r: IoResult)
      requires InMemory(Cells(vs), mem.Length) && 0 < Total(vs)
      modifies this`offset, this`next, mem
      ensures ReadsAs(answers, old(next), next, Total(vs), old(Available(offset)), r)
      ensures r.Error? ==> mem[..] == old(mem[..]) && offset == old(offset)
      ensures r.Count? ==>
                && r.n <= Total(vs) && r.n <= old(Available(offset))
                && offset == old(offset) + r.n
                && mem[..] == Fill(old(mem[..]), Cells(vs), if r.n == 0 then [] else bytes[old(offset)..offset])
    {
      var a := NextAnswer(Total(vs));
      match a
      case Fails(e) => r := Error(e);
      case Moves(limit) =>
        var n := Min(Min(if limit == 0 then 1 else limit, Total(vs)), Available(offset));
        var after := Fill(mem[..], Cells(vs), if n == 0 then [] else bytes[offset..offset + n]);
        forall i | 0 <= i < mem.Length { mem[i] := after[i]; }
        assert mem[..] == after;
        offset := offset + n;
        r := Count(n);
    }

    method Pwrite(data: seq<Byte>, at: nat) returns (r: IoResult)
      modifies this`bytes, this`next
      ensures WritesAs(answers, old(next), next, |data|, r)
      ensures r.Error? ==> bytes == old(bytes)
      ensures r.Count? ==> r.n <= |data| && bytes == Overlay(old(bytes), at, data[..r.n])
    {
      var a := NextAnswer(|data|);
      match a
      case Fails(e) => r := Error(e);
      case Moves(limit) =>
        r := Count(Min(limit, |data|));
        bytes := Overlay(bytes, at, data[..r.n]);
    }

    method Pread(buffer: array<Byte>, start: nat, length: nat, at: nat) returns (r: IoResult)
      requires start + length <= buffer.Length && 0 < length
      modifies this`next, this`delivered, buffer
      ensures ReadsAs(answers, old(next), next, length, Available(at), r)
      ensures r.Error? ==> buffer[..] == old(buffer[..]) && delivered == old(delivered)
      ensures r.Count? ==>
                && r.n <= length && r.n <= Available(at) && delivered == old(delivered) + r.n
                && forall i :: 0 <= i < buffer.Length ==>
                     buffer[i] == if start <= i < start + r.n then bytes[at + i - start] else old(buffer[i])
    {
      var a := NextAnswer(length);
      match a
      case Fails(e) => r := Error(e);
      case Moves(limit) =>
        var n := Min(Min(if limit == 0 then 1 else limit, length), Available(at));
        forall i | start <= i < start + n { buffer[i] := bytes[at + i - start]; }
        delivered := delivered + n;
        r := Count(n);
    }
  }

  // ------------------------------------------------------- which answers stop a loop

  /** An answer after which the loops give up: a hard error, or no progress in writing. */
  predicate Stops(a: Answer, writing: bool) {
    match a
    case Moves(limit) => writing && limit == 0
    case Fails(e) => e != EINTR
  }

  function ErrnoOf(a: Answer): Errno {
    if a.Fails? then a.errno else EIO
  }

  /** The answers from..to have been used, and none of them stops. */
  predicate Quiet(answers: seq<Answer>, from: nat, to: nat, writing: bool) {
    && (from < to ==> to <= |answers|) && from <= to
    && forall i :: from <= i < to ==> !Stops(answers[i], writing)
  }

  /** The answers from..to have been used, the last of them is the first that stops, and errno is its error. */
  predicate StoppedBy(answers: seq<Answer>, from: nat, to: nat, writing: bool, errno: Errno) {
    && from < to <= |answers|
    && Quiet(answers, from, to - 1, writing)
    && Stops(answers[to - 1], writing)
    && errno == ErrnoOf(answers[to - 1])
  }

  /** Why a transfer fails: an answer, or, in reading, the end of the file. */
  predicate GaveUp(answers: seq<Answer>, from: nat, to: nat, writing: bool, atEnd: bool, errno: Errno) {
    || StoppedBy(answers, from, to, writing, errno)
    || (!writing && atEnd && errno == EIO && Quiet(answers, from, to, writing))
  }

  lemma BenignNeverStops(answers: seq<Answer>, from: nat, to: nat, writing: bool, errno: Errno)
    requires Benign(answers)
    ensures !StoppedBy(answers, from, to, writing, errno)
  {
    if from < to <= |answers| {
      assert BenignAnswer(answers[to - 1]);
    }
  }

  // -------------------------------------------------------------- the program

  datatype Outcome = Done | Failed(errno: Errno)

  lemma PrefixGrows(all: seq<Byte>, k: nat, n: nat)
    requires k + n <= |all|
    ensures all[..k] + all[k..][..n] == all[..k + n]
  {
  }

  /** after is bytes with the first k bytes of data written at position at. */
  predicate WrotePrefix(bytes: seq<Byte>, at: nat, data: seq<Byte>, k: int, after: seq<Byte>) {
    0 <= k <= |data| && after == Overlay(bytes, at, data[..k])
  }

  /** after is bytes with some, but not all, of data written at position at. */
  ghost predicate WrotePart(bytes: seq<Byte>, at: nat, data: seq<Byte>, after: seq<Byte>) {
    exists k :: 0 <= k < |data| && WrotePrefix(bytes, at, data, k, after)
  }

  lemma WriteMoves(bytes: seq<Byte>, at: nat, data: seq<Byte>, k: int, n: int, middle: seq<Byte>, after: seq<Byte>)
    requires WrotePrefix(bytes, at, data, k, middle) && WrotePrefix(middle, at + k, data[k..], n, after)
    ensures WrotePrefix(bytes, at, data, k + n, after)
  {
    PrefixGrows(data, k, n);
    OverlayExtends(bytes, at, data[..k], data[k..][..n]);
  }

  /** Lines 33-34: one call, behind the done bytes already written. */
  method PwriteMore(file: File, buffer: seq<Byte>, at: nat, done: nat, ghost before: seq<Byte>)
    returns (count: IoResult)
    requires done < |buffer| && WrotePrefix(before, at, buffer, done, file.bytes)
    modifies file`bytes, file`next
    ensures WritesAs(file.answers, old(file.next), file.next, |buffer| - done, count)
    ensures WrotePrefix(before, at, buffer, if count.Count? then done + count.n else done, file.bytes)
  {
    ghost var middle := file.bytes;
    count := file.Pwrite(buffer[done..], at + done);
    if count.Count? {
      WriteMoves(before, at, buffer, done, count.n, middle, file.bytes);
    }
  }

  method PwriteAll(file: File, buffer: seq<Byte>, at: nat) returns (r: Outcome)
    modifies file`bytes, file`next
    ensures if r.Done? then Quiet(file.answers, old(file.next), file.next, true)
            else StoppedBy(file.answers, old(file.next), file.next, true, r.errno)
    ensures r.Done? ==> file.bytes == Overlay(old(file.bytes), at, buffer)
    ensures r.Failed? ==> WrotePart(old(file.bytes), at, buffer, file.bytes)
  {
    var done := 0;
    assert buffer[..0] == [];
    while done < |buffer|
      invariant 0 <= done <= |buffer|
      invariant Quiet(file.answers, old(file.next), file.next, true)
      invariant WrotePrefix(old(file.bytes), at, buffer, done, file.bytes)
      decreases |buffer| - done, file.Left()
    {
      var count := PwriteMore(file, buffer, at, done, old(file.bytes));
      if count.Count? && count.n > 0 {
        done := done + count.n;
        continue;
      }
      if count.Error? && count.errno == EINTR {
        continue;
      }
      return Failed(if count.Count? then EIO else count.errno);
    }
    assert buffer[..done] == buffer;
    return Done;
  }

  /** The first k cells of after were read from position at of the file. */
  ghost predicate ReadPrefix(after: seq<Byte>, before: seq<Byte>, bytes: seq<Byte>, at: nat, k: nat) {
    && k <= |after| == |before|
    && (0 < k ==> at + k <= |bytes|)
    && forall i :: 0 <= i < |after| ==> after[i] == if i < k then bytes[at + i] else before[i]
  }

  /** The number of bytes read, or minus one after an error other than EINTR, which is then errno. */
  method PreadFull(file: File, buffer: array<Byte>, length: nat, at: nat) returns (r: int, errno: Errno)
    requires length <= buffer.Length
    modifies file`next, file`delivered, buffer
    ensures r == -1 || r == Min(length, file.Available(at))
    ensures if r >= 0 then Quiet(file.answers, old(file.next), file.next, false)
            else StoppedBy(file.answers, old(file.next), file.next, false, errno)
    ensures r >= 0 ==> ReadPrefix(buffer[..], old(buffer[..]), file.bytes, at, r)
    ensures r >= 0 ==> file.delivered == old(file.delivered) + r
    ensures r == -1 ==>
              exists k :: 0 <= k < length && ReadPrefix(buffer[..], old(buffer[..]), file.bytes, at, k)
  {
    var done := 0;
    errno := EIO;
    while done < length
      invariant Quiet(file.answers, old(file.next), file.next, false)
      invariant 0 <= done <= length && done <= file.Available(at)
      invariant file.delivered == old(file.delivered) + done
      invariant ReadPrefix(buffer[..], old(buffer[..]), file.bytes, at, done)
      decreases length - done, file.Left()
    {
      var count := file.Pread(buffer, done, length - done, at + done);
      if count.Count? && count.n > 0 {
        done := done + count.n;
        continue;
      }
      if count.Error? && count.errno == EINTR {
        continue;
      }
      if count.Error? {
        return -1, count.errno;
      }
      return done, errno;
    }
    return done, errno;
  }

  /** Lines 75-86: move the vectors past the bytes that were transferred. */
  method AdvanceVectors(vectors: array<Iovec>, start: nat, amount: nat)
    returns (current: nat, leftover: nat)
    requires start <= vectors.Length
    modifies vectors
    ensures current <= vectors.Length
    ensures vectors[current..] == Advance(old(vectors[start..]), amount)
    ensures leftover == if amount <= Total(old(vectors[start..])) then 0 else amount - Total(old(vectors[start..]))
    ensures amount <= Total(old(vectors[start..])) ==>
              Total(vectors[current..]) == Total(old(vectors[start..])) - amount
  {
    current, leftover := start, amount;
    while leftover > 0 && current < vectors.Length
      invariant start <= current <= vectors.Length
      invariant Advance(vectors[current..], leftover) == Advance(old(vectors[start..]), amount)
      invariant leftover - Total(vectors[current..]) == amount - Total(old(vectors[start..]))
      decreases leftover, vectors.Length - current
    {
      ghost var rest := vectors[current..];
      assert rest[1..] == vectors[current + 1..];
      if leftover >= vectors[current].len {
        leftover := leftover - vectors[current].len;
        current := current + 1;
      } else {
        vectors[current] := Iovec(vectors[current].base + leftover, vectors[current].len - leftover);
        assert vectors[current..] == [vectors[current]] + rest[1..];
        leftover := 0;
      }
    }
  }

  /** What a transfer works on: memory, the cells not yet done and what they hold, the file and its offset. */
  datatype View = View(mem: seq<Byte>, cells: seq<nat>, held: seq<Byte>, bytes: seq<Byte>, offset: nat)

  /** The first of what start held has been written out, as much as the offset has advanced. */
  ghost predicate Wrote(start: View, now: View) {
    && now.mem == start.mem && now.offset <= |now.bytes|
    && WrotePrefix(start.bytes, start.offset, start.held, now.offset - start.offset, now.bytes)
  }

  /** The first k cells of start have been filled from the file. */
  ghost predicate Loaded(start: View, now: View) {
    var cells, k := start.cells, now.offset - start.offset;
    && InMemory(cells, |start.mem|)
    && 0 <= k <= |cells|
    && now.offset <= |now.bytes|
    && now.bytes == start.bytes
    && now.mem == Fill(start.mem, cells, now.bytes[start.offset..now.offset])
  }

  ghost predicate Transferred(writing: bool, start: View, now: View) {
    if writing then Wrote(start, now) else Loaded(start, now)
  }

  predicate Sound(v: View) {
    InMemory(v.cells, |v.mem|) && |v.held| == |v.cells|
  }

  /** held is what the cells hold. */
  predicate Gathered(v: View) {
    InMemory(v.cells, |v.mem|) && v.held == Read(v.mem, v.cells)
  }

  /** The vectors name exactly the cells that have not been transferred. */
  ghost predicate Progress(writing: bool, start: View, now: View) {
    && Sound(start)
    && Transferred(writing, start, now)
    && |now.mem| == |start.mem|
    && now.cells == start.cells[now.offset - start.offset..]
    && (writing ==> now.held == start.held[now.offset - start.offset..])
  }

  lemma {:induction false} ReadDrop(mem: seq<Byte>, cells: seq<nat>, k: nat)
    requires InMemory(cells, |mem|) && k <= |cells|
    ensures Read(mem, cells[k..]) == Read(mem, cells)[k..]
  {
    if k == 0 {
      assert cells[k..] == cells;
    } else {
      assert cells[k..] == cells[1..][k - 1..];
      ReadDrop(mem, cells[1..], k - 1);
    }
  }

  /** Data is conserved: what was written and what the vectors still hold make up the original. */
  lemma GatherConserves(start: View, now: View)
    requires Progress(true, start, now) && Gathered(start) && Gathered(now)
    ensures var all, k := Read(start.mem, start.cells), now.offset - start.offset;
            && 0 <= k <= |all|
            && all[..k] + Read(now.mem, now.cells) == all
            && now.bytes == Overlay(start.bytes, start.offset, all[..k])
  {
    var k := now.offset - start.offset;
    assert start.held[..k] + start.held[k..] == start.held;
  }

  lemma ReadMoves(mem: seq<Byte>, cells: seq<nat>, bytes: seq<Byte>, at: nat, k: nat, n: nat)
    requires InMemory(cells, |mem|) && k + n <= |cells| && at + k + n <= |bytes|
    ensures Fill(Fill(mem, cells, bytes[at..at + k]), cells[k..], bytes[at + k..at + k + n])
            == Fill(mem, cells, bytes[at..at + k + n])
  {
    assert bytes[at..at + k] + bytes[at + k..at + k + n] == bytes[at..at + k + n];
    FillResumes(mem, cells, bytes[at..at + k], bytes[at + k..at + k + n]);
  }

  lemma WroteMore(start: View, now: View, after: View)
    requires Progress(true, start, now) && Wrote(now, after)
    ensures Wrote(start, after)
  {
    WriteMoves(start.bytes, start.offset, start.held,
               now.offset - start.offset, after.offset - now.offset, now.bytes, after.bytes);
  }

  lemma LoadedMore(start: View, now: View, after: View)
    requires Progress(false, start, now) && Loaded(now, after)
    ensures Loaded(start, after)
  {
    var k, n := now.offset - start.offset, after.offset - now.offset;
    ReadMoves(start.mem, start.cells, now.bytes, start.offset, k, n);
  }

  lemma ProgressMoves(writing: bool, start: View, now: View, after: View)
    requires Progress(writing, start, now) && Progress(writing, now, after)
    ensures Progress(writing, start, after)
  {
    var cells, k := start.cells, now.offset - start.offset;
    assert cells[k..][after.offset - now.offset..] == cells[after.offset - start.offset..];
    if writing { WroteMore(start, now, after); } else { LoadedMore(start, now, after); }
  }

  lemma ProgressStarts(writing: bool, start: View)
    requires Sound(start) && start.offset <= |start.bytes|
    ensures Progress(writing, start, start)
  {
    assert start.held[..0] == [] && start.bytes[start.offset..start.offset] == [];
  }

  lemma ProgressStops(writing: bool, start: View, now: View)
    requires Progress(writing, start, now)
    ensures Transferred(writing, start, now.(cells := [], held := []))
    ensures now.offset + |now.cells| == start.offset + |start.cells|
    ensures InMemory(now.cells, |now.mem|) && now.offset <= |now.bytes|
  {
  }

  ghost function Seen(file: File, mem: array<Byte>, vs: seq<Iovec>): View
    reads file, mem
  {
    var cells := Cells(vs);
    View(mem[..], cells, if InMemory(cells, mem.Length) then Read(mem[..], cells) else [], file.bytes, file.offset)
  }

  lemma WritevProgresses(start: View, now: View, n: nat)
    requires Gathered(start) && Gathered(now) && n <= |start.cells| && start.offset <= |start.bytes|
    requires now.mem == start.mem && now.cells == start.cells[n..] && now.offset == start.offset + n
    requires now.bytes == Overlay(start.bytes, start.offset, start.held[..n])
    ensures Progress(true, start, now)
  {
    ReadDrop(start.mem, start.cells, n);
  }

  lemma ReadvProgresses(start: View, now: View, n: nat)
    requires Sound(start)
    requires InMemory(start.cells, |start.mem|) && n <= |start.cells| && start.offset + n <= |start.bytes|
    requires now.bytes == start.bytes && now.cells == start.cells[n..] && now.offset == start.offset + n
    requires now.mem == Fill(start.mem, start.cells, start.bytes[start.offset..start.offset + n])
    ensures Progress(false, start, now)
  {
  }

  lemma QuietThen(answers: seq<Answer>, from: nat, mid: nat, to: nat, writing: bool, atEnd: bool, errno: Errno)
    requires Quiet(answers, from, mid, writing)
    ensures Quiet(answers, mid, to, writing) ==> Quiet(answers, from, to, writing)
    ensures StoppedBy(answers, mid, to, writing, errno) ==> StoppedBy(answers, from, to, writing, errno)
    ensures GaveUp(answers, mid, to, writing, atEnd, errno) ==> GaveUp(answers, from, to, writing, atEnd, errno)
  {
  }

  method CallWritev(file: File, mem: array<Byte>, vs: seq<Iovec>) returns (count: IoResult)
    requires InMemory(Cells(vs), mem.Length) && file.offset <= |file.bytes|
    modifies file`bytes, file`offset, file`next
    ensures WritesAs(file.answers, old(file.next), file.next, Total(vs), count)
    ensures count.Error? ==> Seen(file, mem, vs) == old(Seen(file, mem, vs))
    ensures count.Count? ==>
              && count.n <= Total(vs)
              && file.offset == old(file.offset) + count.n
              && Progress(true, old(Seen(file, mem, vs)), Seen(file, mem, Advance(vs, count.n)))
  {
    ghost var start := Seen(file, mem, vs);
    count := file.Writev(mem, vs);
    if count.Count? {
      AdvanceDropsCells(vs, count.n);
      WritevProgresses(start, Seen(file, mem, Advance(vs, count.n)), count.n);
    }
  }

  method CallReadv(file: File, mem: array<Byte>, vs: seq<Iovec>) returns (count: IoResult)
    requires InMemory(Cells(vs), mem.Length) && 0 < Total(vs) && file.offset <= |file.bytes|
    modifies file`offset, file`next, mem
    ensures ReadsAs(file.answers, old(file.next), file.next, Total(vs), old(file.Available(file.offset)), count)
    ensures count.Error? ==> Seen(file, mem, vs) == old(Seen(file, mem, vs))
    ensures count.Count? ==>
              && count.n <= Total(vs)
              && file.offset == old(file.offset) + count.n
              && Progress(false, old(Seen(file, mem, vs)), Seen(file, mem, Advance(vs, count.n)))
  {
    ghost var start := Seen(file, mem, vs);
    count := file.Readv(mem, vs);
    if count.Count? {
      AdvanceDropsCells(vs, count.n);
      if count.n == 0 { assert start.bytes[start.offset..start.offset] == []; }
      ReadvProgresses(start, Seen(file, mem, Advance(vs, count.n)), count.n);
    }
  }

  /** Lines 65-66: one system call. */
  method Call(file: File, mem: array<Byte>, vs: seq<Iovec>, writing: bool) returns (count: IoResult)
    requires InMemory(Cells(vs), mem.Length) && 0 < Total(vs) && file.offset <= |file.bytes|
    modifies file`bytes, file`offset, file`next, mem
    ensures if writing then WritesAs(file.answers, old(file.next), file.next, Total(vs), count)
            else ReadsAs(file.answers, old(file.next), file.next, Total(vs), old(file.Available(file.offset)), count)
    ensures count.Error? ==> Seen(file, mem, vs) == old(Seen(file, mem, vs))
    ensures count.Count? ==>
              && count.n <= Total(vs)
              && file.offset == old(file.offset) + count.n
              && Progress(writing, old(Seen(file, mem, vs)), Seen(file, mem, Advance(vs, count.n)))
  {
    if writing {
      count := CallWritev(file, mem, vs);
    } else {
      count := CallReadv(file, mem, vs);
    }
  }

  lemma CallStops(answers: seq<Answer>, from: nat, to: nat, writing: bool, request: nat, available: nat, r: IoResult)
    requires 0 < request
    requires if writing then WritesAs(answers, from, to, request, r)
             else ReadsAs(answers, from, to, request, available, r)
    ensures match r
            case Count(n) =>
              if n > 0 then Quiet(answers, from, to, writing)
              else GaveUp(answers, from, to, writing, available == 0, EIO)
            case Error(e) =>
              if e == EINTR then Quiet(answers, from, to, writing) && from < to <= |answers|
              else StoppedBy(answers, from, to, writing, e)
  {
  }

  /** Lines 62-67: one transfer, repeated while it is interrupted. */
  method TransferOnce(file: File, mem: array<Byte>, vs: seq<Iovec>, writing: bool) returns (count: IoResult)
    requires InMemory(Cells(vs), mem.Length) && 0 < Total(vs) && file.offset <= |file.bytes|
    modifies file`bytes, file`offset, file`next, mem
    ensures match count
            case Count(n) =>
              if n > 0 then Quiet(file.answers, old(file.next), file.next, writing)
              else GaveUp(file.answers, old(file.next), file.next, writing, old(file.Available(file.offset)) == 0, EIO)
            case Error(e) => StoppedBy(file.answers, old(file.next), file.next, writing, e)
    ensures count.Error? ==> Seen(file, mem, vs) == old(Seen(file, mem, vs))
    ensures count.Count? ==>
              && count.n <= Total(vs)
              && file.offset == old(file.offset) + count.n
              && Progress(writing, old(Seen(file, mem, vs)), Seen(file, mem, Advance(vs, count.n)))
  {
    ghost var start, available := Seen(file, mem, vs), file.Available(file.offset);
    while true
      invariant Seen(file, mem, vs) == start
      invariant Quiet(file.answers, old(file.next), file.next, writing)
      decreases file.Left()
    {
      ghost var mid := file.next;
      count := Call(file, mem, vs, writing);
      CallStops(file.answers, mid, file.next, writing, Total(vs), available, count);
      QuietThen(file.answers, old(file.next), mid, file.next, writing, available == 0,
                if count.Error? then count.errno else EIO);
      if !(count.Error? && count.errno == EINTR) {
        return;
      }
    }
  }

  /** Lines 55-57: step over vectors with nothing left in them. */
  method SkipEmpty(vectors: array<Iovec>, first: nat) returns (current: nat)
    requires first <= vectors.Length
    ensures first <= current <= vectors.Length
    ensures Cells(vectors[current..]) == Cells(vectors[first..])
    ensures current < vectors.Length ==> 0 < Total(vectors[current..])
  {
    current := first;
    while current < vectors.Length && vectors[current].len == 0
      invariant first <= current <= vectors.Length
      invariant Cells(vectors[current..]) == Cells(vectors[first..])
    {
      assert vectors[current..][1..] == vectors[current + 1..];
      current := current + 1;
    }
  }

  /** How a transfer in progress went: whether it used answers quietly, or why it gave up. */
  predicate Went(answers: seq<Answer>, from: nat, to: nat, writing: bool, atEnd: bool, count: IoResult) {
    match count
    case Count(n) =>
      if n > 0 then Quiet(answers, from, to, writing) else GaveUp(answers, from, to, writing, atEnd, EIO)
    case Error(e) => StoppedBy(answers, from, to, writing, e)
  }

  lemma StaysAtEnd(start: View, now: View)
    requires Progress(false, start, now) && now.offset == start.offset && |start.bytes| <= start.offset
    ensures now.offset == |now.bytes|
  {
  }

  /** The same transfer, seen from where all of them started. */
  method TransferSome(file: File, mem: array<Byte>, vs: seq<Iovec>, writing: bool, ghost start: View)
    returns (count: IoResult)
    requires 0 < Total(vs) && Progress(writing, start, Seen(file, mem, vs))
    modifies file`bytes, file`offset, file`next, mem
    ensures Went(file.answers, old(file.next), file.next, writing, file.offset == |file.bytes|, count)
    ensures count.Count? ==> count.n <= Total(vs)
    ensures Progress(writing, start, Seen(file, mem, if count.Count? then Advance(vs, count.n) else vs))
  {
    ghost var before := Seen(file, mem, vs);
    ProgressStops(writing, start, before);
    count := TransferOnce(file, mem, vs, writing);
    if count.Count? {
      ghost var after := Seen(file, mem, Advance(vs, count.n));
      ProgressMoves(writing, start, before, after);
      if count.n == 0 && !writing && |before.bytes| <= before.offset {
        StaysAtEnd(before, after);
      }
    }
  }

  /** Lines 62-90: one transfer and the bookkeeping after it. */
  method TransferChunk(file: File, mem: array<Byte>, vectors: array<Iovec>, first: nat, writing: bool,
                       ghost start: View)
    returns (current: nat, r: Outcome)
    requires first < vectors.Length && 0 < Total(vectors[first..])
    requires Progress(writing, start, Seen(file, mem, vectors[first..]))
    modifies file`bytes, file`offset, file`next, mem, vectors
    ensures r.Done? ==> Quiet(file.answers, old(file.next), file.next, writing)
    ensures r.Failed? ==>
              GaveUp(file.answers, old(file.next), file.next, writing, file.offset == |file.bytes|, r.errno)
    ensures current <= vectors.Length
    ensures Progress(writing, start, Seen(file, mem, vectors[current..]))
    ensures if r.Done? then Total(vectors[current..]) < old(Total(vectors[first..]))
            else Total(vectors[current..]) > 0
  {
    ghost var vs := vectors[first..];
    var count := TransferSome(file, mem, vectors[first..], writing, start);
    if count.Error? {
      return first, Failed(count.errno);
    }
    if count.n == 0 {
      return first, Failed(EIO);
    }
    var leftover;
    current, leftover := AdvanceVectors(vectors, first, count.n);
    assert vectors[current..] == Advance(vs, count.n);
    if leftover != 0 {
      assert false;
    }
    return current, Done;
  }

  /** Lines 52-92: the outer loop; what it has not transferred is left in the vectors. */
  method TransferLoop(file: File, mem: array<Byte>, vectors: array<Iovec>, writing: bool, ghost start: View)
    returns (r: Outcome, ghost rest: seq<Iovec>)
    requires Progress(writing, start, Seen(file, mem, vectors[..]))
    modifies file`bytes, file`offset, file`next, mem, vectors
    ensures Progress(writing, start, Seen(file, mem, rest))
    ensures r.Done? ==> Total(rest) == 0 && Quiet(file.answers, old(file.next), file.next, writing)
    ensures r.Failed? ==>
              && Total(rest) > 0
              && GaveUp(file.answers, old(file.next), file.next, writing, file.offset == |file.bytes|, r.errno)
  {
    var current := 0;
    assert vectors[0..] == vectors[..];
    while current < vectors.Length
      invariant 0 <= current <= vectors.Length
      invariant Progress(writing, start, Seen(file, mem, vectors[current..]))
      invariant Quiet(file.answers, old(file.next), file.next, writing)
      decreases Total(vectors[current..])
    {
      ghost var now, mid := Seen(file, mem, vectors[current..]), file.next;
      current := SkipEmpty(vectors, current);
      assert Seen(file, mem, vectors[current..]) == now;
      if current == vectors.Length {
        break;
      }
      current, r := TransferChunk(file, mem, vectors, current, writing, start);
      QuietThen(file.answers, old(file.next), mid, file.next, writing, file.offset == |file.bytes|,
                if r.Failed? then r.errno else EIO);
      if r.Failed? {
        return r, vectors[current..];
      }
    }
    assert vectors[vectors.Length..] == [];
    return Done, [];
  }

  /**
   * Moves every byte of the vectors, or fails having moved a proper prefix; the
   * shared offset advances by the number of bytes moved.  It fails exactly at the
   * first answer that is a hard error, or makes no progress, and says which.
   */
  method TransferIovecs(file: File, mem: array<Byte>, vectors: array<Iovec>, writing: bool) returns (r: Outcome)
    requires InMemory(Cells(vectors[..]), mem.Length)
    requires file.offset <= |file.bytes|
    modifies file`bytes, file`offset, file`next, mem, vectors
    ensures Transferred(writing, old(Seen(file, mem, vectors[..])), Seen(file, mem, []))
    ensures r.Done? ==>
              && file.offset == old(file.offset) + Total(old(vectors[..]))
              && Quiet(file.answers, old(file.next), file.next, writing)
    ensures r.Failed? ==>
              && file.offset < old(file.offset) + Total(old(vectors[..]))
              && GaveUp(file.answers, old(file.next), file.next, writing, file.offset == |file.bytes|, r.errno)
    ensures writing ==> (r.Done? <==> Quiet(file.answers, old(file.next), file.next, true))
    ensures Benign(file.answers) && (writing || Total(old(vectors[..])) <= old(file.Available(file.offset))) ==> r.Done?
  {
    ghost var start := Seen(file, mem, vectors[..]);
    ProgressStarts(writing, start);
    ghost var rest;
    r, rest := TransferLoop(file, mem, vectors, writing, start);
    ProgressStops(writing, start, Seen(file, mem, rest));
    if Benign(file.answers) && r.Failed? {
      BenignNeverStops(file.answers, old(file.next), file.next, writing, r.errno);
    }
  }

  // --------------------------------------------------------------------- main

  datatype Verdict =
    | Verified
    | CreateFailed | WriteFailed | PatchFailed | ReadBackFailed | SeekFailed | ReadFailed
    | OffsetMoved | ReadBackWrong | OffsetMovedByRead | ReadWrong

  lemma OverlayWithin(bytes: seq<Byte>, at: nat, data: seq<Byte>)
    requires at + |data| <= |bytes|
    ensures |Overlay(bytes, at, data)| == |bytes|
  {
  }

  /** Dealing the whole file out to disjoint vectors and gathering it back loses nothing. */
  lemma RoundTrip(mem: seq<Byte>, output: seq<Iovec>, patch: seq<Byte>, at: nat, input: seq<Iovec>)
    requires InMemory(Cells(output), |mem|) && InMemory(Cells(input), |mem|) && Distinct(Cells(input))
    requires at + |patch| <= Total(output) == Total(input)
    ensures var file := Overlay(Overlay([], 0, Read(mem, Cells(output))), at, patch);
            Read(Fill(mem, Cells(input), file), Cells(input)) == file
  {
    var data := Read(mem, Cells(output));
    OverlayAppends([], data);
    assert [] + data == data;
    OverlayWithin(data, at, patch);
    ReadAfterFill(mem, Cells(input), Overlay(data, at, patch));
  }

  /** A complete write to an empty file leaves what the vectors held. */
  lemma WroteEverything(start: View, now: View)
    requires start.bytes == [] && start.offset == 0
    requires Sound(start) && Wrote(start, now) && now.offset == |start.cells|
    ensures now.bytes == start.held && now.offset == |now.bytes|
  {
    OverlayAppends([], start.held);
    assert start.held[..|start.held|] == start.held == [] + start.held;
  }

  /** A complete read from the start into distinct cells leaves the file in them. */
  lemma LoadedEverything(start: View, now: View)
    requires start.offset == 0 && |start.bytes| == |start.cells| && Distinct(start.cells)
    requires Loaded(start, now) && now.offset == |start.cells|
    ensures InMemory(start.cells, |now.mem|) && Read(now.mem, start.cells) == start.bytes
  {
    assert start.bytes[0..|start.bytes|] == start.bytes;
    ReadAfterFill(start.mem, start.cells, start.bytes);
  }

  /** Lines 109-122: gather the vectors into the empty file, and patch it. */
  method WriteAndPatch(file: File, mem: array<Byte>, output: array<Iovec>, patch: seq<Byte>, at: nat)
    returns (verdict: Verdict)
    requires file.bytes == [] && file.offset == 0
    requires InMemory(Cells(output[..]), mem.Length) && at + |patch| <= Total(output[..])
    modifies file`bytes, file`offset, file`next, mem, output
    ensures verdict.Verified? || verdict.WriteFailed? || verdict.PatchFailed?
    ensures if verdict.Verified? then Quiet(file.answers, old(file.next), file.next, true)
            else Stopped(file.answers, old(file.next), file.next, true)
    ensures verdict.Verified? ==>
              && mem[..] == old(mem[..])
              && file.bytes == old(Overlay(Read(mem[..], Cells(output[..])), at, patch))
              && file.offset == |file.bytes|
  {
    ghost var start := Seen(file, mem, output[..]);
    var written := TransferIovecs(file, mem, output, true);
    if written.Failed? {
      return WriteFailed;
    }
    WroteEverything(start, Seen(file, mem, []));
    OverlayWithin(file.bytes, at, patch);
    ghost var mid := file.next;
    var patched := PwriteAll(file, patch, at);
    QuietThen(file.answers, old(file.next), mid, file.next, true, false,
              if patched.Failed? then patched.errno else EIO);
    return if patched.Failed? then PatchFailed else Verified;
  }

  predicate Stopped(answers: seq<Answer>, from: nat, to: nat, writing: bool) {
    from < to <= |answers| && Quiet(answers, from, to - 1, writing) && Stops(answers[to - 1], writing)
  }

  /** Lines 124-141: the offset has not moved, and a positioned read gives the whole file. */
  method ReadBack(file: File, expected: seq<Byte>) returns (verdict: Verdict)
    requires file.bytes == expected && file.offset == |expected|
    modifies file`next, file`seeks, file`delivered
    ensures match verdict
            case Verified =>
              && Quiet(file.answers, old(file.next), file.next, false)
              && file.seeks == old(file.seeks) + 2
              && !file.SeekFails(old(file.seeks)) && !file.SeekFails(old(file.seeks) + 1)
              && file.delivered == old(file.delivered) + |expected|
            case OffsetMoved =>
              file.next == old(file.next) && file.seeks == old(file.seeks) + 1 && file.SeekFails(old(file.seeks))
            case ReadBackFailed =>
              && Stopped(file.answers, old(file.next), file.next, false)
              && file.seeks == old(file.seeks) + 1 && !file.SeekFails(old(file.seeks))
            case OffsetMovedByRead =>
              && Quiet(file.answers, old(file.next), file.next, false)
              && file.seeks == old(file.seeks) + 2
              && !file.SeekFails(old(file.seeks)) && file.SeekFails(old(file.seeks) + 1)
            case _ => false
  {
    var position := file.Tell();
    if position != |expected| {
      return OffsetMoved;
    }
    var positioned := new Byte[|expected|];
    var count, errno := PreadFull(file, positioned, |expected|, 0);
    if count == -1 {
      return ReadBackFailed;
    }
    if count != |expected| || positioned[..] != expected {
      return ReadBackWrong;
    }
    var again := file.Tell();
    if again != position {
      return OffsetMovedByRead;
    }
    return Verified;
  }

  /** Lines 150-167: scatter the file into disjoint buffers, and compare them. */
  method ReadInto(file: File, mem: array<Byte>, input: array<Iovec>, expected: seq<Byte>) returns (verdict: Verdict)
    requires file.bytes == expected && file.offset == 0
    requires InMemory(Cells(input[..]), mem.Length) && Distinct(Cells(input[..])) && Total(input[..]) == |expected|
    modifies file`bytes, file`offset, file`next, mem, input
    ensures verdict.Verified? || verdict.ReadFailed?
    ensures if verdict.Verified? then Quiet(file.answers, old(file.next), file.next, false)
            else Stopped(file.answers, old(file.next), file.next, false)
    ensures verdict.Verified? ==>
              && file.bytes == expected
              && InMemory(Cells(old(input[..])), mem.Length)
              && Read(mem[..], Cells(old(input[..]))) == expected
  {
    var buffers := input[..];
    ghost var start := Seen(file, mem, buffers);
    var read := TransferIovecs(file, mem, input, false);
    if read.Failed? {
      return ReadFailed;
    }
    LoadedEverything(start, Seen(file, mem, []));
    if Read(mem[..], Cells(buffers)) != expected {
      return ReadWrong;
    }
    return Verified;
  }

  /** The verdicts that blame the last of the calls of lseek. */
  predicate BlamesSeek(verdict: Verdict) {
    verdict.OffsetMoved? || verdict.OffsetMovedByRead? || verdict.SeekFailed?
  }

  /** Which answers and how many calls of lseek explain a verdict about reading. */
  predicate ReadExplains(answers: seq<Answer>, from: nat, to: nat, verdict: Verdict, seeks: nat) {
    match verdict
    case OffsetMoved => to == from && seeks == 1
    case ReadBackFailed => Stopped(answers, from, to, false) && seeks == 1
    case OffsetMovedByRead => Quiet(answers, from, to, false) && seeks == 2
    case SeekFailed => Quiet(answers, from, to, false) && seeks == 3
    case ReadFailed => Stopped(answers, from, to, false) && seeks == 3
    case Verified => Quiet(answers, from, to, false) && seeks == 3
    case _ => false
  }

  /**
   * The same for all of main, patched being where the writes end: the answers are
   * used one after the other, up to the first that stops the program.
   */
  predicate Explains(answers: seq<Answer>, from: nat, patched: nat, to: nat, verdict: Verdict, seeks: nat) {
    if verdict.WriteFailed? || verdict.PatchFailed? then Stopped(answers, from, to, true) && seeks == 0
    else Quiet(answers, from, patched, true) && ReadExplains(answers, patched, to, verdict, seeks)
  }

  lemma QuietThenStopped(answers: seq<Answer>, from: nat, mid: nat, to: nat, writing: bool)
    requires Quiet(answers, from, mid, writing)
    ensures Quiet(answers, mid, to, writing) ==> Quiet(answers, from, to, writing)
    ensures Stopped(answers, mid, to, writing) ==> Stopped(answers, from, to, writing)
  {
  }

  /** Lines 124-167: read the file back by position, rewind, and read it into the vectors. */
  method ReadTwice(file: File, mem: array<Byte>, input: array<Iovec>, expected: seq<Byte>) returns (verdict: Verdict)
    requires file.bytes == expected && file.offset == |expected| && file.seeks == 0
    requires InMemory(Cells(input[..]), mem.Length) && Distinct(Cells(input[..])) && Total(input[..]) == |expected|
    modifies file, mem, input
    ensures ReadExplains(file.answers, old(file.next), file.next, verdict, file.seeks)
    ensures forall k :: 0 <= k < file.seeks ==> (file.SeekFails(k) <==> k == file.seeks - 1 && BlamesSeek(verdict))
    ensures verdict.Verified? ==>
              && file.delivered == old(file.delivered) + |expected|
              && file.bytes == expected
              && InMemory(Cells(old(input[..])), mem.Length)
              && Read(mem[..], Cells(old(input[..]))) == expected
  {
    verdict := ReadBack(file, expected);
    if !verdict.Verified? {
      return;
    }
    var rewound := file.Rewind();
    if !rewound {
      return SeekFailed;
    }
    ghost var mid := file.next;
    verdict := ReadInto(file, mem, input, expected);
    QuietThenStopped(file.answers, old(file.next), mid, file.next, false);
  }

  lemma BenignVerifies(answers: seq<Answer>, from: nat, patched: nat, to: nat, verdict: Verdict, seeks: nat)
    requires Benign(answers) && Explains(answers, from, patched, to, verdict, seeks)
    ensures verdict.Verified? || (BlamesSeek(verdict) && seeks > 0)
  {
    if 0 < to <= |answers| {
      assert BenignAnswer(answers[to - 1]);
    }
  }

  /**
   * main from the first transfer to the last check, for any vectors, patch and
   * partition to read into.  expected is the output with the patch spliced in.  The
   * verdict is the first answer or call of lseek that fails; the checks on the
   * contents never fail, and short counts and interruptions alone never stop the
   * program.  It verifies only after reading the whole file back by position.
   */
  method CheckTransfers(file: File, mem: array<Byte>, output: array<Iovec>, patch: seq<Byte>, at: nat,
                        input: array<Iovec>, expected: seq<Byte>) returns (verdict: Verdict, ghost patched: nat)
    requires file.bytes == [] && file.offset == 0 && file.seeks == 0
    requires output != input
    requires InMemory(Cells(output[..]), mem.Length) && InMemory(Cells(input[..]), mem.Length)
    requires Distinct(Cells(input[..])) && Total(input[..]) == |expected|
    requires at + |patch| <= |expected| == Total(output[..])
    requires expected == Overlay(Read(mem[..], Cells(output[..])), at, patch)
    modifies file, mem, output, input
    ensures Explains(file.answers, old(file.next), patched, file.next, verdict, file.seeks)
    ensures forall k :: 0 <= k < file.seeks ==> (file.SeekFails(k) <==> k == file.seeks - 1 && BlamesSeek(verdict))
    ensures verdict.Verified? ==>
              && file.delivered == old(file.delivered) + |expected|
              && file.bytes == expected
              && InMemory(Cells(old(input[..])), mem.Length)
              && Read(mem[..], Cells(old(input[..]))) == expected
  {
    verdict := WriteAndPatch(file, mem, output, patch, at);
    patched := file.next;
    if verdict.Verified? {
      verdict := ReadTwice(file, mem, input, expected);
    }
  }

  /** main: the checks, if the file could be created, then close and unlink, which may turn success into failure. */
  method Run(file: File, mem: array<Byte>, output: array<Iovec>, patch: seq<Byte>, at: nat,
             input: array<Iovec>, expected: seq<Byte>, created: bool, closeOk: bool, unlinkOk: bool)
    returns (verdict: Verdict, success: bool)
    requires file.bytes == [] && file.offset == 0 && file.next == 0 && file.seeks == 0
    requires output != input
    requires InMemory(Cells(output[..]), mem.Length) && InMemory(Cells(input[..]), mem.Length)
    requires Distinct(Cells(input[..])) && Total(input[..]) == |expected|
    requires at + |patch| <= |expected| == Total(output[..])
    requires expected == Overlay(Read(mem[..], Cells(output[..])), at, patch)
    modifies file, mem, output, input
    ensures success <==> verdict.Verified? && closeOk && unlinkOk
    ensures if created then exists patched: nat ::
                Explains(file.answers, 0, patched, file.next, verdict, file.seeks)
            else verdict.CreateFailed?
    ensures forall k :: 0 <= k < file.seeks ==> (file.SeekFails(k) <==> k == file.seeks - 1 && BlamesSeek(verdict))
    ensures Benign(file.answers) && file.SeeksWell() ==> (verdict.Verified? <==> created)
    ensures verdict.Verified? ==>
              && file.delivered == old(file.delivered) + |expected|
              && file.bytes == expected
              && InMemory(Cells(old(input[..])), mem.Length)
              && Read(mem[..], Cells(old(input[..]))) == expected
  {
    success := false;
    if !created {
      return CreateFailed, false;
    }
    ghost var patched;
    verdict, patched := CheckTransfers(file, mem, output, patch, at, input, expected);
    if Benign(file.answers) && file.SeeksWell() {
      BenignVerifies(file.answers, 0, patched, file.next, verdict, file.seeks);
      assert file.seeks > 0 ==> !file.SeekFails(file.seeks - 1);
    }
    success := verdict.Verified?;
    if !closeOk {
      success := false;
    }
    if !unlinkOk {
      success := false;
    }
  }
}
