/**
 * experiments/09_fd_passing: a descriptor travels in an SCM_RIGHTS control
 * message.  Control buffers are byte sequences laid out as on 64-bit Linux; the
 * CMSG macros follow section 4.3 of RFC 2292, with no header after an undersized one.
 */
module FdPassing {

  import opened Bytes
  import opened Os

  // ------------------------------------------------------------------- layout

  const HEADER: nat := 16   // sizeof(struct cmsghdr): 8 bytes of length, 4 of level, 4 of type; an int has 4
  const SOL_SOCKET: nat := 1
  const SCM_RIGHTS: nat := 1

  function Align(n: nat): nat { (n + 7) / 8 * 8 }

  function CmsgLen(data: nat): nat { HEADER + data }

  function CmsgSpace(data: nat): nat { HEADER + Align(data) }

  predicate HeaderAt(c: seq<Byte>, pos: nat) { pos + HEADER <= |c| }

  function LengthAt(c: seq<Byte>, pos: nat): nat
    requires HeaderAt(c, pos)
  {
    Unsigned(c[pos..pos + 8])
  }

  /** level and type say that the header carries descriptors. */
  predicate RightsAt(c: seq<Byte>, pos: nat)
    requires HeaderAt(c, pos)
  {
    Unsigned(c[pos + 8..pos + 12]) == SOL_SOCKET && Unsigned(c[pos + 12..pos + 16]) == SCM_RIGHTS
  }

  function FirstHeader(c: seq<Byte>): Option<nat> {
    if HeaderAt(c, 0) then Some(0) else None
  }

  function NextHeader(c: seq<Byte>, pos: nat): (next: Option<nat>)
    requires HeaderAt(c, pos)
    ensures next.Some? ==> pos + HEADER <= next.value && HeaderAt(c, next.value)
  {
    if LengthAt(c, pos) < HEADER then None
    else
      var next := pos + Align(LengthAt(c, pos));
      if HeaderAt(c, next) then Some(next) else None
  }

  function Ints(c: seq<Byte>, at: nat, count: nat): (r: seq<int>)
    requires at + 4 * count <= |c|
    ensures |r| == count
  {
    seq(count, k requires 0 <= k < count => Signed32(c[at + 4 * k..at + 4 * k + 4]))
  }

  // ------------------------------------------------------ descriptors in a buffer

  /** A header as found at pos; ints are the whole descriptors its data holds. */
  datatype Header = Header(pos: nat, length: nat, rights: bool, ints: seq<int>)

  function Load(c: seq<Byte>, pos: nat): Header
    requires HeaderAt(c, pos)
  {
    var length := LengthAt(c, pos);
    Header(pos, length, RightsAt(c, pos),
           if RightsAt(c, pos) && HEADER <= length && pos + length <= |c|
           then Ints(c, pos + HEADER, (length - HEADER) / 4) else [])
  }

  /** The headers the macros visit from a given one on. */
  function ParseFrom(c: seq<Byte>, from: Option<nat>): (hs: seq<Header>)
    requires from.Some? ==> HeaderAt(c, from.value)
    decreases if from.Some? then |c| - from.value else -1
  {
    if from.None? then [] else [Load(c, from.value)] + ParseFrom(c, NextHeader(c, from.value))
  }

  function Parse(c: seq<Byte>): seq<Header> {
    ParseFrom(c, FirstHeader(c))
  }

  predicate NonNegative(fds: seq<int>) {
    forall i :: 0 <= i < |fds| ==> 0 <= fds[i]
  }

  /** The data of a rights header lies inside the buffer, and descriptors are not negative. */
  predicate Conforms(c: seq<Byte>, h: Header) {
    (h.rights ==> h.pos + h.length <= |c|) && NonNegative(h.ints)
  }

  /** What the kernel promises about a control buffer it fills. */
  predicate KernelMade(c: seq<Byte>) {
    forall i :: 0 <= i < |Parse(c)| ==> Conforms(c, Parse(c)[i])
  }

  /** What makes the receiver set its malformed flag. */
  predicate Malformed(h: Header) {
    h.rights && (h.length <= HEADER || (h.length - HEADER) % 4 != 0)
  }

  /** A rights header with a whole descriptor in it and stray bytes behind. */
  predicate Ragged(h: Header) {
    h.rights && h.ints != [] && (h.length - HEADER) % 4 != 0
  }

  /** Every descriptor the kernel installed. */
  function Installed(hs: seq<Header>): seq<int> {
    if hs == [] then [] else Installed(hs[..|hs| - 1]) + hs[|hs| - 1].ints
  }

  /** The descriptors the receiver looks at: it skips malformed headers. */
  function Seen(hs: seq<Header>): seq<int> {
    if hs == [] then []
    else Seen(hs[..|hs| - 1]) + if Malformed(hs[|hs| - 1]) then [] else hs[|hs| - 1].ints
  }

  predicate AnyMalformed(hs: seq<Header>) {
    exists i :: 0 <= i < |hs| && Malformed(hs[i])
  }

  predicate AnyRagged(hs: seq<Header>) {
    exists i :: 0 <= i < |hs| && Ragged(hs[i])
  }

  /** Only a rights header that is long enough carries descriptors. */
  predicate Sane(h: Header) {
    h.ints != [] ==> h.rights && HEADER < h.length
  }

  predicate AllSane(hs: seq<Header>) {
    forall i :: 0 <= i < |hs| ==> Sane(hs[i])
  }

  lemma {:induction false} ParseIsSane(c: seq<Byte>, from: Option<nat>)
    requires from.Some? ==> HeaderAt(c, from.value)
    ensures AllSane(ParseFrom(c, from))
    decreases if from.Some? then |c| - from.value else -1
  {
    if from.None? {
    } else {
      assert Sane(Load(c, from.value));
      ParseIsSane(c, NextHeader(c, from.value));
    }
  }

  lemma {:induction false} SeenIsInstalled(hs: seq<Header>)
    requires AllSane(hs) && !AnyRagged(hs)
    ensures Seen(hs) == Installed(hs)
  {
    if hs == [] {
    } else {
      var init, last := hs[..|hs| - 1], hs[|hs| - 1];
      assert !Ragged(last) && Sane(last);
      SeenIsInstalled(init);
    }
  }

  lemma {:induction false} RaggedLosesSome(hs: seq<Header>)
    ensures |Seen(hs)| <= |Installed(hs)|
    ensures AnyRagged(hs) ==> |Seen(hs)| < |Installed(hs)|
  {
    if hs == [] {
    } else {
      var init, last := hs[..|hs| - 1], hs[|hs| - 1];
      RaggedLosesSome(init);
      if AnyRagged(hs) && !Ragged(last) {
        var i :| 0 <= i < |hs| && Ragged(hs[i]);
        assert Ragged(init[i]);
      }
    }
  }

  /** The receiver accounts for every installed descriptor exactly when no header is ragged. */
  lemma SeenIsInstalledIff(c: seq<Byte>)
    ensures multiset(Seen(Parse(c))) == multiset(Installed(Parse(c))) <==> !AnyRagged(Parse(c))
  {
    var hs := Parse(c);
    if AnyRagged(hs) {
      RaggedLosesSome(hs);
      assert |multiset(Seen(hs))| == |Seen(hs)| && |multiset(Installed(hs))| == |Installed(hs)|;
    } else {
      ParseIsSane(c, FirstHeader(c));
      SeenIsInstalled(hs);
    }
  }

  // -------------------------------------------------------------- the receiver

  /** How recvmsg ends when it is not interrupted. */
  datatype Reply =
    | Error(errno: HardErrno)
    | Message(received: nat, payload: char, control: seq<Byte>, truncated: bool)

  datatype FcntlReply = Done | GetFails(errno: Errno) | SetFails(errno: Errno)

  datatype Result = Ok(fd: int) | Failed(errno: Errno)

  /** A process; closed is the history of its close calls. */
  class Process {
    var cloexec: set<int>
    var closed: seq<int>

    method Close(fd: int)
      modifies this`closed
      ensures closed == old(closed) + [fd]
    {
      closed := closed + [fd];
    }

    /** fcntl(F_GETFD), then fcntl(F_SETFD) with FD_CLOEXEC. */
    method SetCloexec(fd: int, reply: FcntlReply) returns (r: Result)
      modifies this`cloexec
      ensures r == match reply case Done => Ok(fd) case GetFails(e) => Failed(e) case SetFails(e) => Failed(e)
      ensures reply.Done? ==> fd in cloexec
    {
      match reply
      case Done => cloexec := cloexec + {fd}; r := Ok(fd);
      case GetFails(e) => r := Failed(e);
      case SetFails(e) => r := Failed(e);
    }
  }

  predicate Accepted(m: Reply)
    requires m.Message?
  {
    && m.received == 1 && m.payload == 'F' && !m.truncated
    && !AnyMalformed(Parse(m.control))
    && |Seen(Parse(m.control))| == 1
  }

  function First(fds: seq<int>): int { if fds == [] then -1 else fds[0] }

  /** All but the first, which the receiver keeps for now. */
  function Extra(fds: seq<int>): seq<int> { if fds == [] then [] else fds[1..] }

  /** Having looked at the descriptors seen, the receiver has closed all but the first. */
  ghost predicate Receiving(p: Process, closed0: seq<int>, seen: seq<int>, descriptor: int, count: nat)
    reads p
  {
    && descriptor == First(seen)
    && count == |seen|
    && p.closed == closed0 + Extra(seen)
  }

  /** Lines 156-163: the first descriptor is kept, every later one closed. */
  method TakeOne(p: Process, candidate: int, first: int, ghost closed0: seq<int>, ghost seen: seq<int>)
    returns (descriptor: int)
    requires NonNegative(seen) && 0 <= candidate
    requires Receiving(p, closed0, seen, first, |seen|)
    modifies p`closed
    ensures Receiving(p, closed0, seen + [candidate], descriptor, |seen| + 1)
  {
    descriptor := first;
    if descriptor < 0 {
      descriptor := candidate;
    } else {
      assert Extra(seen + [candidate]) == Extra(seen) + [candidate];
      p.Close(candidate);
    }
  }

  lemma TakePrefix(seen: seq<int>, all: seq<int>, k: nat)
    requires k < |all|
    ensures seen + all[..k + 1] == (seen + all[..k]) + [all[k]]
    ensures NonNegative(seen + all) ==> NonNegative(seen + all[..k]) && 0 <= all[k]
  {
    if NonNegative(seen + all) {
      forall i | 0 <= i < |seen + all[..k]| ensures 0 <= (seen + all[..k])[i] {
        assert (seen + all[..k])[i] == (seen + all)[i];
      }
      assert all[k] == (seen + all)[|seen| + k];
    }
  }

  method TakeDescriptors(p: Process, c: seq<Byte>, at: nat, size: nat, first: int, counted: nat,
                         ghost closed0: seq<int>, ghost seen: seq<int>, ghost n: nat)
    returns (descriptor: int, count: nat)
    requires size == 4 * n && at + 4 * n <= |c|
    requires NonNegative(seen) && NonNegative(Ints(c, at, n))
    requires Receiving(p, closed0, seen, first, counted)
    modifies p`closed
    ensures Receiving(p, closed0, seen + Ints(c, at, n), descriptor, count)
    ensures NonNegative(seen + Ints(c, at, n))
  {
    ghost var all, k := Ints(c, at, n), 0;
    descriptor, count := first, counted;
    var offset := 0;
    assert seen + all[..0] == seen && NonNegative(seen + all);
    while offset < size
      invariant 0 <= k <= n && offset == 4 * k
      invariant Receiving(p, closed0, seen + all[..k], descriptor, count)
    {
      TakePrefix(seen, all, k);
      var candidate := Signed32(c[at + offset..at + offset + 4]);
      assert candidate == all[k];
      count := count + 1;
      descriptor := TakeOne(p, candidate, descriptor, closed0, seen + all[..k]);
      offset, k := offset + 4, k + 1;
    }
    assert all[..n] == all;
  }

  lemma Snoc(hs: seq<Header>, h: Header)
    ensures Seen(hs + [h]) == Seen(hs) + if Malformed(h) then [] else h.ints
    ensures AnyMalformed(hs + [h]) <==> AnyMalformed(hs) || Malformed(h)
  {
    var all := hs + [h];
    assert all[..|all| - 1] == hs;
    assert all[|hs|] == h;
    forall i | 0 <= i < |hs| ensures all[i] == hs[i] {}
  }

  /** Lines 142-164: the body of the header loop. */
  method VisitHeader(p: Process, c: seq<Byte>, pos: nat, first: int, counted: nat, wasMalformed: bool,
                     ghost closed0: seq<int>, ghost seen: seq<int>)
    returns (descriptor: int, count: nat, malformed: bool)
    requires HeaderAt(c, pos) && Conforms(c, Load(c, pos)) && NonNegative(seen)
    requires Receiving(p, closed0, seen, first, counted)
    modifies p`closed
    ensures var h := Load(c, pos);
            var seen' := seen + if Malformed(h) then [] else h.ints;
            && Receiving(p, closed0, seen', descriptor, count)
            && NonNegative(seen')
            && malformed == (wasMalformed || Malformed(h))
  {
    ghost var h := Load(c, pos);
    descriptor, count, malformed := first, counted, wasMalformed;
    assert seen + [] == seen;
    if !RightsAt(c, pos) {
      assert !Malformed(h) && h.ints == [];
      return;
    }
    if LengthAt(c, pos) < CmsgLen(0) {
      assert Malformed(h);
      malformed := true;
      return;
    }
    var dataSize := LengthAt(c, pos) - CmsgLen(0);
    if dataSize == 0 || dataSize % 4 != 0 {
      assert Malformed(h);
      malformed := true;
      return;
    }
    assert !Malformed(h) && h.ints == Ints(c, pos + HEADER, dataSize / 4);
    descriptor, count := TakeDescriptors(p, c, pos + HEADER, dataSize, descriptor, count,
                                         closed0, seen, dataSize / 4);
  }

  lemma WalkStep(c: seq<Byte>, done: seq<Header>, pos: nat)
    requires KernelMade(c) && HeaderAt(c, pos) && done + ParseFrom(c, Some(pos)) == Parse(c)
    ensures Conforms(c, Load(c, pos))
    ensures (done + [Load(c, pos)]) + ParseFrom(c, NextHeader(c, pos)) == Parse(c)
  {
    assert Parse(c)[|done|] == Load(c, pos);
    assert done + ([Load(c, pos)] + ParseFrom(c, NextHeader(c, pos)))
        == (done + [Load(c, pos)]) + ParseFrom(c, NextHeader(c, pos));
  }

  /** Lines 137-165: walk the headers. */
  method WalkHeaders(p: Process, c: seq<Byte>) returns (descriptor: int, count: nat, malformed: bool)
    requires KernelMade(c)
    modifies p`closed
    ensures Receiving(p, old(p.closed), Seen(Parse(c)), descriptor, count)
    ensures malformed == AnyMalformed(Parse(c))
    ensures NonNegative(Seen(Parse(c)))
  {
    descriptor, count, malformed := -1, 0, false;
    var header := FirstHeader(c);
    ghost var done: seq<Header> := [];
    while header.Some?
      invariant header.Some? ==> HeaderAt(c, header.value)
      invariant done + ParseFrom(c, header) == Parse(c)
      invariant Receiving(p, old(p.closed), Seen(done), descriptor, count)
      invariant NonNegative(Seen(done))
      invariant malformed == AnyMalformed(done)
      decreases if header.Some? then |c| - header.value else -1
    {
      var pos := header.value;
      WalkStep(c, done, pos);
      descriptor, count, malformed :=
        VisitHeader(p, c, pos, descriptor, count, malformed, old(p.closed), Seen(done));
      Snoc(done, Load(c, pos));
      header := NextHeader(c, pos);
      done := done + [Load(c, pos)];
    }
    assert done + [] == done;
  }

  function Kept(r: Result): seq<int> { if r.Ok? then [r.fd] else [] }

  lemma MalformedCoversRagged(hs: seq<Header>)
    ensures AnyRagged(hs) ==> AnyMalformed(hs)
  {
    if AnyRagged(hs) {
      var i :| 0 <= i < |hs| && Ragged(hs[i]);
      assert Malformed(hs[i]);
    }
  }

  /** The close calls of a receiver that looked at seen and answers r, in order. */
  function Closes(seen: seq<int>, r: Result): seq<int> {
    Extra(seen) + if r.Ok? || seen == [] then [] else [First(seen)]
  }

  /** Every descriptor looked at is closed exactly once, or is the one returned. */
  lemma SeenIsAccounted(seen: seq<int>, r: Result)
    requires r.Ok? ==> seen == [r.fd]
    ensures multiset(Closes(seen, r)) + multiset(Kept(r)) == multiset(seen)
  {
    if seen != [] {
      assert seen == [First(seen)] + Extra(seen);
    }
  }

  /** Every installed descriptor is either closed or kept, and none of them twice. */
  predicate Conserved(closes: seq<int>, r: Result, c: seq<Byte>) {
    multiset(closes) + multiset(Kept(r)) == multiset(Installed(Parse(c)))
  }

  /**
   * Conservation: the receiver has closed or returned every installed descriptor,
   * each exactly once, if and only if no header was ragged; and an accepted
   * message had installed exactly the one descriptor looked at.
   */
  lemma ConservationIff(m: Reply, r: Result)
    requires m.Message? && (r.Ok? ==> Seen(Parse(m.control)) == [r.fd])
    ensures Conserved(Closes(Seen(Parse(m.control)), r), r, m.control) <==> !AnyRagged(Parse(m.control))
    ensures Accepted(m) ==> Installed(Parse(m.control)) == Seen(Parse(m.control))
  {
    var hs := Parse(m.control);
    SeenIsAccounted(Seen(hs), r);
    SeenIsInstalledIff(m.control);
    MalformedCoversRagged(hs);
    if !AnyRagged(hs) {
      ParseIsSane(m.control, FirstHeader(m.control));
      SeenIsInstalled(hs);
    }
  }

  /** Lines 129-132: recvmsg, repeated while it is interrupted. */
  method Recvmsg(attempts: seq<Attempt<Reply>>) returns (reply: Reply)
    requires Settles(attempts)
    ensures reply == Answer(attempts)
  {
    var k := 0;
    while attempts[k].Intr?
      invariant 0 <= k < |attempts| && Settles(attempts[k..])
      invariant Answer(attempts[k..]) == Answer(attempts)
      decreases |attempts| - k
    {
      assert attempts[k..][1..] == attempts[k + 1..];
      k := k + 1;
    }
    return attempts[k].value;
  }

  /** Lines 137-185, once a message has arrived. */
  method TakeMessage(p: Process, m: Reply, fcntl: FcntlReply) returns (r: Result)
    requires m.Message? && KernelMade(m.control)
    modifies p
    ensures if !Accepted(m) then r == Failed(EBADMSG)
            else if fcntl.Done? then r.Ok? && Seen(Parse(m.control)) == [r.fd] && r.fd in p.cloexec
            else r == Failed(fcntl.errno)
    ensures p.closed == old(p.closed) + Closes(Seen(Parse(m.control)), r)
  {
    ghost var seen := Seen(Parse(m.control));
    var descriptor, count, malformed := WalkHeaders(p, m.control);
    if m.received != 1 || m.payload != 'F' || malformed || count != 1 || m.truncated {
      if descriptor >= 0 {
        p.Close(descriptor);
      }
      return Failed(EBADMSG);
    }
    assert seen == [descriptor];
    r := p.SetCloexec(descriptor, fcntl);
    if r.Failed? {
      p.Close(descriptor);
    }
  }

  /** Every rights header is long enough for at least one descriptor, and holds a whole number of them. */
  predicate WellFormed(c: seq<Byte>) {
    forall i :: 0 <= i < |Parse(c)| && Parse(c)[i].rights ==>
      HEADER + 4 <= Parse(c)[i].length && (Parse(c)[i].length - HEADER) % 4 == 0
  }

  lemma WellFormedIff(c: seq<Byte>)
    ensures WellFormed(c) <==> !AnyMalformed(Parse(c))
  {
    if !WellFormed(c) {
      var i :| 0 <= i < |Parse(c)| && Parse(c)[i].rights &&
        !(HEADER + 4 <= Parse(c)[i].length && (Parse(c)[i].length - HEADER) % 4 == 0);
      assert Malformed(Parse(c)[i]);
    }
    if AnyMalformed(Parse(c)) {
      var i :| 0 <= i < |Parse(c)| && Malformed(Parse(c)[i]);
      assert Parse(c)[i].rights;
    }
  }

  /** What makes a message acceptable, told by what the kernel installed and by the header lengths. */
  lemma AcceptedIff(m: Reply)
    requires m.Message?
    ensures Accepted(m) <==>
              && m.received == 1 && m.payload == 'F' && !m.truncated
              && WellFormed(m.control) && |Installed(Parse(m.control))| == 1
  {
    WellFormedIff(m.control);
    MalformedCoversRagged(Parse(m.control));
    if !AnyMalformed(Parse(m.control)) {
      ParseIsSane(m.control, FirstHeader(m.control));
      SeenIsInstalled(Parse(m.control));
    }
  }

  /**
   * The receiver: which message it accepts, the closes it makes and their order, and
   * that every installed descriptor is closed or returned, once, on every path, if
   * and only if no header was ragged.
   */
  method ReceiveDescriptor(p: Process, attempts: seq<Attempt<Reply>>, fcntl: FcntlReply) returns (r: Result)
    requires Settles(attempts)
    requires Answer(attempts).Message? ==> KernelMade(Answer(attempts).control)
    modifies p
    ensures var reply := Answer(attempts);
            match reply
            case Error(errno) => r == Failed(errno) && p.closed == old(p.closed)
            case Message(received, payload, c, truncated) =>
              && (if received == 1 && payload == 'F' && !truncated && WellFormed(c) && |Installed(Parse(c))| == 1
                  then if fcntl.Done? then r.Ok? && Installed(Parse(c)) == [r.fd] && r.fd in p.cloexec
                       else r == Failed(fcntl.errno)
                  else r == Failed(EBADMSG))
              && old(p.closed) <= p.closed
              && p.closed[|old(p.closed)|..] == Closes(Seen(Parse(c)), r)
              && (Conserved(p.closed[|old(p.closed)|..], r, c) <==> !AnyRagged(Parse(c)))
  {
    var reply := Recvmsg(attempts);
    if reply.Error? {
      return Failed(reply.errno);
    }
    r := TakeMessage(p, reply, fcntl);
    assert p.closed[|old(p.closed)|..] == Closes(Seen(Parse(reply.control)), r);
    AcceptedIff(reply);
    ConservationIff(reply, r);
  }

  // ---------------------------------------------------------------- the sender

  /** A rights header announcing length bytes and holding the descriptor fd. */
  function RightsMessage(length: nat, fd: nat): (c: seq<Byte>)
    ensures |c| == 20
  {
    Encode(length, 8) + Encode(SOL_SOCKET, 4) + Encode(SCM_RIGHTS, 4) + Encode(fd, 4)
  }

  /** The control buffer of send_descriptor, padding included. */
  function SentControl(fd: nat): (c: seq<Byte>)
    ensures |c| == CmsgSpace(4)
  {
    RightsMessage(CmsgLen(4), fd) + [0, 0, 0, 0]
  }

  function Placed(s: seq<Byte>, at: nat, data: seq<Byte>): seq<Byte>
    requires at + |data| <= |s|
  {
    s[..at] + data + s[at + |data|..]
  }

  method Store(a: array<Byte>, at: nat, data: seq<Byte>)
    requires at + |data| <= a.Length
    modifies a
    ensures a[..] == Placed(old(a[..]), at, data)
  {
    forall i | 0 <= i < |data| { a[at + i] := data[i]; }
  }

  lemma PlaceLevel(z: seq<Byte>, level: seq<Byte>)
    requires |z| == 24 && |level| == 4
    ensures Placed(z, 8, level) == z[..8] + level + z[12..]
  {
  }

  lemma PlaceKind(z: seq<Byte>, level: seq<Byte>, kind: seq<Byte>)
    requires |z| == 24 && |level| == |kind| == 4
    ensures Placed(z[..8] + level + z[12..], 12, kind) == z[..8] + (level + kind) + z[16..]
  {
    assert (z[..8] + level + z[12..])[..12] == z[..8] + level;
    assert (z[..8] + level + z[12..])[16..] == z[16..];
  }

  lemma PlaceLength(z: seq<Byte>, length: seq<Byte>, tags: seq<Byte>)
    requires |z| == 24 && |length| == |tags| == 8
    ensures Placed(z[..8] + tags + z[16..], 0, length) == length + tags + z[16..]
  {
    assert (z[..8] + tags + z[16..])[8..] == tags + z[16..];
  }

  lemma PlaceData(z: seq<Byte>, length: seq<Byte>, tags: seq<Byte>, data: seq<Byte>)
    requires |z| == 24 && |length| == |tags| == 8 && |data| == 4
    ensures Placed(length + tags + z[16..], HEADER, data) == length + tags + data + z[20..]
  {
    assert (length + tags + z[16..])[..16] == length + tags;
    assert (length + tags + z[16..])[20..] == z[20..];
  }

  lemma AllFields(z: seq<Byte>, fd: nat)
    requires z == seq(24, _ => 0)
    ensures Encode(CmsgLen(4), 8) + (Encode(SOL_SOCKET, 4) + Encode(SCM_RIGHTS, 4)) + Encode(fd, 4) + z[20..]
            == SentControl(fd)
  {
    assert z[20..] == [0, 0, 0, 0];
  }

  /** Lines 81-96: fill the zeroed control buffer field by field. */
  method BuildControl(fd: nat) returns (control: array<Byte>)
    ensures fresh(control) && control[..] == SentControl(fd)
  {
    var length, level, kind, data := Encode(CmsgLen(4), 8), Encode(SOL_SOCKET, 4), Encode(SCM_RIGHTS, 4), Encode(fd, 4);
    control := new Byte[CmsgSpace(4)](_ => 0);
    ghost var zeros := control[..];
    Store(control, 8, level);
    PlaceLevel(zeros, level);
    Store(control, 12, kind);
    PlaceKind(zeros, level, kind);
    Store(control, 0, length);
    PlaceLength(zeros, length, level + kind);
    Store(control, HEADER, data);
    PlaceData(zeros, length, level + kind, data);
    AllFields(zeros, fd);
  }

  /** What the kernel does to the descriptor number on its way to the receiver. */
  function Renamed(c: seq<Byte>, fd: nat): seq<Byte>
    requires HEADER + 4 <= |c|
  {
    c[..HEADER] + Encode(fd, 4) + c[HEADER + 4..]
  }

  lemma OneRightsHeader(c: seq<Byte>, length: nat, fd: nat)
    requires 20 <= length < 24 && length <= |c| < 40 && fd < 0x8000_0000
    requires c[..20] == RightsMessage(length, fd)
    ensures Parse(c) == [Header(0, length, true, [fd])] && KernelMade(c)
    ensures Installed(Parse(c)) == [fd]
  {
    var m := RightsMessage(length, fd);
    assert c[0..8] == m[0..8] == Encode(length, 8);
    assert c[8..12] == m[8..12] == Encode(SOL_SOCKET, 4);
    assert c[12..16] == m[12..16] == Encode(SCM_RIGHTS, 4);
    assert c[16..20] == m[16..20] == Encode(fd, 4);
    UnsignedSmall(length, 8);
    UnsignedSmall(1, 4);
    Signed32Encode(fd);
    var h := Load(c, 0);
    assert LengthAt(c, 0) == length && RightsAt(c, 0);
    assert h.ints == [fd];
    assert Align(length) == 24 && NextHeader(c, 0) == None;
    assert ParseFrom(c, None) == [];
    assert ParseFrom(c, Some(0)) == [h] + ParseFrom(c, None);
    assert [h][..0] == [];
    assert Installed([h]) == Installed([]) + h.ints;
  }

  /**
   * Round trip: whatever number the kernel gives the descriptor, and however much
   * of the padding it keeps, the receiver accepts what send_descriptor built and
   * finds exactly that one descriptor.
   */
  lemma SendThenReceive(fd: nat, renamed: nat, padding: seq<Byte>)
    requires fd < 0x8000_0000 && renamed < 0x8000_0000 && |padding| < 20
    ensures var c := Renamed(SentControl(fd), renamed)[..CmsgLen(4)] + padding;
            && KernelMade(c)
            && Accepted(Message(1, 'F', c, false))
            && Seen(Parse(c)) == [renamed]
  {
    var sent := SentControl(fd);
    var c := Renamed(sent, renamed)[..CmsgLen(4)] + padding;
    assert c[..20] == sent[..16] + Encode(renamed, 4);
    assert sent[..16] == Encode(CmsgLen(4), 8) + Encode(SOL_SOCKET, 4) + Encode(SCM_RIGHTS, 4);
    assert c[..20] == RightsMessage(CmsgLen(4), renamed);
    OneRightsHeader(c, CmsgLen(4), renamed);
    var hs := Parse(c);
    ParseIsSane(c, FirstHeader(c));
    assert !Malformed(hs[0]);
    assert !AnyRagged(hs);
    SeenIsInstalled(hs);
  }

  /** One stray byte behind the descriptor, and the receiver never closes it. */
  lemma RaggedMessageLeaks(fd: nat, stray: Byte)
    requires fd < 0x8000_0000
    ensures var c := RightsMessage(CmsgLen(5), fd) + [stray];
            KernelMade(c) && AnyRagged(Parse(c)) && Installed(Parse(c)) == [fd] && Seen(Parse(c)) == []
  {
    var c := RightsMessage(CmsgLen(5), fd) + [stray];
    assert c[..20] == RightsMessage(CmsgLen(5), fd);
    OneRightsHeader(c, CmsgLen(5), fd);
    assert Ragged(Parse(c)[0]);
    assert Parse(c)[..0] == [];
  }

  // ------------------------------------------------- control messages in general

  /** A control message as a program builds it. */
  datatype ControlMessage = ControlMessage(level: nat, kind: nat, data: seq<Byte>)

  predicate Encodable(m: ControlMessage) {
    m.level < Pow256(4) && m.kind < Pow256(4) && CmsgLen(|m.data|) < Pow256(8)
  }

  predicate AllEncodable(ms: seq<ControlMessage>) {
    forall i :: 0 <= i < |ms| ==> Encodable(ms[i])
  }

  /** Length, level, type and data, padded to the next header. */
  function Packed(m: ControlMessage): (c: seq<Byte>)
    ensures |c| == CmsgSpace(|m.data|)
  {
    Encode(CmsgLen(|m.data|), 8) + Encode(m.level, 4) + Encode(m.kind, 4)
    + m.data + seq(Align(|m.data|) - |m.data|, _ => 0)
  }

  function PackedAll(ms: seq<ControlMessage>): seq<Byte> {
    if ms == [] then [] else Packed(ms[0]) + PackedAll(ms[1..])
  }

  predicate CarriesRights(m: ControlMessage) {
    m.level == SOL_SOCKET && m.kind == SCM_RIGHTS
  }

  /** The header that the walk should find at pos for m. */
  function HeaderOf(m: ControlMessage, pos: nat): Header {
    Header(pos, CmsgLen(|m.data|), CarriesRights(m),
           if CarriesRights(m) then Ints(m.data, 0, |m.data| / 4) else [])
  }

  function HeadersOf(ms: seq<ControlMessage>, pos: nat): seq<Header> {
    if ms == [] then [] else [HeaderOf(ms[0], pos)] + HeadersOf(ms[1..], pos + CmsgSpace(|ms[0].data|))
  }

  /** Where the fields of a packed message are. */
  lemma PackedPieces(m: ControlMessage)
    ensures Packed(m)[0..8] == Encode(CmsgLen(|m.data|), 8)
    ensures Packed(m)[8..12] == Encode(m.level, 4)
    ensures Packed(m)[12..16] == Encode(m.kind, 4)
    ensures Packed(m)[16..16 + |m.data|] == m.data
  {
    var a, b, c := Encode(CmsgLen(|m.data|), 8), Encode(m.level, 4), Encode(m.kind, 4);
    var z := seq(Align(|m.data|) - |m.data|, _ => 0);
    assert Packed(m) == [] + a + (b + c + m.data + z);
    Piece([], a, b + c + m.data + z);
    assert Packed(m) == a + b + (c + m.data + z);
    Piece(a, b, c + m.data + z);
    assert Packed(m) == (a + b) + c + (m.data + z);
    Piece(a + b, c, m.data + z);
    Piece(a + b + c, m.data, z);
  }

  lemma PackedFields(c: seq<Byte>, pos: nat, m: ControlMessage)
    requires Encodable(m) && pos + CmsgSpace(|m.data|) <= |c|
    requires c[pos..pos + CmsgSpace(|m.data|)] == Packed(m)
    ensures HeaderAt(c, pos) && LengthAt(c, pos) == CmsgLen(|m.data|)
    ensures RightsAt(c, pos) <==> CarriesRights(m)
    ensures pos + CmsgLen(|m.data|) <= |c| && c[pos + HEADER..pos + CmsgLen(|m.data|)] == m.data
  {
    var n := CmsgSpace(|m.data|);
    PackedPieces(m);
    PieceOfPiece(c, pos, n, 0, 8);
    PieceOfPiece(c, pos, n, 8, 12);
    PieceOfPiece(c, pos, n, 12, 16);
    PieceOfPiece(c, pos, n, 16, 16 + |m.data|);
    UnsignedEncode(CmsgLen(|m.data|), 8);
    UnsignedEncode(m.level, 4);
    UnsignedEncode(m.kind, 4);
  }

  lemma IntsMove(c: seq<Byte>, at: nat, data: seq<Byte>)
    requires at + |data| <= |c| && c[at..at + |data|] == data
    ensures Ints(c, at, |data| / 4) == Ints(data, 0, |data| / 4)
  {
    forall k | 0 <= k < |data| / 4 ensures Ints(c, at, |data| / 4)[k] == Ints(data, 0, |data| / 4)[k] {
      PieceOfPiece(c, at, |data|, 4 * k, 4 * k + 4);
    }
  }

  lemma PackedHeader(c: seq<Byte>, pos: nat, m: ControlMessage)
    requires Encodable(m) && pos + CmsgSpace(|m.data|) <= |c|
    requires c[pos..pos + CmsgSpace(|m.data|)] == Packed(m)
    ensures HeaderAt(c, pos) && Load(c, pos) == HeaderOf(m, pos)
    ensures var next := pos + CmsgSpace(|m.data|);
            NextHeader(c, pos) == if HeaderAt(c, next) then Some(next) else None
  {
    PackedFields(c, pos, m);
    assert Align(CmsgLen(|m.data|)) == CmsgSpace(|m.data|);
    if CarriesRights(m) {
      IntsMove(c, pos + HEADER, m.data);
      assert (CmsgLen(|m.data|) - HEADER) / 4 == |m.data| / 4;
    }
  }

  lemma {:induction false} ParseFromPacked(c: seq<Byte>, pos: nat, ms: seq<ControlMessage>)
    requires AllEncodable(ms) && pos <= |c| && c[pos..] == PackedAll(ms)
    ensures ParseFrom(c, if HeaderAt(c, pos) then Some(pos) else None) == HeadersOf(ms, pos)
    decreases |ms|
  {
    if ms == [] {
      assert ParseFrom(c, None) == [];
    } else {
      var m, n := ms[0], CmsgSpace(|ms[0].data|);
      assert c[pos..][..n] == Packed(m) && c[pos..][n..] == PackedAll(ms[1..]);
      assert c[pos..pos + n] == c[pos..][..n] && c[pos + n..] == c[pos..][n..];
      PackedHeader(c, pos, m);
      ParseFromPacked(c, pos + n, ms[1..]);
    }
  }

  /**
   * Round trip of the walk: a buffer of packed control messages, whatever their
   * levels, types and lengths, is parsed into just these messages, and only those
   * of level SOL_SOCKET and type SCM_RIGHTS carry descriptors.
   */
  lemma ParsePacked(ms: seq<ControlMessage>)
    requires AllEncodable(ms)
    ensures Parse(PackedAll(ms)) == HeadersOf(ms, 0)
  {
    assert PackedAll(ms)[0..] == PackedAll(ms);
    ParseFromPacked(PackedAll(ms), 0, ms);
  }

  // ------------------------------------------------------------------ sending

  /** How sendmsg ends when it is not interrupted: a byte count or an error. */
  datatype SendReply = Sent(n: nat) | SendError(errno: HardErrno)

  datatype Outcome = Success | Failure(errno: Errno)

  datatype Datagram = Datagram(payload: char, control: seq<Byte>)

  /** The sending end of the socket; messages is what it has accepted. */
  class Socket {
    var messages: seq<Datagram>

    method Sendmsg(m: Datagram, attempt: Attempt<SendReply>)
      modifies this
      ensures messages == old(messages) + if attempt == Answered(Sent(1)) then [m] else []
    {
      if attempt == Answered(Sent(1)) {
        messages := messages + [m];
      }
    }
  }

  /**
   * Whatever interruptions there are, the message is sent once if the first answer
   * is that its one byte was accepted, and otherwise not at all.
   */
  method SendDescriptor(socket: Socket, fd: nat, attempts: seq<Attempt<SendReply>>) returns (r: Outcome)
    requires Settles(attempts)
    modifies socket
    ensures r == match Answer(attempts)
                 case Sent(n) => if n == 1 then Success else Failure(EIO)
                 case SendError(errno) => Failure(errno)
    ensures socket.messages == old(socket.messages) + if r.Success? then [Datagram('F', SentControl(fd))] else []
  {
    var control := BuildControl(fd);
    var k := 0;
    socket.Sendmsg(Datagram('F', control[..]), attempts[0]);
    while attempts[k].Intr?
      invariant 0 <= k < |attempts| && Settles(attempts[k..])
      invariant Answer(attempts[k..]) == Answer(attempts) && control[..] == SentControl(fd)
      invariant socket.messages == old(socket.messages)
                  + if attempts[k] == Answered(Sent(1)) then [Datagram('F', SentControl(fd))] else []
      decreases |attempts| - k
    {
      assert attempts[k..][1..] == attempts[k + 1..];
      k := k + 1;
      socket.Sendmsg(Datagram('F', control[..]), attempts[k]);
    }
    match attempts[k].value
    case Sent(n) => return if n == 1 then Success else Failure(EIO);
    case SendError(errno) => return Failure(errno);
  }
}
