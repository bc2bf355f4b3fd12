/**
 * experiments/12_filesystem_events: collect the masks of inotify records until
 * every required event has been seen.  Records are variable-length, several may
 * arrive in one read, and calls may be interrupted or find nothing to read.
 */
module FilesystemEvents {

  import opened Bytes
  import opened Os

  // ------------------------------------------------------------------ records

  const HEADER: nat := 16                     // sizeof(struct inotify_event)
  const IN_Q_OVERFLOW: nat := 14              // the number of the bit 0x4000

  /** A 32-bit mask as the set of its one bits. */
  type Bits = set<nat>

  predicate BitOf(n: nat, i: nat) {
    if i == 0 then n % 2 == 1 else BitOf(n / 2, i - 1)
  }

  /** Something to look for: a watch, a file name and the required events. */
  datatype Goal = Goal(watch: int, name: seq<Byte>, required: Bits)

  /** The size the header at the front of b announces. */
  function RecordSize(b: seq<Byte>): (n: nat)
    requires HEADER <= |b|
    ensures HEADER <= n
  {
    HEADER + Unsigned(b[12..16])
  }

  /** The parser's size arithmetic stays far below the limit of 64 bits. */
  lemma SizesDoNotWrap(b: seq<Byte>, offset: nat)
    requires HEADER <= |b| && offset <= |b| && |b| < 0x1_0000_0000
    ensures offset + RecordSize(b) < 0x3_0000_0000
  {
    UnsignedFits(b[12..16]);
    assert Pow256(4) == 256 * Pow256(3) == 256 * (256 * Pow256(2)) == 0x1_0000_0000;
  }

  function Watch(b: seq<Byte>): int
    requires HEADER <= |b|
  {
    Signed32(b[0..4])
  }

  function Mask(b: seq<Byte>): Bits
    requires HEADER <= |b|
  {
    set i: nat | i < 32 && BitOf(Unsigned(b[4..8]), i)
  }

  function Pow2(i: nat): nat {
    if i == 0 then 1 else 2 * Pow2(i - 1)
  }

  /** The sum of the powers of two at the first w bits of n. */
  function SumOfBits(n: nat, w: nat): nat {
    if w == 0 then 0 else SumOfBits(n, w - 1) + if BitOf(n, w - 1) then Pow2(w - 1) else 0
  }

  lemma {:induction false} SumOfBitsHalves(n: nat, w: nat)
    requires 0 < w
    ensures SumOfBits(n, w) == n % 2 + 2 * SumOfBits(n / 2, w - 1)
  {
    if w == 1 {
      assert SumOfBits(n, 1) == SumOfBits(n, 0) + if BitOf(n, 0) then Pow2(0) else 0;
    } else {
      SumOfBitsHalves(n, w - 1);
    }
  }

  /** The bits of a number are those that add up to it. */
  lemma {:induction false} BitsAddUp(n: nat, w: nat)
    requires n < Pow2(w)
    ensures SumOfBits(n, w) == n
  {
    if w == 0 {
    } else {
      SumOfBitsHalves(n, w);
      BitsAddUp(n / 2, w - 1);
    }
  }

  lemma {:induction false} ZeroHasNoBits(i: nat)
    ensures !BitOf(0, i)
  {
    if i == 0 {
    } else {
      ZeroHasNoBits(i - 1);
    }
  }

  /** A power of two is the mask of one bit. */
  lemma {:induction false} BitOfPower(j: nat, i: nat)
    ensures BitOf(Pow2(j), i) <==> i == j
  {
    if j == 0 {
      if i > 0 { ZeroHasNoBits(i - 1); }
    } else if i > 0 {
      BitOfPower(j - 1, i - 1);
    }
  }

  predicate Overflowed(b: seq<Byte>)
    requires HEADER <= |b|
  {
    IN_Q_OVERFLOW in Mask(b)
  }

  /** One complete record that does not report an overflow. */
  predicate IsRecord(r: seq<Byte>) {
    HEADER <= |r| && |r| == RecordSize(r) && !Overflowed(r)
  }

  predicate AllRecords(rs: seq<seq<Byte>>) {
    forall i :: 0 <= i < |rs| ==> IsRecord(rs[i])
  }

  function Concat(rs: seq<seq<Byte>>): seq<Byte> {
    if rs == [] then [] else rs[0] + Concat(rs[1..])
  }

  /** A complete record, overflow or not, stands at the front of b. */
  predicate StartsComplete(b: seq<Byte>) {
    HEADER <= |b| && RecordSize(b) <= |b|
  }

  /** The records of a buffer, if it consists of complete overflow-free records. */
  function Split(b: seq<Byte>): Option<seq<seq<Byte>>>
    decreases |b|
  {
    if b == [] then Some([])
    else if !StartsComplete(b) || Overflowed(b) then None
    else
      var rest := Split(b[RecordSize(b)..]);
      if rest.None? then None else Some([b[..RecordSize(b)]] + rest.value)
  }

  lemma FrontOfRecord(b: seq<Byte>, r: seq<Byte>)
    requires HEADER <= |r| && r <= b
    ensures RecordSize(b) == RecordSize(r) && Mask(b) == Mask(r) && Watch(b) == Watch(r)
  {
    assert b[12..16] == r[12..16] && b[4..8] == r[4..8] && b[0..4] == r[0..4];
  }

  lemma {:induction false} SplitIsSound(b: seq<Byte>)
    requires Split(b).Some?
    ensures AllRecords(Split(b).value) && Concat(Split(b).value) == b
    decreases |b|
  {
    if b == [] {
    } else {
      var r := b[..RecordSize(b)];
      FrontOfRecord(b, r);
      assert IsRecord(r);
      SplitIsSound(b[RecordSize(b)..]);
      assert b == r + b[RecordSize(b)..];
    }
  }

  lemma {:induction false} SplitIsComplete(rs: seq<seq<Byte>>)
    requires AllRecords(rs)
    ensures Split(Concat(rs)) == Some(rs)
  {
    if rs == [] {
    } else {
      var b, r := Concat(rs), rs[0];
      assert IsRecord(r) && r <= b;
      FrontOfRecord(b, r);
      assert StartsComplete(b) && !Overflowed(b);
      assert b[RecordSize(b)..] == Concat(rs[1..]) && b[..RecordSize(b)] == r;
      SplitIsComplete(rs[1..]);
      assert [r] + rs[1..] == rs;
    }
  }

  /** Exactly the concatenations of complete overflow-free records are split, into those records. */
  lemma SplitIff(b: seq<Byte>, rs: seq<seq<Byte>>)
    ensures Split(b) == Some(rs) <==> AllRecords(rs) && Concat(rs) == b
  {
    if AllRecords(rs) && Concat(rs) == b {
      SplitIsComplete(rs);
    } else if Split(b) == Some(rs) {
      SplitIsSound(b);
    }
  }

  // -------------------------------------------------------------- what is seen

  /** The record is about the watched file: its name field holds exactly the name. */
  predicate Matches(r: seq<Byte>, goal: Goal)
    requires HEADER <= |r|
  {
    Watch(r) == goal.watch && HEADER < |r| && Text(r[HEADER..]) == goal.name
  }

  // ------------------------------------------------------- records as the kernel lays them out

  /** Watch, mask, cookie and length of the name field, 32 bits each, and the name field. */
  function Laid(watch: int, mask: nat, cookie: nat, field: seq<Byte>): (r: seq<Byte>)
    requires -0x8000_0000 <= watch < 0x8000_0000
    ensures |r| == HEADER + |field|
  {
    Encode(Word(watch), 4) + Encode(mask, 4) + Encode(cookie, 4) + Encode(|field|, 4) + field
  }

  lemma LaidPieces(watch: int, mask: nat, cookie: nat, field: seq<Byte>)
    requires -0x8000_0000 <= watch < 0x8000_0000
    ensures var r := Laid(watch, mask, cookie, field);
            && r[0..4] == Encode(Word(watch), 4) && r[4..8] == Encode(mask, 4)
            && r[12..16] == Encode(|field|, 4) && r[16..] == field
  {
    var a, b, c, d := Encode(Word(watch), 4), Encode(mask, 4), Encode(cookie, 4), Encode(|field|, 4);
    var r := Laid(watch, mask, cookie, field);
    assert r == [] + a + (b + c + d + field);
    Piece([], a, b + c + d + field);
    assert r == a + b + (c + d + field);
    Piece(a, b, c + d + field);
    assert r == (a + b + c) + d + field;
    Piece(a + b + c, d, field);
    assert r[16..] == r[|a + b + c + d|..] == field;
  }

  /** The parser finds in a record what was laid out. */
  lemma LaidFields(watch: int, mask: nat, cookie: nat, field: seq<Byte>)
    requires -0x8000_0000 <= watch < 0x8000_0000 && mask < 0x1_0000_0000 && |field| < 0x1_0000_0000
    ensures var r := Laid(watch, mask, cookie, field);
            && RecordSize(r) == |r| && Watch(r) == watch
            && Mask(r) == (set i: nat | i < 32 && BitOf(mask, i))
            && (Overflowed(r) <==> BitOf(mask, 14))
            && (IsRecord(r) <==> !BitOf(mask, 14))
  {
    LaidPieces(watch, mask, cookie, field);
    assert Pow256(4) == 256 * Pow256(3) == 256 * (256 * Pow256(2)) == 0x1_0000_0000;
    UnsignedEncode(mask, 4);
    UnsignedEncode(|field|, 4);
    Signed32Word(watch);
  }

  /** A laid out record is about the goal exactly if its watch and its name, up to the padding, are. */
  lemma LaidMatchesIff(watch: int, mask: nat, cookie: nat, name: seq<Byte>, padding: seq<Byte>, goal: Goal)
    requires -0x8000_0000 <= watch < 0x8000_0000 && mask < 0x1_0000_0000 && |name + padding| < 0x1_0000_0000
    requires !HasNul(name) && (name != [] ==> padding != []) && (padding != [] ==> padding[0] == 0)
    ensures Matches(Laid(watch, mask, cookie, name + padding), goal) <==>
            watch == goal.watch && padding != [] && name == goal.name
  {
    var r := Laid(watch, mask, cookie, name + padding);
    LaidFields(watch, mask, cookie, name + padding);
    LaidPieces(watch, mask, cookie, name + padding);
    if padding != [] {
      TextIsUnique(name + padding, name);
    }
  }

  function Hit(r: seq<Byte>, goal: Goal): Bits
    requires HEADER <= |r|
  {
    if Matches(r, goal) then Mask(r) * goal.required else {}
  }

  /** What observed becomes once the records have been looked at. */
  function Observe(observed: Bits, rs: seq<seq<Byte>>, goal: Goal): Bits
    requires AllRecords(rs)
    decreases |rs|
  {
    if rs == [] then observed else Observe(observed + Hit(rs[0], goal), rs[1..], goal)
  }

  lemma {:induction false} ObserveAppend(observed: Bits, a: seq<seq<Byte>>, b: seq<seq<Byte>>, goal: Goal)
    requires AllRecords(a) && AllRecords(b)
    ensures AllRecords(a + b) && Observe(observed, a + b, goal) == Observe(Observe(observed, a, goal), b, goal)
    decreases |a|
  {
    if a == [] {
      assert a + b == b;
    } else {
      assert (a + b)[1..] == a[1..] + b;
      ObserveAppend(observed + Hit(a[0], goal), a[1..], b, goal);
    }
  }

  predicate Carried(rs: seq<seq<Byte>>, goal: Goal, bit: nat)
    requires AllRecords(rs)
  {
    exists i :: 0 <= i < |rs| && bit in Hit(rs[i], goal)
  }

  /** A bit is observed exactly when it was already, or a matching record carries it and it is required. */
  lemma {:induction false} ObserveIff(observed: Bits, rs: seq<seq<Byte>>, goal: Goal, bit: nat)
    requires AllRecords(rs)
    ensures bit in Observe(observed, rs, goal) <==>
            bit in observed || Carried(rs, goal, bit)
    decreases |rs|
  {
    if rs == [] {
    } else {
      ObserveIff(observed + Hit(rs[0], goal), rs[1..], goal, bit);
      assert Carried(rs, goal, bit) <==> bit in Hit(rs[0], goal) || Carried(rs[1..], goal, bit) by {
        if i :| 0 <= i < |rs[1..]| && bit in Hit(rs[1..][i], goal) {
          assert bit in Hit(rs[i + 1], goal);
        }
      }
    }
  }

  lemma {:induction false} ObserveGrows(observed: Bits, rs: seq<seq<Byte>>, goal: Goal)
    requires AllRecords(rs)
    ensures observed <= Observe(observed, rs, goal) <= observed + goal.required
    decreases |rs|
  {
    if rs == [] {
    } else {
      ObserveGrows(observed + Hit(rs[0], goal), rs[1..], goal);
    }
  }

  // --------------------------------------------------------------- the parser

  /** The kernel terminates the name of every record that has one. */
  predicate NamesTerminated(b: seq<Byte>)
    decreases |b|
  {
    StartsComplete(b) && !Overflowed(b) ==>
      && (HEADER < RecordSize(b) ==> HasNul(b[HEADER..RecordSize(b)]))
      && NamesTerminated(b[RecordSize(b)..])
  }

  datatype Parse = Parsed(observed: Bits) | Truncated | Overflow | Trailing

  /** Why the parser gives up in front of the bytes rest. */
  predicate Rejects(p: Parse, rest: seq<Byte>) {
    match p
    case Parsed(_) => false
    case Truncated => HEADER <= |rest| < RecordSize(rest)
    case Overflow => StartsComplete(rest) && Overflowed(rest)
    case Trailing => 0 < |rest| < HEADER
  }

  /** rs are the records before offset, in a buffer of which length bytes count. */
  ghost predicate Scanned(b: seq<Byte>, offset: nat, rs: seq<seq<Byte>>) {
    offset <= |b| && AllRecords(rs) && Concat(rs) == b[..offset]
  }

  lemma {:induction false} ConcatSnoc(rs: seq<seq<Byte>>, r: seq<Byte>)
    ensures Concat(rs + [r]) == Concat(rs) + r
  {
    if rs == [] {
      assert [r][1..] == [];
    } else {
      assert (rs + [r])[1..] == rs[1..] + [r];
      ConcatSnoc(rs[1..], r);
    }
  }

  lemma {:induction false} SplitFails(b: seq<Byte>, offset: nat, rs: seq<seq<Byte>>, p: Parse)
    requires Scanned(b, offset, rs) && Rejects(p, b[offset..])
    ensures Split(b).None?
    decreases |rs|
  {
    if rs == [] {
      assert b[offset..] == b;
    } else {
      var r := rs[0];
      assert IsRecord(r) && Concat(rs) == r + Concat(rs[1..]);
      assert b == b[..offset] + b[offset..];
      FrontOfRecord(b, r);
      var rest := b[|r|..];
      assert rest[..offset - |r|] == Concat(rs[1..]);
      assert rest[offset - |r|..] == b[offset..];
      SplitFails(rest, offset - |r|, rs[1..], p);
    }
  }

  /** rs are the records before offset, and seen is what they add to observed. */
  ghost predicate Scanning(b: seq<Byte>, offset: nat, rs: seq<seq<Byte>>, goal: Goal, observed: Bits, seen: Bits) {
    Scanned(b, offset, rs) && NamesTerminated(b[offset..]) && seen == Observe(observed, rs, goal)
  }

  lemma ScannedMore(b: seq<Byte>, offset: nat, rs: seq<seq<Byte>>, r: seq<Byte>)
    requires Scanned(b, offset, rs) && IsRecord(r) && r <= b[offset..]
    ensures Scanned(b, offset + |r|, rs + [r])
  {
    ConcatSnoc(rs, r);
    assert b[..offset + |r|] == b[..offset] + b[offset..][..|r|];
  }

  /** strcmp on the whole buffer reads no further than the record's own name field. */
  lemma NameStopsInside(buffer: seq<Byte>, offset: nat, r: seq<Byte>)
    requires HEADER <= |r| && offset + |r| <= |buffer| && buffer[offset..offset + |r|] == r && HasNul(r[HEADER..])
    ensures HasNul(buffer[offset + HEADER..])
    ensures Text(buffer[offset + HEADER..]) == Text(r[HEADER..])
  {
    assert buffer[offset + HEADER..] == r[HEADER..] + buffer[offset + |r|..];
    TextStopsInside(r[HEADER..], buffer[offset + |r|..]);
  }

  /** What one turn of the inner loop does with the record event at offset. */
  lemma ScanStep(b: seq<Byte>, offset: nat, rs: seq<seq<Byte>>, goal: Goal, observed: Bits, seen: Bits,
                 event: seq<Byte>, r: seq<Byte>)
    requires Scanning(b, offset, rs, goal, observed, seen) && event == b[offset..]
    requires StartsComplete(event) && !Overflowed(event) && r == event[..RecordSize(event)]
    ensures HEADER < |r| ==> HasNul(r[HEADER..])
    ensures Scanning(b, offset + |r|, rs + [r], goal, observed, seen + Hit(r, goal))
  {
    FrontOfRecord(event, r);
    ScannedMore(b, offset, rs, r);
    assert event[|r|..] == b[offset + |r|..];
    assert event[HEADER..|r|] == r[HEADER..];
    ObserveAppend(observed, rs, [r], goal);
    assert [r][1..] == [];
  }

  /** The parser takes all records of b. */
  ghost predicate TakenAs(b: seq<Byte>, goal: Goal, observed: Bits, seen: Bits) {
    Split(b).Some? && AllRecords(Split(b).value) && seen == Observe(observed, Split(b).value, goal)
  }

  lemma ScanStops(b: seq<Byte>, rs: seq<seq<Byte>>, goal: Goal, observed: Bits, seen: Bits)
    requires Scanning(b, |b|, rs, goal, observed, seen)
    ensures TakenAs(b, goal, observed, seen)
  {
    assert b[..|b|] == b;
    SplitIsComplete(rs);
  }

  /** The parser refuses b with p: p is what stands behind some complete records of b. */
  ghost predicate RefusedAs(b: seq<Byte>, p: Parse) {
    Split(b).None? && exists offset: nat, rs :: Scanned(b, offset, rs) && Rejects(p, b[offset..])
  }

  lemma Refuse(b: seq<Byte>, offset: nat, rs: seq<seq<Byte>>, p: Parse)
    requires Scanned(b, offset, rs) && Rejects(p, b[offset..])
    ensures RefusedAs(b, p)
  {
    SplitFails(b, offset, rs, p);
  }

  /** Lines 144-147: what the complete record at the front of event adds to observed. */
  method Look(buffer: seq<Byte>, offset: nat, r: seq<Byte>, goal: Goal, observed: Bits) returns (seen: Bits)
    requires HEADER <= |r| && offset + |r| <= |buffer| && buffer[offset..offset + |r|] == r
    requires HEADER < |r| ==> HasNul(r[HEADER..])
    ensures seen == observed + Hit(r, goal)
  {
    seen := observed;
    if Watch(r) == goal.watch && |r| > HEADER {
      NameStopsInside(buffer, offset, r);
      if StringEquals(buffer[offset + HEADER..], goal.name) {
        seen := observed + Mask(r) * goal.required;
      }
    }
  }

  /** Lines 131-153: the inner loop over the length bytes that were read. */
  method ParseBuffer(buffer: seq<Byte>, length: nat, goal: Goal, observed: Bits) returns (p: Parse)
    requires length <= |buffer| && NamesTerminated(buffer[..length])
    ensures p.Parsed? <==> Split(buffer[..length]).Some?
    ensures p.Parsed? ==> TakenAs(buffer[..length], goal, observed, p.observed)
    ensures !p.Parsed? ==> RefusedAs(buffer[..length], p)
  {
    ghost var b := buffer[..length];
    ghost var rs: seq<seq<Byte>> := [];
    var seen, offset := observed, 0;
    assert b[0..] == b;
    while offset + HEADER <= length
      invariant 0 <= offset <= length
      invariant Scanning(b, offset, rs, goal, observed, seen)
    {
      var event := buffer[offset..length];
      assert event == b[offset..];
      var eventSize := RecordSize(event);
      if eventSize > length - offset {
        Refuse(b, offset, rs, Truncated);
        return Truncated;
      }
      if Overflowed(event) {
        Refuse(b, offset, rs, Overflow);
        return Overflow;
      }
      var r := event[..eventSize];
      assert r == buffer[offset..offset + eventSize];
      ScanStep(b, offset, rs, goal, observed, seen, event, r);
      seen := Look(buffer, offset, r, goal, seen);
      rs := rs + [r];
      offset := offset + eventSize;
    }
    if offset != length {
      Refuse(b, offset, rs, Trailing);
      return Trailing;
    }
    ScanStops(b, rs, goal, observed, seen);
    return Parsed(seen);
  }

  // ------------------------------------------------------------- the outer loop

  datatype PollReply = PollInterrupted | Ready | TimedOut | PollError | Hangup

  datatype ReadReply = ReadInterrupted | Again | ReadError | Data(bytes: seq<Byte>)

  /** The first k polls were interrupted, or found something to read. */
  predicate PollsOk(polls: seq<PollReply>, k: nat) {
    k <= |polls| && forall i :: 0 <= i < k ==> polls[i].PollInterrupted? || polls[i].Ready?
  }

  /** The poll before k, the first that is neither, came back with p; past the last one they time out. */
  predicate FailedPoll(polls: seq<PollReply>, k: nat, p: PollReply) {
    || (0 < k && PollsOk(polls, k - 1) && k <= |polls| && polls[k - 1] == p && !p.PollInterrupted? && !p.Ready?)
    || (k == |polls| && PollsOk(polls, k) && p.TimedOut?)
  }

  /** The answers the kernel gives about the inotify descriptor; it goes quiet in the end. */
  class Inotify {
    const polls: seq<PollReply>
    const replies: seq<ReadReply>
    var nextPoll: nat
    var next: nat

    ghost predicate Valid()
      reads this
    {
      nextPoll <= |polls| && next <= |replies|
    }

    constructor (polls: seq<PollReply>, replies: seq<ReadReply>)
      ensures Valid() && this.polls == polls && this.replies == replies && nextPoll == next == 0
    {
      this.polls, this.replies, nextPoll, next := polls, replies, 0, 0;
    }

    /** poll, repeated while it is interrupted. */
    method Poll() returns (p: PollReply)
      requires Valid()
      modifies this`nextPoll
      ensures Valid() && !p.PollInterrupted? && old(nextPoll) <= nextPoll
      ensures old(nextPoll) < nextPoll || p.TimedOut?
      ensures PollsOk(polls, old(nextPoll)) ==>
                if p.Ready? then PollsOk(polls, nextPoll) else FailedPoll(polls, nextPoll, p)
      ensures GoodPolls(polls) ==>
                if p.TimedOut? then Readies(polls[old(nextPoll)..]) == 0
                else p.Ready? && Readies(polls[old(nextPoll)..]) == 1 + Readies(polls[nextPoll..])
    {
      while nextPoll < |polls|
        invariant old(nextPoll) <= nextPoll <= |polls|
        invariant PollsOk(polls, old(nextPoll)) ==> PollsOk(polls, nextPoll)
        invariant GoodPolls(polls) ==> Readies(polls[nextPoll..]) == Readies(polls[old(nextPoll)..])
      {
        p := polls[nextPoll];
        assert polls[nextPoll..][1..] == polls[nextPoll + 1..];
        nextPoll := nextPoll + 1;
        if !p.PollInterrupted? {
          return;
        }
      }
      return TimedOut;
    }

    /** read, repeated while it is interrupted. */
    method Read() returns (r: ReadReply)
      requires Valid()
      modifies this`next
      ensures Valid() && Took(replies, old(next), next, r)
    {
      while next < |replies|
        invariant old(next) <= next <= |replies|
        invariant Interrupted(replies, old(next), next)
      {
        r := replies[next];
        next := next + 1;
        if !r.ReadInterrupted? {
          return;
        }
      }
      r := Again;
    }
  }

  predicate Interrupted(replies: seq<ReadReply>, k: nat, m: nat)
    requires k <= m <= |replies|
  {
    forall i :: k <= i < m ==> replies[i].ReadInterrupted?
  }

  /** r is the answer before m, after interruptions only since k. */
  predicate Arrived(replies: seq<ReadReply>, k: nat, m: nat, r: ReadReply) {
    k < m <= |replies| && replies[m - 1] == r && Interrupted(replies, k, m - 1)
  }

  /** A read that used up the answers k..m came back with r; past the last answer it finds nothing. */
  predicate Took(replies: seq<ReadReply>, k: nat, m: nat, r: ReadReply) {
    && !r.ReadInterrupted?
    && (Arrived(replies, k, m, r) || (k <= m == |replies| && r.Again? && Interrupted(replies, k, m)))
  }

  predicate GoodPolls(polls: seq<PollReply>) {
    forall i :: 0 <= i < |polls| ==> polls[i].PollInterrupted? || polls[i].Ready?
  }

  function Readies(polls: seq<PollReply>): nat {
    if polls == [] then 0 else (if polls[0].Ready? then 1 else 0) + Readies(polls[1..])
  }

  /** Nothing but interruptions, empty-handed reads, and buffers of complete overflow-free records. */
  predicate GoodRead(r: ReadReply) {
    r.ReadInterrupted? || r.Again? || (r.Data? && r.bytes != [] && Split(r.bytes).Some?)
  }

  predicate GoodReads(replies: seq<ReadReply>) {
    forall i :: 0 <= i < |replies| ==> GoodRead(replies[i])
  }

  predicate NamesOk(replies: seq<ReadReply>) {
    forall i :: 0 <= i < |replies| && replies[i].Data? ==> NamesTerminated(replies[i].bytes)
  }

  /** The reads that end a turn of the outer loop. */
  function Turns(replies: seq<ReadReply>): nat {
    if replies == [] then 0 else (if replies[0].ReadInterrupted? then 0 else 1) + Turns(replies[1..])
  }

  function RecordsOf(r: ReadReply): (rs: seq<seq<Byte>>)
    requires GoodRead(r)
    ensures AllRecords(rs)
  {
    if r.Data? then
      SplitIsSound(r.bytes);
      Split(r.bytes).value
    else []
  }

  /** Everything the reads deliver, in order. */
  function Records(replies: seq<ReadReply>): (rs: seq<seq<Byte>>)
    requires GoodReads(replies)
    ensures AllRecords(rs)
  {
    if replies == [] then [] else Records(replies[..|replies| - 1]) + RecordsOf(replies[|replies| - 1])
  }

  /** The bytes the reads deliver, in order. */
  function Stream(replies: seq<ReadReply>): seq<Byte> {
    if replies == [] then []
    else
      var last := replies[|replies| - 1];
      Stream(replies[..|replies| - 1]) + if last.Data? then last.bytes else []
  }

  function Observed(replies: seq<ReadReply>, goal: Goal): Bits
    requires GoodReads(replies)
  {
    Observe({}, Records(replies), goal)
  }

  lemma ObservedSnoc(replies: seq<ReadReply>, r: ReadReply, goal: Goal)
    requires GoodReads(replies) && GoodRead(r)
    ensures GoodReads(replies + [r])
    ensures Observed(replies + [r], goal) == Observe(Observed(replies, goal), RecordsOf(r), goal)
    ensures Observed(replies, goal) <= Observed(replies + [r], goal)
  {
    var all := replies + [r];
    assert all[..|all| - 1] == replies;
    ObserveAppend({}, Records(replies), RecordsOf(r), goal);
    ObserveGrows(Observed(replies, goal), RecordsOf(r), goal);
  }

  lemma {:induction false} ObservedMonotone(replies: seq<ReadReply>, k: nat, goal: Goal)
    requires GoodReads(replies) && k <= |replies|
    ensures GoodReads(replies[..k]) && Observed(replies[..k], goal) <= Observed(replies, goal)
  {
    if k < |replies| {
      var init := replies[..|replies| - 1];
      assert replies == init + [replies[|replies| - 1]] && replies[..k] == init[..k];
      ObservedSnoc(init, replies[|replies| - 1], goal);
      ObservedMonotone(init, k, goal);
    } else {
      assert replies[..k] == replies;
    }
  }

  /** observed is what the answers before k have shown. */
  ghost predicate SoFar(replies: seq<ReadReply>, k: nat, goal: Goal, observed: Bits) {
    k <= |replies| && GoodReads(replies[..k]) && observed == Observed(replies[..k], goal)
  }

  lemma ReplyAdds(replies: seq<ReadReply>, m: nat, goal: Goal, observed: Bits)
    requires 0 < m <= |replies| && SoFar(replies, m - 1, goal, observed) && GoodRead(replies[m - 1])
    ensures SoFar(replies, m, goal, Observe(observed, RecordsOf(replies[m - 1]), goal))
  {
    assert replies[..m] == replies[..m - 1] + [replies[m - 1]];
    ObservedSnoc(replies[..m - 1], replies[m - 1], goal);
  }

  lemma SilentReply(replies: seq<ReadReply>, m: nat, goal: Goal, observed: Bits)
    requires 0 < m <= |replies| && SoFar(replies, m - 1, goal, observed)
    requires !replies[m - 1].Data? && GoodRead(replies[m - 1])
    ensures SoFar(replies, m, goal, observed)
  {
    ReplyAdds(replies, m, goal, observed);
    assert RecordsOf(replies[m - 1]) == [];
  }

  lemma {:induction false} InterruptionsAreSilent(replies: seq<ReadReply>, k: nat, n: nat, goal: Goal, observed: Bits)
    requires k <= n <= |replies| && SoFar(replies, k, goal, observed) && Interrupted(replies, k, n)
    ensures SoFar(replies, n, goal, observed)
    decreases n
  {
    if k == n {
    } else {
      InterruptionsAreSilent(replies, k, n - 1, goal, observed);
      SilentReply(replies, n, goal, observed);
    }
  }

  lemma {:induction false} InterruptionsTakeNoTurn(replies: seq<ReadReply>, k: nat, n: nat)
    requires k <= n <= |replies|
    requires Interrupted(replies, k, n)
    ensures Turns(replies[k..]) == Turns(replies[n..])
    decreases n
  {
    if k == n {
    } else {
      InterruptionsTakeNoTurn(replies, k, n - 1);
      assert replies[n - 1..][1..] == replies[n..];
    }
  }

  datatype Verdict =
    | Success
    | NoMoreEvents
    | PollFailed | PollHangup | ReadFailed | UnexpectedEof
    | BadBuffer(p: Parse)

  /** A turn that finds nothing to read adds nothing. */
  lemma EmptyTurn(replies: seq<ReadReply>, k: nat, m: nat, goal: Goal, observed: Bits)
    requires Took(replies, k, m, Again) && SoFar(replies, k, goal, observed)
    ensures SoFar(replies, m, goal, observed)
  {
    var n := if Arrived(replies, k, m, Again) then m - 1 else m;
    InterruptionsAreSilent(replies, k, n, goal, observed);
    if n < m {
      SilentReply(replies, m, goal, observed);
    }
  }

  lemma TurnCounts(replies: seq<ReadReply>, k: nat, m: nat, reply: ReadReply)
    requires Took(replies, k, m, reply)
    ensures Turns(replies[m..]) == 0 || Turns(replies[m..]) == Turns(replies[k..]) - 1
    ensures GoodReads(replies) ==> GoodRead(reply)
  {
    if Arrived(replies, k, m, reply) {
      InterruptionsTakeNoTurn(replies, k, m - 1);
      assert replies[m - 1..][1..] == replies[m..];
    }
  }

  lemma {:induction false} NoTurnsLeft(replies: seq<ReadReply>)
    requires Turns(replies) == 0
    ensures forall i :: 0 <= i < |replies| ==> replies[i].ReadInterrupted?
  {
    if replies == [] {
    } else {
      NoTurnsLeft(replies[1..]);
      assert forall i :: 1 <= i < |replies| ==> replies[i] == replies[1..][i - 1];
    }
  }

  /** When no turn is left, everything the reads deliver has been observed. */
  lemma QuietEnd(replies: seq<ReadReply>, k: nat, goal: Goal, observed: Bits)
    requires GoodReads(replies) && SoFar(replies, k, goal, observed) && Turns(replies[k..]) == 0
    ensures observed == Observed(replies, goal)
  {
    NoTurnsLeft(replies[k..]);
    assert forall i :: k <= i < |replies| ==> replies[i] == replies[k..][i - k];
    InterruptionsAreSilent(replies, k, |replies|, goal, observed);
    assert replies[..|replies|] == replies;
  }

  // ----------------------------------------------------------- why the program stops

  /** The poll before p failed, and v says how. */
  predicate PollVerdict(polls: seq<PollReply>, p: nat, v: Verdict) {
    match v
    case NoMoreEvents => FailedPoll(polls, p, TimedOut)
    case PollFailed => FailedPoll(polls, p, PollError)
    case PollHangup => FailedPoll(polls, p, Hangup)
    case _ => false
  }

  /** The answer before n is one that the program cannot take, and v says why. */
  ghost predicate FailedRead(replies: seq<ReadReply>, n: nat, v: Verdict) {
    && 0 < n <= |replies|
    && match replies[n - 1]
       case ReadError => v.ReadFailed?
       case Data(b) => if b == [] then v.UnexpectedEof? else v.BadBuffer? && RefusedAs(b, v.p)
       case _ => false
  }

  /** The answers before n are good and do not show all the required events. */
  ghost predicate Unsatisfied(replies: seq<ReadReply>, n: nat, goal: Goal) {
    n <= |replies| && GoodReads(replies[..n]) && !(goal.required <= Observed(replies[..n], goal))
  }

  /**
   * v is the right verdict on the first p polls and n reads: it names the first one
   * that was not good, all those before leaving something to wait for.
   */
  ghost predicate Explains(v: Verdict, polls: seq<PollReply>, p: nat, replies: seq<ReadReply>, n: nat, goal: Goal) {
    if v.Success? then n <= |replies| && GoodReads(replies[..n]) && goal.required <= Observed(replies[..n], goal)
    else
      || (PollVerdict(polls, p, v) && Unsatisfied(replies, n, goal))
      || (PollsOk(polls, p) && FailedRead(replies, n, v) && Unsatisfied(replies, n - 1, goal))
  }

  lemma PollExplains(v: Verdict, polls: seq<PollReply>, p: nat, replies: seq<ReadReply>, n: nat, goal: Goal,
                     observed: Bits)
    requires PollVerdict(polls, p, v) && SoFar(replies, n, goal, observed) && !(goal.required <= observed)
    ensures Explains(v, polls, p, replies, n, goal) && !v.Success?
  {
    assert Unsatisfied(replies, n, goal);
  }

  lemma ReadExplains(v: Verdict, polls: seq<PollReply>, p: nat, replies: seq<ReadReply>, n: nat, goal: Goal,
                     observed: Bits)
    requires FailedRead(replies, n, v) && SoFar(replies, n - 1, goal, observed) && !(goal.required <= observed)
    requires PollsOk(polls, p)
    ensures Explains(v, polls, p, replies, n, goal) && !v.Success?
  {
    assert Unsatisfied(replies, n - 1, goal);
  }

  /** The verdict when no poll and no read fails. */
  function Outcome(replies: seq<ReadReply>, goal: Goal): Verdict
    requires GoodReads(replies)
  {
    if goal.required <= Observed(replies, goal) then Success else NoMoreEvents
  }

  // ---------------------------------------------------------- the outer loop, in code

  /** What is left to do fits in what poll will still report. */
  ghost predicate EnoughPolls(fd: Inotify)
    reads fd
    requires fd.Valid()
  {
    && GoodPolls(fd.polls)
    && GoodReads(fd.replies)
    && Turns(fd.replies[fd.next..]) <= Readies(fd.polls[fd.nextPoll..])
  }

  /** Lines 95-130: wait for something to read and read it; failed is why nothing was read. */
  method PollAndRead(fd: Inotify) returns (reply: ReadReply, failed: Option<Verdict>)
    requires fd.Valid() && PollsOk(fd.polls, fd.nextPoll)
    modifies fd
    ensures fd.Valid()
    ensures failed.None? ==>
              && old(fd.nextPoll) < fd.nextPoll && PollsOk(fd.polls, fd.nextPoll)
              && Took(fd.replies, old(fd.next), fd.next, reply)
    ensures failed.None? && old(EnoughPolls(fd)) ==> EnoughPolls(fd) && GoodRead(reply)
    ensures failed.Some? ==> fd.next == old(fd.next)
    ensures failed.Some? ==> PollVerdict(fd.polls, fd.nextPoll, failed.value)
    ensures failed.Some? && old(EnoughPolls(fd)) ==> failed.value.NoMoreEvents? && Turns(fd.replies[fd.next..]) == 0
  {
    reply := Again;
    var ready := fd.Poll();
    if ready.TimedOut? {
      return reply, Some(NoMoreEvents);
    }
    if ready.PollError? {
      return reply, Some(PollFailed);
    }
    if ready.Hangup? {
      return reply, Some(PollHangup);
    }
    ghost var k := fd.next;
    reply := fd.Read();
    TurnCounts(fd.replies, k, fd.next, reply);
    return reply, None;
  }

  /** A buffer that the parser has taken adds its records. */
  lemma TakenAdds(replies: seq<ReadReply>, m: nat, goal: Goal, observed: Bits, seen: Bits)
    requires 0 < m <= |replies| && SoFar(replies, m - 1, goal, observed)
    requires replies[m - 1].Data? && replies[m - 1].bytes != []
    requires TakenAs(replies[m - 1].bytes, goal, observed, seen)
    ensures GoodRead(replies[m - 1]) && SoFar(replies, m, goal, seen)
  {
    ReplyAdds(replies, m, goal, observed);
  }

  /** Lines 122-153: what the program makes of a read that did not come back empty-handed. */
  method TakeReply(ghost replies: seq<ReadReply>, ghost m: nat, reply: ReadReply, goal: Goal, before: Bits)
    returns (observed: Bits, failed: Option<Verdict>)
    requires 0 < m <= |replies| && reply == replies[m - 1] && SoFar(replies, m - 1, goal, before)
    requires !reply.ReadInterrupted? && !reply.Again? && (reply.Data? ==> NamesTerminated(reply.bytes))
    ensures failed.None? <==> GoodRead(reply)
    ensures failed.None? ==> SoFar(replies, m, goal, observed)
    ensures failed.Some? ==> FailedRead(replies, m, failed.value)
  {
    if reply.ReadError? {
      return before, Some(ReadFailed);
    }
    if reply.bytes == [] {
      return before, Some(UnexpectedEof);
    }
    assert reply.bytes[..|reply.bytes|] == reply.bytes;
    var p := ParseBuffer(reply.bytes, |reply.bytes|, goal, before);
    if !p.Parsed? {
      return before, Some(BadBuffer(p));
    }
    TakenAdds(replies, m, goal, before, p.observed);
    return p.observed, None;
  }

  lemma ReplyArrives(replies: seq<ReadReply>, k: nat, m: nat, reply: ReadReply, goal: Goal, observed: Bits)
    requires Took(replies, k, m, reply) && !reply.Again? && SoFar(replies, k, goal, observed)
    ensures 0 < m <= |replies| && replies[m - 1] == reply && SoFar(replies, m - 1, goal, observed)
  {
    InterruptionsAreSilent(replies, k, m - 1, goal, observed);
  }

  /** Lines 119-153: the rest of a turn, once something was read, or nothing found. */
  method Digest(ghost polls: seq<PollReply>, ghost p: nat, ghost replies: seq<ReadReply>, ghost k: nat, ghost m: nat,
                reply: ReadReply, goal: Goal, before: Bits)
    returns (observed: Bits, failed: Option<Verdict>)
    requires PollsOk(polls, p) && Took(replies, k, m, reply) && NamesOk(replies)
    requires SoFar(replies, k, goal, before) && !(goal.required <= before)
    ensures failed.None? <==> GoodRead(reply)
    ensures failed.None? ==> SoFar(replies, m, goal, observed)
    ensures failed.Some? ==> !failed.value.Success? && Explains(failed.value, polls, p, replies, m, goal)
  {
    if reply.Again? {
      EmptyTurn(replies, k, m, goal, before);
      return before, None;
    }
    ReplyArrives(replies, k, m, reply, goal, before);
    observed, failed := TakeReply(replies, m, reply, goal, before);
    if failed.Some? {
      ReadExplains(failed.value, polls, p, replies, m, goal, before);
    }
  }

  /** Lines 95-153: one turn of the outer loop; failed is why the program gives up, if it does. */
  method Turn(fd: Inotify, goal: Goal, before: Bits) returns (observed: Bits, failed: Option<Verdict>)
    requires fd.Valid() && SoFar(fd.replies, fd.next, goal, before) && NamesOk(fd.replies)
    requires PollsOk(fd.polls, fd.nextPoll) && !(goal.required <= before)
    modifies fd
    ensures fd.Valid()
    ensures failed.None? ==>
              && old(fd.nextPoll) < fd.nextPoll && PollsOk(fd.polls, fd.nextPoll)
              && SoFar(fd.replies, fd.next, goal, observed)
    ensures failed.Some? ==>
              && !failed.value.Success?
              && Explains(failed.value, fd.polls, fd.nextPoll, fd.replies, fd.next, goal)
    ensures old(EnoughPolls(fd)) && failed.None? ==> EnoughPolls(fd)
    ensures old(EnoughPolls(fd)) && failed.Some? ==>
              failed.value.NoMoreEvents? && before == Observed(fd.replies, goal)
  {
    ghost var good, k := EnoughPolls(fd), fd.next;
    var reply;
    observed := before;
    reply, failed := PollAndRead(fd);
    if failed.Some? {
      if good { QuietEnd(fd.replies, fd.next, goal, before); }
      PollExplains(failed.value, fd.polls, fd.nextPoll, fd.replies, fd.next, goal, before);
      return;
    }
    observed, failed := Digest(fd.polls, fd.nextPoll, fd.replies, k, fd.next, reply, goal, before);
  }

  /**
   * Lines 93-154.  The verdict is explained by what was polled and read: success by
   * records that cover the required events, and a failure by the first poll or
   * read that was not good.  When the reads deliver only good buffers, with any
   * interruptions in between, and poll reports each of them, the verdict is exactly
   * whether all the records together cover the required events.
   */
  method WaitForEvents(fd: Inotify, goal: Goal) returns (v: Verdict)
    requires fd.Valid() && fd.next == 0 && fd.nextPoll == 0 && NamesOk(fd.replies)
    modifies fd
    ensures Explains(v, fd.polls, fd.nextPoll, fd.replies, fd.next, goal)
    ensures old(EnoughPolls(fd)) ==> v == Outcome(fd.replies, goal)
  {
    ghost var good := EnoughPolls(fd);
    var observed: Bits := {};
    assert fd.replies[..0] == [];
    while !(goal.required <= observed)
      invariant fd.Valid() && SoFar(fd.replies, fd.next, goal, observed) && PollsOk(fd.polls, fd.nextPoll)
      invariant good ==> EnoughPolls(fd)
      decreases |fd.polls| - fd.nextPoll
    {
      var failed;
      observed, failed := Turn(fd, goal, observed);
      if failed.Some? {
        return failed.value;
      }
    }
    if good { ObservedMonotone(fd.replies, fd.next, goal); }
    return Success;
  }

  // ------------------------------------------------------------------------ batching

  lemma {:induction false} ConcatAppend(a: seq<seq<Byte>>, b: seq<seq<Byte>>)
    ensures Concat(a + b) == Concat(a) + Concat(b)
  {
    if a == [] {
      assert a + b == b;
    } else {
      assert (a + b)[1..] == a[1..] + b;
      ConcatAppend(a[1..], b);
    }
  }

  /** The records depend only on the bytes delivered, not on how reads cut them up. */
  lemma {:induction false} RecordsOfStream(replies: seq<ReadReply>)
    requires GoodReads(replies)
    ensures Split(Stream(replies)) == Some(Records(replies))
  {
    if replies == [] {
    } else {
      var init, last := replies[..|replies| - 1], replies[|replies| - 1];
      RecordsOfStream(init);
      SplitIff(Stream(init), Records(init));
      if last.Data? { SplitIff(last.bytes, RecordsOf(last)); }
      ConcatAppend(Records(init), RecordsOf(last));
      SplitIff(Stream(replies), Records(replies));
    }
  }

  /**
   * Batching independence: two deliveries of one byte stream lead to the same
   * observation, and so to the same verdict of WaitForEvents.
   */
  lemma BatchingIsIrrelevant(replies: seq<ReadReply>, others: seq<ReadReply>, goal: Goal)
    requires GoodReads(replies) && GoodReads(others) && Stream(replies) == Stream(others)
    ensures Observed(replies, goal) == Observed(others, goal)
    ensures Outcome(replies, goal) == Outcome(others, goal)
  {
    RecordsOfStream(replies);
    RecordsOfStream(others);
  }

  /** The events are all observed exactly when each has a matching record that carries it. */
  lemma CoveredIff(replies: seq<ReadReply>, goal: Goal)
    requires GoodReads(replies)
    ensures goal.required <= Observed(replies, goal) <==>
            forall bit :: bit in goal.required ==> Carried(Records(replies), goal, bit)
  {
    forall bit | bit in goal.required
      ensures bit in Observed(replies, goal) <==> Carried(Records(replies), goal, bit)
    {
      ObserveIff({}, Records(replies), goal, bit);
    }
  }
}
