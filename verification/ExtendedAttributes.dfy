/**
 * experiments/28_extended_attributes: search a list of NUL-terminated names, as
 * flistxattr returns it, for one name.
 */
module ExtendedAttributes {

  import opened Bytes

  /** The complete, NUL-terminated names of a list; an unterminated rest is not one. */
  function Entries(list: seq<Byte>): seq<seq<Byte>> {
    if |Text(list)| == |list| then []
    else [Text(list)] + Entries(list[|Text(list)| + 1..])
  }

  predicate Contains(list: seq<Byte>, expected: seq<Byte>) {
    expected in Entries(list)
  }

  /** expected starts at p, right at a boundary between names, and ends in a NUL. */
  predicate EntryAt(list: seq<Byte>, p: nat, expected: seq<Byte>) {
    && p + |expected| < |list|
    && (p == 0 || list[p - 1] == 0)
    && list[p + |expected|] == 0
    && forall k :: 0 <= k < |expected| ==> list[p + k] == expected[k]
  }

  method ListContains(list: seq<Byte>, listSize: nat, expected: seq<Byte>) returns (found: bool)
    requires listSize <= |list| && !HasNul(expected)
    ensures found <==> Contains(list[..listSize], expected)
  {
    var offset := 0;
    assert list[0..listSize] == list[..listSize];
    while offset < listSize
      invariant 0 <= offset <= listSize
      invariant Contains(list[offset..listSize], expected) <==> Contains(list[..listSize], expected)
    {
      var remaining := listSize - offset;
      var nameSize := |Text(list[offset..listSize])|;
      ScanName(list, offset, listSize, expected);
      if nameSize == remaining {
        return false;
      }
      if StringEquals(list[offset..], expected) {
        return true;
      }
      offset := offset + nameSize + 1;
    }
    return false;
  }

  /** What one turn of the loop decides about the rest of the list. */
  lemma ScanName(list: seq<Byte>, offset: nat, size: nat, expected: seq<Byte>)
    requires offset < size <= |list|
    ensures var n := |Text(list[offset..size])|;
            if n == size - offset then !Contains(list[offset..size], expected)
            else
              && offset + n < size
              && HasNul(list[offset..])
              && (Contains(list[offset..size], expected) <==>
                    StringEquals(list[offset..], expected) || Contains(list[offset + n + 1..size], expected))
  {
    var here := list[offset..size];
    if |Text(here)| < size - offset {
      NameStopsInside(list, offset, size);
      NextEntry(here, expected);
      assert here[|Text(here)| + 1..] == list[offset + |Text(here)| + 1..size];
    }
  }

  lemma NextEntry(list: seq<Byte>, expected: seq<Byte>)
    requires |Text(list)| < |list|
    ensures Contains(list, expected) <==> expected == Text(list) || Contains(list[|Text(list)| + 1..], expected)
  {
    assert Entries(list) == [Text(list)] + Entries(list[|Text(list)| + 1..]);
  }

  /** strcmp on the rest of the buffer stops inside the list. */
  lemma NameStopsInside(list: seq<Byte>, offset: nat, size: nat)
    requires offset <= size <= |list| && |Text(list[offset..size])| < size - offset
    ensures HasNul(list[offset..]) && Text(list[offset..]) == Text(list[offset..size])
  {
    NulBoundsText(list[offset..size]);
    assert list[offset..] == list[offset..size] + list[size..];
    TextStopsInside(list[offset..size], list[size..]);
  }

  lemma ShiftEntry(list: seq<Byte>, d: nat, p: nat, expected: seq<Byte>)
    requires 0 < d <= |list| && list[d - 1] == 0
    ensures EntryAt(list[d..], p, expected) <==> EntryAt(list, d + p, expected)
  {
    var rest := list[d..];
    if EntryAt(list, d + p, expected) {
      forall k | 0 <= k < |expected| ensures rest[p + k] == expected[k] { assert list[d + p + k] == expected[k]; }
    }
    if EntryAt(rest, p, expected) {
      forall k | 0 <= k < |expected| ensures list[d + p + k] == expected[k] { assert rest[p + k] == expected[k]; }
    }
  }

  lemma TextIsEntry(list: seq<Byte>)
    requires |Text(list)| < |list|
    ensures EntryAt(list, 0, Text(list)) && list[|Text(list)|] == 0
  {
    TextFacts(list);
  }

  lemma EntriesAreTerminated(list: seq<Byte>, expected: seq<Byte>)
    requires Contains(list, expected)
    ensures |Text(list)| < |list|
  {
  }

  lemma {:induction false} EntryIsBounded(list: seq<Byte>, expected: seq<Byte>) returns (p: nat)
    requires Contains(list, expected)
    ensures EntryAt(list, p, expected)
  {
    EntriesAreTerminated(list, expected);
    NextEntry(list, expected);
    TextIsEntry(list);
    if expected == Text(list) {
      p := 0;
    } else {
      var n := |Text(list)| + 1;
      p := EntryIsBounded(list[n..], expected);
      ShiftEntry(list, n, p, expected);
      p := n + p;
    }
  }

  lemma FirstEntry(list: seq<Byte>, expected: seq<Byte>)
    requires EntryAt(list, 0, expected) && !HasNul(expected)
    ensures Text(list) == expected
  {
    forall k | 0 <= k < |expected| ensures expected[k] == list[k] && expected[k] != 0 {
      assert list[0 + k] == expected[k];
    }
    TextIsUnique(list, expected);
  }

  lemma LaterEntry(list: seq<Byte>, p: nat, expected: seq<Byte>)
    requires EntryAt(list, p, expected) && 0 < p
    ensures |Text(list)| < p && EntryAt(list[|Text(list)| + 1..], p - |Text(list)| - 1, expected)
  {
    TextFacts(list);
    assert list[p - 1] == 0;
    ShiftEntry(list, |Text(list)| + 1, p - |Text(list)| - 1, expected);
  }

  lemma {:induction false} BoundedIsEntry(list: seq<Byte>, p: nat, expected: seq<Byte>)
    requires EntryAt(list, p, expected) && !HasNul(expected)
    ensures Contains(list, expected)
    decreases |list|
  {
    if p == 0 {
      FirstEntry(list, expected);
    } else {
      LaterEntry(list, p, expected);
      BoundedIsEntry(list[|Text(list)| + 1..], p - |Text(list)| - 1, expected);
    }
    NextEntry(list, expected);
  }

  /**
   * Exactness without mentioning the scan: a NUL-free name is found if and only if
   * it sits between two name boundaries, so never as a mere prefix or suffix.
   */
  lemma EntriesIff(list: seq<Byte>, expected: seq<Byte>)
    requires !HasNul(expected)
    ensures Contains(list, expected) <==> exists p: nat :: EntryAt(list, p, expected)
  {
    if Contains(list, expected) {
      var p := EntryIsBounded(list, expected);
    }
    if p: nat :| EntryAt(list, p, expected) {
      BoundedIsEntry(list, p, expected);
    }
  }

  function Encoded(names: seq<seq<Byte>>): seq<Byte> {
    if names == [] then [] else names[0] + [0] + Encoded(names[1..])
  }

  predicate AllNulFree(names: seq<seq<Byte>>) {
    forall i :: 0 <= i < |names| ==> !HasNul(names[i])
  }

  /** Round trip: the entries of an encoded list, whatever unterminated rest follows, are the names. */
  lemma {:induction false} EntriesOfEncoded(names: seq<seq<Byte>>, rest: seq<Byte>)
    requires AllNulFree(names) && !HasNul(rest)
    ensures Entries(Encoded(names) + rest) == names
  {
    if names == [] {
      assert Encoded(names) + rest == rest;
      NulBoundsText(rest);
    } else {
      var list := Encoded(names) + rest;
      assert list == names[0] + [0] + (Encoded(names[1..]) + rest);
      TextIsUnique(list, names[0]);
      assert list[|names[0]| + 1..] == Encoded(names[1..]) + rest;
      EntriesOfEncoded(names[1..], rest);
    }
  }
}
