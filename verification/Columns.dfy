/**
Columns of nullable values, packed as the Flight client sends and receives them
(`src/flight_client.cpp`): one tape of joined bytes, one offset more than there are values,
and a bit per value that tells whether it is there.
*/
module Columns {
  import opened Buffers
  import opened Store

  const MISSING: nat := 0xFFFF_FFFF

  // ---- Bits of octets (`include/ukv/cpp/ranges.hpp`) ----

  type Octet = bv8

  function Mask(j: nat): Octet
    requires j < 8
  {
    match j case 0 => 1 case 1 => 2 case 2 => 4 case 3 => 8 case 4 => 16 case 5 => 32 case 6 => 64 case _ => 128
  }

  predicate Bit(octet: Octet, j: nat)
    requires j < 8
  {
    octet & Mask(j) != 0
  }

  function WithBit(octet: Octet, j: nat, value: bool): Octet
    requires j < 8
  {
    if value then octet | Mask(j) else octet & !Mask(j)
  }

  /** The first value of an octet has its lowest bit, the last one its highest. */
  lemma {:induction false} LowestBitFirst(j: nat)
    requires j < 8
    ensures WithBit(0, j, true) as int == [1, 2, 4, 8, 16, 32, 64, 128][j]
  {
    match j case 0 => case 1 => case 2 => case 3 => case 4 => case 5 => case 6 => case _ =>
  }

  /** Assigning one bit of an octet leaves the other seven as they were. */
  lemma {:induction false} BitAssigned(octet: Octet, j: nat, value: bool, k: nat)
    requires j < 8 && k < 8
    ensures Bit(WithBit(octet, j, value), k) == if j == k then value else Bit(octet, k)
  {
  }

  predicate BitAt(octets: seq<Octet>, i: nat)
    requires i / 8 < |octets|
  {
    Bit(octets[i / 8], i % 8)
  }

  lemma {:induction false} BitAssignedAt(octets: seq<Octet>, i: nat, value: bool, k: nat)
    requires i / 8 < |octets| && k / 8 < |octets|
    ensures BitAt(octets[i / 8 := WithBit(octets[i / 8], i % 8, value)], k) == if i == k then value else BitAt(octets, k)
  {
    BitAssigned(octets[i / 8], i % 8, value, k % 8);
  }

  // ---- What a packed column stands for ----

  type Content = Option<Bytes>

  function BytesOf(value: Content): Bytes {
    if value.Some? then value.value else []
  }

  function Joined(contents: seq<Content>): Bytes {
    if contents == [] then [] else Joined(contents[..|contents| - 1]) + BytesOf(contents[|contents| - 1])
  }

  function OffsetOf(contents: seq<Content>, i: nat): nat
    requires i <= |contents|
  {
    |Joined(contents[..i])|
  }

  lemma {:induction false} NextOffset(contents: seq<Content>, i: nat)
    requires i < |contents|
    ensures Joined(contents[..i + 1]) == Joined(contents[..i]) + BytesOf(contents[i])
    ensures OffsetOf(contents, i + 1) == OffsetOf(contents, i) + |BytesOf(contents[i])|
  {
    assert contents[..i + 1][..i] == contents[..i];
  }

  lemma {:induction false} JoinedPrefix(contents: seq<Content>, i: nat)
    requires i <= |contents|
    ensures Joined(contents[..i]) <= Joined(contents)
    decreases |contents| - i
  {
    if i == |contents| {
      assert contents[..i] == contents;
    } else {
      NextOffset(contents, i);
      JoinedPrefix(contents, i + 1);
    }
  }

  /** Each value lies on the tape between its offset and the next. */
  lemma {:induction false} ValueOnTape(contents: seq<Content>, i: nat)
    requires i < |contents|
    ensures OffsetOf(contents, i + 1) == OffsetOf(contents, i) + |BytesOf(contents[i])|
    ensures OffsetOf(contents, i + 1) <= |Joined(contents)|
    ensures Joined(contents)[OffsetOf(contents, i)..OffsetOf(contents, i + 1)] == BytesOf(contents[i])
  {
    hide Joined;
    NextOffset(contents, i);
    JoinedPrefix(contents, i + 1);
    var upTo := Joined(contents[..i + 1]);
    assert Joined(contents)[..|upTo|] == upTo;
    assert upTo[OffsetOf(contents, i)..] == BytesOf(contents[i]);
  }

  ghost predicate IsOffsets(offsets: seq<int>, contents: seq<Content>, n: nat)
    requires n <= |contents|
  {
    n <= |offsets| && forall i :: 0 <= i < n ==> offsets[i] == OffsetOf(contents, i)
  }

  ghost predicate IsPresences(octets: seq<Octet>, contents: seq<Content>, n: nat)
    requires n <= |contents|
  {
    |octets| == (|contents| + 7) / 8 && forall i: nat :: i < n ==> BitAt(octets, i) == contents[i].Some?
  }

  lemma {:induction false} PresenceStep(octets: seq<Octet>, contents: seq<Content>, i: nat)
    requires i < |contents| && IsPresences(octets, contents, i)
    ensures IsPresences(octets[i / 8 := WithBit(octets[i / 8], i % 8, contents[i].Some?)], contents, i + 1)
  {
    hide BitAt, WithBit;
    var after := octets[i / 8 := WithBit(octets[i / 8], i % 8, contents[i].Some?)];
    forall k: nat | k < i + 1 ensures BitAt(after, k) == contents[k].Some? {
      BitAssignedAt(octets, i, contents[i].Some?, k);
    }
  }

  // ---- Packing ----

  method TotalSize(contents: seq<Content>) returns (total: nat)
    ensures total == |Joined(contents)|
  {
    total := 0;
    for i := 0 to |contents|
      invariant total == |Joined(contents[..i])|
    {
      assert contents[..i + 1][..i] == contents[..i];
      total := total + |BytesOf(contents[i])|;
    }
    assert contents[..|contents|] == contents;
  }

  method AssignBit(octets: array<Octet>, contents: seq<Content>, i: nat)
    requires i < |contents| && IsPresences(octets[..], contents, i)
    modifies octets
    ensures IsPresences(octets[..], contents, i + 1)
  {
    hide BitAt, WithBit;
    ghost var was := octets[..];
    PresenceStep(was, contents, i);
    octets[i / 8] := WithBit(octets[i / 8], i % 8, contents[i].Some?);
    assert octets[..] == was[i / 8 := WithBit(was[i / 8], i % 8, contents[i].Some?)];
  }

  lemma {:induction false} NoPresences(octets: seq<Octet>, contents: seq<Content>)
    requires |octets| == (|contents| + 7) / 8
    ensures IsPresences(octets, contents, 0)
  {
  }

  /** Joins the values on one tape; a missing value takes no bytes and clears its bit. */
  method PackColumn(contents: seq<Content>) returns (offsets: array<int>, octets: array<Octet>, tape: array<byte>)
    ensures fresh(offsets) && fresh(octets) && fresh(tape)
    ensures offsets.Length == |contents| + 1 && offsets[|contents|] == |Joined(contents)|
    ensures IsOffsets(offsets[..], contents, |contents|)
    ensures IsPresences(octets[..], contents, |contents|)
    ensures tape[..] == Joined(contents)
  {
    hide Joined, IsPresences, Overwrite, BytesOf;
    var n := |contents|;
    var total := TotalSize(contents);
    offsets := new int[n + 1];
    octets := new Octet[(n + 7) / 8](_ => 0);
    tape := new byte[total];
    var exported := 0;
    NothingJoined(contents);
    NoPresences(octets[..], contents);
    for i := 0 to n
      invariant exported == OffsetOf(contents, i) <= total
      invariant IsOffsets(offsets[..], contents, i)
      invariant IsPresences(octets[..], contents, i)
      invariant tape[..exported] == Joined(contents[..i])
    {
      ghost var was := tape[..];
      ValueOnTape(contents, i);
      NextOffset(contents, i);
      AssignBit(octets, contents, i);
      offsets[i] := exported;
      CopyInto(tape, exported, BytesOf(contents[i]));
      OverwriteAppends(was, 0, exported, BytesOf(contents[i]));
      exported := exported + |BytesOf(contents[i])|;
    }
    offsets[n] := exported;
    assert contents[..n] == contents;
    assert tape[..exported] == tape[..];
  }

  lemma {:induction false} NothingJoined(contents: seq<Content>)
    ensures OffsetOf(contents, 0) == 0 && Joined(contents[..0]) == []
  {
  }

  // ---- Reading a column back ----

  /** A length from the offsets and the bits; without bits every value is there. */
  function LengthAt(offsets: seq<int>, octets: Option<seq<Octet>>, i: nat): int
    requires i + 1 < |offsets| && (octets.Some? ==> i / 8 < |octets.value|)
  {
    if octets.Some? && !BitAt(octets.value, i) then MISSING else offsets[i + 1] - offsets[i]
  }

  method RebuildLengths(count: nat, offsets: seq<int>, octets: Option<seq<Octet>>) returns (lengths: array<int>)
    requires |offsets| == count + 1 && (octets.Some? ==> |octets.value| == (count + 7) / 8)
    ensures fresh(lengths) && lengths.Length == count
    ensures forall i :: 0 <= i < count ==> lengths[i] == LengthAt(offsets, octets, i)
  {
    lengths := new int[count];
    if octets.Some? {
      for i := 0 to count
        invariant forall k :: 0 <= k < i ==> lengths[k] == LengthAt(offsets, octets, k)
      {
        lengths[i] := if BitAt(octets.value, i) then offsets[i + 1] - offsets[i] else MISSING;
      }
    } else {
      for i := 0 to count
        invariant forall k :: 0 <= k < i ==> lengths[k] == LengthAt(offsets, octets, k)
      {
        lengths[i] := offsets[i + 1] - offsets[i];
      }
    }
  }

  /** The value a caller finds at one place of the column. */
  function Received(tape: Bytes, offset: int, length: int): Content {
    if length == MISSING || !(0 <= offset <= offset + length <= |tape|) then None
    else Some(tape[offset..offset + length])
  }

  /** No value has the length that marks a missing one. */
  predicate LengthsFit(contents: seq<Content>) {
    forall i :: 0 <= i < |contents| ==> |BytesOf(contents[i])| != 0xFFFF_FFFF
  }

  /** What a caller gets for one value: nothing for the length that marks a missing one, and without bits never a null. */
  function Expected(content: Content, bits: bool): Content {
    if |BytesOf(content)| == 0xFFFF_FFFF then None else if bits then content else Some(BytesOf(content))
  }

  lemma {:induction false} OneReceived(contents: seq<Content>, offsets: seq<int>, octets: seq<Octet>, i: nat)
    requires i < |contents|
    requires |offsets| == |contents| + 1 && offsets[|contents|] == |Joined(contents)|
    requires IsOffsets(offsets, contents, |contents|) && IsPresences(octets, contents, |contents|)
    ensures Received(Joined(contents), offsets[i], LengthAt(offsets, Some(octets), i)) ==
      Expected(contents[i], true)
    ensures Received(Joined(contents), offsets[i], LengthAt(offsets, None, i)) == Expected(contents[i], false)
  {
    hide Joined, BitAt;
    ValueOnTape(contents, i);
    assert contents[..|contents|] == contents;
    assert offsets[i + 1] == OffsetOf(contents, i + 1);
  }

  /**
  Packing nullable values and rebuilding the lengths gives back the values, present or missing,
  exactly when no value has the length that marks a missing one, and, without the bits, when none
  is missing.
  */
  method ColumnRoundTrip(contents: seq<Content>, withBits: bool) returns (received: seq<Content>)
    ensures |received| == |contents|
    ensures forall i :: 0 <= i < |contents| ==> received[i] == Expected(contents[i], withBits)
    ensures received == contents <==>
      LengthsFit(contents) && (withBits || forall i :: 0 <= i < |contents| ==> contents[i].Some?)
  {
    hide Joined, BitAt, Received, LengthAt, IsOffsets, IsPresences, Expected;
    var offsets, octets, tape := PackColumn(contents);
    var offs, bits, joined := offsets[..], octets[..], tape[..];
    PresencesSize(bits, contents);
    var lengths := RebuildLengths(|contents|, offs, if withBits then Some(bits) else None);
    var lens := lengths[..];
    received := [];
    for i := 0 to |contents|
      invariant |received| == i
      invariant forall j :: 0 <= j < i ==> received[j] == Expected(contents[j], withBits)
    {
      OneReceived(contents, offs, bits, i);
      assert lens[i] == LengthAt(offs, if withBits then Some(bits) else None, i);
      received := received + [Received(joined, offs[i], lens[i])];
    }
    ExpectedAll(contents, received, withBits);
  }

  lemma {:induction false} ExpectedAll(contents: seq<Content>, received: seq<Content>, bits: bool)
    requires |received| == |contents| && forall i :: 0 <= i < |contents| ==> received[i] == Expected(contents[i], bits)
    ensures received == contents <==>
      LengthsFit(contents) && (bits || forall i :: 0 <= i < |contents| ==> contents[i].Some?)
  {
    if received == contents {
      forall i | 0 <= i < |contents|
        ensures |BytesOf(contents[i])| != 0xFFFF_FFFF && (bits || contents[i].Some?)
      {
        assert received[i] == contents[i];
        ExpectedOne(contents[i], bits);
      }
    } else {
      var i :| 0 <= i < |contents| && received[i] != contents[i];
      ExpectedOne(contents[i], bits);
    }
  }

  lemma {:induction false} ExpectedOne(content: Content, bits: bool)
    ensures Expected(content, bits) == content <==> |BytesOf(content)| != 0xFFFF_FFFF && (bits || content.Some?)
  {
  }

  lemma {:induction false} PresencesSize(octets: seq<Octet>, contents: seq<Content>)
    requires IsPresences(octets, contents, |contents|)
    ensures |octets| == (|contents| + 7) / 8
  {
  }
}
