/**
The layout of one bucket of the path modality (`src/modality_paths.cpp`): a count, the key
lengths, the value lengths, the keys, the values. All counters are 32-bit little-endian.
*/
module PathLayout {
  import opened Store

  const COUNTER := 4
  const LENGTH_LIMIT := 0x1_0000_0000
  const LENGTH_MISSING := 0xFFFF_FFFF

  datatype Member = Member(key: Bytes, val: Bytes)

  // ---- Counters ----

  function U32(n: nat): (bytes: Bytes)
    requires n < LENGTH_LIMIT
    ensures |bytes| == COUNTER
  {
    [(n % 256) as byte, (n / 256 % 256) as byte, (n / 65536 % 256) as byte, (n / 16777216) as byte]
  }

  function ReadU32(bytes: Bytes): nat
    requires |bytes| == COUNTER
  {
    bytes[0] as int + 256 * bytes[1] as int + 65536 * bytes[2] as int + 16777216 * bytes[3] as int
  }

  lemma {:induction false} CounterRoundTrip(n: nat)
    requires n < LENGTH_LIMIT
    ensures ReadU32(U32(n)) == n
  {
    assert n == n % 256 + 256 * (n / 256);
    assert n / 256 == n / 256 % 256 + 256 * (n / 65536);
    assert n / 65536 == n / 65536 % 256 + 256 * (n / 16777216);
  }

  // ---- The five regions ----

  predicate Small(ms: seq<Member>) {
    |ms| < LENGTH_LIMIT && forall i :: 0 <= i < |ms| ==> |ms[i].key| < LENGTH_LIMIT && |ms[i].val| < LENGTH_LIMIT
  }

  function KeyLengths(ms: seq<Member>): (bytes: Bytes)
    requires Small(ms)
    ensures |bytes| == COUNTER * |ms|
  {
    if ms == [] then [] else KeyLengths(ms[..|ms| - 1]) + U32(|ms[|ms| - 1].key|)
  }

  function ValLengths(ms: seq<Member>): (bytes: Bytes)
    requires Small(ms)
    ensures |bytes| == COUNTER * |ms|
  {
    if ms == [] then [] else ValLengths(ms[..|ms| - 1]) + U32(|ms[|ms| - 1].val|)
  }

  function Keys(ms: seq<Member>): Bytes {
    if ms == [] then [] else Keys(ms[..|ms| - 1]) + ms[|ms| - 1].key
  }

  function Vals(ms: seq<Member>): Bytes {
    if ms == [] then [] else Vals(ms[..|ms| - 1]) + ms[|ms| - 1].val
  }

  function Encode(ms: seq<Member>): (blob: Bytes)
    requires Small(ms)
    ensures |blob| == COUNTER + 2 * COUNTER * |ms| + |Keys(ms)| + |Vals(ms)|
  {
    U32(|ms|) + KeyLengths(ms) + ValLengths(ms) + Keys(ms) + Vals(ms)
  }

  /** Where the keys and the values start. */
  function KeysAt(ms: seq<Member>): nat { COUNTER + 2 * COUNTER * |ms| }

  function ValsAt(ms: seq<Member>): nat { KeysAt(ms) + |Keys(ms)| }

  /** A blob is a bucket of these members; a missing or emptied one has no bytes. */
  predicate IsBucket(blob: Bytes, ms: seq<Member>) {
    if ms == [] then blob == []
    else Small(ms) && |Encode(ms)| < LENGTH_MISSING && blob == Encode(ms)
  }

  // ---- Regions of a prefix ----

  lemma {:induction false} RegionStep(ms: seq<Member>, i: nat)
    requires i < |ms|
    ensures Keys(ms[..i + 1]) == Keys(ms[..i]) + ms[i].key
    ensures Vals(ms[..i + 1]) == Vals(ms[..i]) + ms[i].val
    ensures Small(ms) ==>
      && Small(ms[..i]) && Small(ms[..i + 1])
      && KeyLengths(ms[..i + 1]) == KeyLengths(ms[..i]) + U32(|ms[i].key|)
      && ValLengths(ms[..i + 1]) == ValLengths(ms[..i]) + U32(|ms[i].val|)
  {
    assert ms[..i + 1][..i] == ms[..i];
  }

  lemma {:induction false} RegionPrefix(ms: seq<Member>, i: nat)
    requires i <= |ms|
    ensures Keys(ms[..i]) <= Keys(ms)
    ensures Vals(ms[..i]) <= Vals(ms)
    ensures Small(ms) ==> Small(ms[..i]) && KeyLengths(ms[..i]) <= KeyLengths(ms) && ValLengths(ms[..i]) <= ValLengths(ms)
    decreases |ms| - i
  {
    if i < |ms| {
      RegionStep(ms, i);
      RegionPrefix(ms, i + 1);
    } else {
      assert ms[..i] == ms;
    }
  }

  /** Where member `i` lies inside the four regions. */
  lemma {:induction false} MemberInRegions(ms: seq<Member>, i: nat)
    requires Small(ms) && i < |ms|
    ensures Small(ms[..i])
    ensures |Keys(ms[..i])| + |ms[i].key| == |Keys(ms[..i + 1])| <= |Keys(ms)|
    ensures |Vals(ms[..i])| + |ms[i].val| == |Vals(ms[..i + 1])| <= |Vals(ms)|
    ensures Keys(ms)[|Keys(ms[..i])|..|Keys(ms[..i + 1])|] == ms[i].key
    ensures Vals(ms)[|Vals(ms[..i])|..|Vals(ms[..i + 1])|] == ms[i].val
    ensures KeyLengths(ms)[COUNTER * i..COUNTER * (i + 1)] == U32(|ms[i].key|)
    ensures ValLengths(ms)[COUNTER * i..COUNTER * (i + 1)] == U32(|ms[i].val|)
  {
    hide Keys, Vals, KeyLengths, ValLengths, U32;
    RegionStep(ms, i);
    RegionPrefix(ms, i + 1);
    PrefixSlice(Keys(ms[..i]), ms[i].key, Keys(ms));
    PrefixSlice(Vals(ms[..i]), ms[i].val, Vals(ms));
    PrefixSlice(KeyLengths(ms[..i]), U32(|ms[i].key|), KeyLengths(ms));
    PrefixSlice(ValLengths(ms[..i]), U32(|ms[i].val|), ValLengths(ms));
  }

  lemma {:induction false} PrefixSlice(a: Bytes, b: Bytes, all: Bytes)
    requires a + b <= all
    ensures all[|a|..|a| + |b|] == b
  {
    assert all[|a|..|a| + |b|] == (a + b)[|a|..];
  }

  lemma {:induction false} EncodeSlices(ms: seq<Member>)
    requires Small(ms)
    ensures var blob := Encode(ms); var n := |ms|;
      && blob[..COUNTER] == U32(n)
      && blob[COUNTER..COUNTER + COUNTER * n] == KeyLengths(ms)
      && blob[COUNTER + COUNTER * n..KeysAt(ms)] == ValLengths(ms)
      && blob[KeysAt(ms)..ValsAt(ms)] == Keys(ms)
      && blob[ValsAt(ms)..] == Vals(ms)
  {
    hide U32, KeyLengths, ValLengths, Keys, Vals;
    FiveParts(U32(|ms|), KeyLengths(ms), ValLengths(ms), Keys(ms), Vals(ms));
  }

  lemma {:induction false} FiveParts(a: Bytes, b: Bytes, c: Bytes, d: Bytes, e: Bytes)
    ensures var s := a + b + c + d + e;
      && s[..|a|] == a
      && s[|a|..|a| + |b|] == b
      && s[|a| + |b|..|a| + |b| + |c|] == c
      && s[|a| + |b| + |c|..|a| + |b| + |c| + |d|] == d
      && s[|a| + |b| + |c| + |d|..] == e
  {
  }

  // ---- Reading, as the accessors of the source do ----

  function GetBucketSize(blob: Bytes): nat {
    if |blob| > COUNTER then ReadU32(blob[..COUNTER]) else 0
  }

  /** Counter number `i` of a blob; the count itself is number zero. */
  function Counter(blob: Bytes, i: nat): nat
    requires COUNTER * (i + 1) <= |blob|
  {
    ReadU32(blob[COUNTER * i..COUNTER * (i + 1)])
  }

  lemma {:induction false} SizeOfBucket(blob: Bytes, ms: seq<Member>)
    requires IsBucket(blob, ms)
    ensures GetBucketSize(blob) == |ms|
  {
    if ms != [] {
      EncodeSlices(ms);
      CounterRoundTrip(|ms|);
    }
  }

  /** Every length and every slice of a bucket is the member's own. */
  lemma {:induction false} MemberInBlob(blob: Bytes, ms: seq<Member>, i: nat)
    requires IsBucket(blob, ms) && i < |ms|
    ensures COUNTER * (1 + |ms| + i + 1) <= KeysAt(ms) <= |blob|
    ensures Counter(blob, 1 + i) == |ms[i].key|
    ensures Counter(blob, 1 + |ms| + i) == |ms[i].val|
    ensures |Keys(ms[..i])| + |ms[i].key| == |Keys(ms[..i + 1])| <= |Keys(ms)|
    ensures |Vals(ms[..i])| + |ms[i].val| == |Vals(ms[..i + 1])| <= |Vals(ms)|
    ensures blob[KeysAt(ms) + |Keys(ms[..i])|..KeysAt(ms) + |Keys(ms[..i])| + |ms[i].key|] == ms[i].key
    ensures ValsAt(ms) + |Vals(ms[..i])| + |ms[i].val| <= |blob|
    ensures blob[ValsAt(ms) + |Vals(ms[..i])|..ValsAt(ms) + |Vals(ms[..i])| + |ms[i].val|] == ms[i].val
  {
    hide U32, ReadU32, KeyLengths, ValLengths, Keys, Vals, Encode, Counter;
    CountersInBlob(blob, ms, i);
    SlicesInBlob(blob, ms, i);
  }

  lemma {:induction false} CountersInBlob(blob: Bytes, ms: seq<Member>, i: nat)
    requires IsBucket(blob, ms) && i < |ms|
    ensures COUNTER * (1 + |ms| + i + 1) <= KeysAt(ms) <= |blob|
    ensures Counter(blob, 1 + i) == |ms[i].key|
    ensures Counter(blob, 1 + |ms| + i) == |ms[i].val|
  {
    hide U32, ReadU32, KeyLengths, ValLengths, Keys, Vals, Encode;
    EncodeSlices(ms);
    MemberInRegions(ms, i);
    CounterRoundTrip(|ms[i].key|);
    CounterRoundTrip(|ms[i].val|);
    var n := |ms|;
    SliceInSlice(blob, COUNTER, COUNTER + COUNTER * n, COUNTER * i, COUNTER * (i + 1));
    SliceInSlice(blob, COUNTER + COUNTER * n, KeysAt(ms), COUNTER * i, COUNTER * (i + 1));
  }

  lemma {:induction false} SlicesInBlob(blob: Bytes, ms: seq<Member>, i: nat)
    requires IsBucket(blob, ms) && i < |ms|
    ensures |Keys(ms[..i])| + |ms[i].key| == |Keys(ms[..i + 1])| <= |Keys(ms)|
    ensures |Vals(ms[..i])| + |ms[i].val| == |Vals(ms[..i + 1])| <= |Vals(ms)|
    ensures ValsAt(ms) <= |blob|
    ensures blob[KeysAt(ms) + |Keys(ms[..i])|..KeysAt(ms) + |Keys(ms[..i])| + |ms[i].key|] == ms[i].key
    ensures ValsAt(ms) + |Vals(ms[..i])| + |ms[i].val| <= |blob|
    ensures blob[ValsAt(ms) + |Vals(ms[..i])|..ValsAt(ms) + |Vals(ms[..i])| + |ms[i].val|] == ms[i].val
  {
    hide U32, KeyLengths, ValLengths, Keys, Vals, Encode;
    EncodeSlices(ms);
    MemberInRegions(ms, i);
    SliceInSlice(blob, KeysAt(ms), ValsAt(ms), |Keys(ms[..i])|, |Keys(ms[..i + 1])|);
    SliceInSlice(blob, ValsAt(ms), |blob|, |Vals(ms[..i])|, |Vals(ms[..i + 1])|);
  }

  lemma {:induction false} SliceInSlice(s: Bytes, low: nat, high: nat, from: nat, to: nat)
    requires low <= high <= |s| && from <= to <= high - low
    ensures s[low..high][from..to] == s[low + from..low + to]
  {
    var a, b := s[low..high][from..to], s[low + from..low + to];
    assert |a| == |b|;
    forall i | 0 <= i < |a| ensures a[i] == b[i] {
      assert a[i] == s[low..high][from + i];
    }
  }

  // ---- The bytes themselves ----

  /** A bucket of one short pair, byte by byte. */
  lemma {:induction false} OnePairBytes(key: Bytes, val: Bytes)
    requires |key| < 256 && |val| < 65536
    ensures Small([Member(key, val)])
    ensures Encode([Member(key, val)]) ==
      [1, 0, 0, 0] + [|key| as byte, 0, 0, 0] + [(|val| % 256) as byte, (|val| / 256) as byte, 0, 0] + key + val
  {
    var ms := [Member(key, val)];
    OneRegion(key, val);
    SmallCounters(1);
    SmallCounters(|key|);
    SmallCounters(|val|);
    hide U32, Keys, Vals, KeyLengths, ValLengths;
    assert |ms| == 1 && |key| % 256 == |key| && |key| / 256 == 0;
  }

  lemma {:induction false} OneRegion(key: Bytes, val: Bytes)
    requires |key| < LENGTH_LIMIT && |val| < LENGTH_LIMIT
    ensures var ms := [Member(key, val)];
      && Small(ms) && KeyLengths(ms) == U32(|key|) && ValLengths(ms) == U32(|val|)
      && Keys(ms) == key && Vals(ms) == val
  {
    hide U32;
    var ms := [Member(key, val)];
    assert ms[..0] == [];
    assert KeyLengths([]) == [] && ValLengths([]) == [] && Keys([]) == [] && Vals([]) == [];
    assert [] + key == key && [] + val == val;
  }

  lemma {:induction false} SmallCounters(n: nat)
    requires n < 65536
    ensures U32(n) == [(n % 256) as byte, (n / 256) as byte, 0, 0]
  {
  }
}
