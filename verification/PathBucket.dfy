/**
The operations on one bucket: search, replace or append, and removal inside the buffer.
*/
module PathBucket {
  import opened Store
  import opened PathLayout
  import opened Buffers

  // ---- What the operations mean for the members ----

  /** The member a search ends up with: the last one with the key. */
  function LastIndex(ms: seq<Member>, key: Bytes): (found: Option<nat>)
    ensures found.Some? ==> found.value < |ms| && ms[found.value].key == key
  {
    if ms == [] then None
    else if ms[|ms| - 1].key == key then Some(|ms| - 1)
    else LastIndex(ms[..|ms| - 1], key)
  }

  function RemoveAt(ms: seq<Member>, i: nat): seq<Member>
    requires i < |ms|
  {
    ms[..i] + ms[i + 1..]
  }

  function Delete(ms: seq<Member>, key: Bytes): seq<Member> {
    match LastIndex(ms, key)
    case Some(i) => RemoveAt(ms, i)
    case None => ms
  }

  function Upsert(ms: seq<Member>, key: Bytes, val: Bytes): seq<Member> {
    Delete(ms, key) + [Member(key, val)]
  }

  function Lookup(ms: seq<Member>, key: Bytes): Option<Bytes> {
    match LastIndex(ms, key)
    case Some(i) => Some(ms[i].val)
    case None => None
  }

  /** The bucket can be written: its size is a length, and not the one that means missing. */
  predicate Fits(ms: seq<Member>) {
    Small(ms) && |Encode(ms)| < LENGTH_MISSING
  }

  lemma {:induction false} LastIndexStep(ms: seq<Member>, i: nat, key: Bytes)
    requires i < |ms|
    ensures LastIndex(ms[..i + 1], key) == if ms[i].key == key then Some(i) else LastIndex(ms[..i], key)
  {
    assert ms[..i + 1][..i] == ms[..i];
  }

  // ---- Search ----

  /** `std::accumulate` over counters. */
  method SumCounters(blob: Bytes, from: nat, count: nat) returns (sum: nat)
    requires COUNTER * (from + count) <= |blob|
    ensures sum == CounterSum(blob, from, count)
  {
    sum := 0;
    for i := 0 to count
      invariant sum == CounterSum(blob, from, i)
    {
      sum := sum + Counter(blob, from + i);
    }
  }

  function CounterSum(blob: Bytes, from: nat, count: nat): nat
    requires COUNTER * (from + count) <= |blob|
  {
    if count == 0 then 0 else CounterSum(blob, from, count - 1) + Counter(blob, from + count - 1)
  }

  lemma {:induction false} SumsAreRegions(blob: Bytes, ms: seq<Member>, i: nat)
    requires IsBucket(blob, ms) && 0 < |ms| && i <= |ms|
    ensures COUNTER * (1 + 2 * |ms|) <= |blob|
    ensures CounterSum(blob, 1, i) == |Keys(ms[..i])|
    ensures CounterSum(blob, 1 + |ms|, i) == |Vals(ms[..i])|
  {
    hide Encode, Counter, Keys, Vals;
    if i == 0 {
      EmptyRegions(ms);
      MemberInBlob(blob, ms, 0);
    } else {
      SumsAreRegions(blob, ms, i - 1);
      MemberInBlob(blob, ms, i - 1);
    }
  }

  /** Walks the keys and the values side by side. */
  method FindInBucket(blob: Bytes, key: Bytes, ghost ms: seq<Member>) returns (found: Option<nat>, val: Bytes)
    requires IsBucket(blob, ms)
    ensures found == LastIndex(ms, key)
    ensures found.Some? ==> val == ms[found.value].val
    ensures found.None? ==> val == []
  {
    hide Encode, Keys, Vals, Counter, ReadU32, CounterSum, LastIndex;
    found, val := None, [];
    SizeOfBucket(blob, ms);
    assert LastIndex(ms[..0], key) == None by { NothingFound(ms[..0], key); }
    var size := GetBucketSize(blob);
    if size == 0 {
      assert ms == ms[..0];
      return;
    }
    SumsAreRegions(blob, ms, size);
    assert ms[..size] == ms;
    var bytesForKeys := SumCounters(blob, 1, size);
    var keyAt, valAt := COUNTER + 2 * COUNTER * size, COUNTER + 2 * COUNTER * size + bytesForKeys;
    EmptyRegions(ms);
    for i := 0 to size
      invariant keyAt == KeysAt(ms) + |Keys(ms[..i])|
      invariant valAt == ValsAt(ms) + |Vals(ms[..i])|
      invariant found == LastIndex(ms[..i], key)
      invariant found.Some? ==> found.value < i && val == ms[found.value].val
      invariant found.None? ==> val == []
    {
      MemberInBlob(blob, ms, i);
      LastIndexStep(ms, i, key);
      var keyLength, valLength := Counter(blob, 1 + i), Counter(blob, 1 + size + i);
      if blob[keyAt..keyAt + keyLength] == key {
        found, val := Some(i), blob[valAt..valAt + valLength];
      }
      keyAt, valAt := keyAt + keyLength, valAt + valLength;
    }
  }

  lemma {:induction false} NothingFound(ms: seq<Member>, key: Bytes)
    requires ms == []
    ensures LastIndex(ms, key) == None
  {
  }

  lemma {:induction false} EmptyRegions(ms: seq<Member>)
    ensures Keys(ms[..0]) == [] && Vals(ms[..0]) == []
  {
  }

  // ---- Upsert ----

  /** The first `j` members of `all` are in place, in every region of a buffer for all of them. */
  ghost predicate Filled(buffer: Bytes, all: seq<Member>, j: nat) {
    && Small(all) && j <= |all| && |buffer| == |Encode(all)|
    && Small(all[..j])
    && var n := |all|;
    && buffer[..COUNTER] == U32(n)
    && buffer[COUNTER..COUNTER + COUNTER * j] == KeyLengths(all[..j])
    && buffer[COUNTER + COUNTER * n..COUNTER + COUNTER * n + COUNTER * j] == ValLengths(all[..j])
    && KeysAt(all) + |Keys(all[..j])| <= ValsAt(all)
    && buffer[KeysAt(all)..KeysAt(all) + |Keys(all[..j])|] == Keys(all[..j])
    && ValsAt(all) + |Vals(all[..j])| <= |buffer|
    && buffer[ValsAt(all)..ValsAt(all) + |Vals(all[..j])|] == Vals(all[..j])
  }

  lemma {:induction false} FilledAll(buffer: Bytes, all: seq<Member>)
    requires Filled(buffer, all, |all|)
    ensures buffer == Encode(all)
  {
    hide U32, KeyLengths, ValLengths, Keys, Vals;
    var n := |all|;
    assert all[..n] == all;
    var a, b, c, d, e := buffer[..COUNTER], buffer[COUNTER..COUNTER + COUNTER * n],
      buffer[COUNTER + COUNTER * n..KeysAt(all)], buffer[KeysAt(all)..ValsAt(all)], buffer[ValsAt(all)..];
    assert buffer == a + b + c + d + e;
  }

  /** Writes the two lengths, the key and the value of the next member. */
  method WriteMember(buffer: array<byte>, n: nat, j: nat, keysOut: nat, valsOut: nat, m: Member, ghost all: seq<Member>)
    requires Filled(buffer[..], all, j) && j < n == |all| && all[j] == m
    requires keysOut == KeysAt(all) + |Keys(all[..j])|
    requires valsOut == ValsAt(all) + |Vals(all[..j])|
    modifies buffer
    ensures Filled(buffer[..], all, j + 1)
    ensures keysOut + |m.key| == KeysAt(all) + |Keys(all[..j + 1])|
    ensures valsOut + |m.val| == ValsAt(all) + |Vals(all[..j + 1])|
  {
    hide U32, KeyLengths, ValLengths, Keys, Vals, Encode, Overwrite, Filled;
    ghost var s0 := buffer[..];
    FilledFits(s0, all, j);
    CopyInto(buffer, COUNTER * (1 + j), U32(|m.key|));
    CopyInto(buffer, COUNTER * (1 + n + j), U32(|m.val|));
    CopyInto(buffer, keysOut, m.key);
    CopyInto(buffer, valsOut, m.val);
    FilledStep(s0, all, j);
  }

  lemma {:induction false} FilledFits(buffer: Bytes, all: seq<Member>, j: nat)
    requires Filled(buffer, all, j) && j < |all|
    ensures |all[j].key| < LENGTH_LIMIT && |all[j].val| < LENGTH_LIMIT
    ensures KeysAt(all) + |Keys(all[..j])| + |all[j].key| == KeysAt(all) + |Keys(all[..j + 1])| <= ValsAt(all)
    ensures ValsAt(all) + |Vals(all[..j])| + |all[j].val| == ValsAt(all) + |Vals(all[..j + 1])| <= |buffer|
    ensures COUNTER * (1 + |all| + j + 1) <= KeysAt(all)
  {
    hide KeyLengths, ValLengths, Keys, Vals;
    MemberInRegions(all, j);
  }

  lemma {:induction false} FilledStep(s0: Bytes, all: seq<Member>, j: nat)
    requires Filled(s0, all, j) && j < |all|
    requires |all[j].key| < LENGTH_LIMIT && |all[j].val| < LENGTH_LIMIT
    requires KeysAt(all) + |Keys(all[..j])| + |all[j].key| <= |s0|
    requires ValsAt(all) + |Vals(all[..j])| + |all[j].val| <= |s0|
    requires COUNTER * (1 + |all| + j + 1) <= |s0|
    ensures var s1 := Overwrite(s0, COUNTER * (1 + j), U32(|all[j].key|));
      var s2 := Overwrite(s1, COUNTER * (1 + |all| + j), U32(|all[j].val|));
      var s3 := Overwrite(s2, KeysAt(all) + |Keys(all[..j])|, all[j].key);
      var s4 := Overwrite(s3, ValsAt(all) + |Vals(all[..j])|, all[j].val);
      Filled(s4, all, j + 1)
  {
    hide U32, KeyLengths, ValLengths, Keys, Vals, Encode, Overwrite;
    var n, m := |all|, all[j];
    FilledFits(s0, all, j);
    RegionStep(all, j);
    RegionPrefix(all, j + 1);
    FourAppends(s0, COUNTER,
                COUNTER, COUNTER * (1 + j), U32(|m.key|),
                COUNTER + COUNTER * n, COUNTER * (1 + n + j), U32(|m.val|),
                KeysAt(all), KeysAt(all) + |Keys(all[..j])|, m.key,
                ValsAt(all), ValsAt(all) + |Vals(all[..j])|, m.val);
  }

  /** Four writes, each at the end of its own region. */
  lemma {:induction false} FourAppends(s0: Bytes, head: nat,
                                       low1: nat, at1: nat, x1: Bytes, low2: nat, at2: nat, x2: Bytes,
                                       low3: nat, at3: nat, x3: Bytes, low4: nat, at4: nat, x4: Bytes)
    requires head <= low1 <= at1 && at1 + |x1| <= low2 <= at2 && at2 + |x2| <= low3 <= at3
    requires at3 + |x3| <= low4 <= at4 && at4 + |x4| <= |s0|
    ensures var s4 := Overwrite(Overwrite(Overwrite(Overwrite(s0, at1, x1), at2, x2), at3, x3), at4, x4);
      && s4[..head] == s0[..head]
      && s4[low1..at1 + |x1|] == s0[low1..at1] + x1
      && s4[low2..at2 + |x2|] == s0[low2..at2] + x2
      && s4[low3..at3 + |x3|] == s0[low3..at3] + x3
      && s4[low4..at4 + |x4|] == s0[low4..at4] + x4
  {
    hide Overwrite;
    var s1 := Overwrite(s0, at1, x1);
    var s2 := Overwrite(s1, at2, x2);
    var s3 := Overwrite(s2, at3, x3);
    assert s3[..head] == s0[..head] && Overwrite(s3, at4, x4)[..head] == s3[..head] by {
      OverwriteElsewhere(s0, at1, x1, 0, head);
      OverwriteElsewhere(s1, at2, x2, 0, head);
      OverwriteElsewhere(s2, at3, x3, 0, head);
      OverwriteElsewhere(s3, at4, x4, 0, head);
    }
    assert s3[low1..at1 + |x1|] == s0[low1..at1] + x1 by {
      OverwriteAppends(s0, low1, at1, x1);
      OverwriteElsewhere(s1, at2, x2, low1, at1 + |x1|);
      OverwriteElsewhere(s2, at3, x3, low1, at1 + |x1|);
    }
    assert s3[low2..at2 + |x2|] == s0[low2..at2] + x2 by {
      OverwriteElsewhere(s0, at1, x1, low2, at2);
      OverwriteAppends(s1, low2, at2, x2);
      OverwriteElsewhere(s2, at3, x3, low2, at2 + |x2|);
    }
    assert s3[low3..at3 + |x3|] == s0[low3..at3] + x3 by {
      OverwriteElsewhere(s0, at1, x1, low3, at3);
      OverwriteElsewhere(s1, at2, x2, low3, at3);
      OverwriteAppends(s2, low3, at3, x3);
    }
    assert s3[low4..at4] == s0[low4..at4] by {
      OverwriteElsewhere(s0, at1, x1, low4, at4);
      OverwriteElsewhere(s1, at2, x2, low4, at4);
      OverwriteElsewhere(s2, at3, x3, low4, at4);
    }
    OverwriteElsewhere(s3, at4, x4, low1, at1 + |x1|);
    OverwriteElsewhere(s3, at4, x4, low2, at2 + |x2|);
    OverwriteElsewhere(s3, at4, x4, low3, at3 + |x3|);
    OverwriteAppends(s3, low4, at4, x4);
  }

  lemma {:induction false} TextLast(ms: seq<Member>, m: Member)
    ensures Keys(ms + [m]) == Keys(ms) + m.key
    ensures Vals(ms + [m]) == Vals(ms) + m.val
  {
    assert (ms + [m])[..|ms|] == ms;
  }

  lemma {:induction false} TextConcat(a: seq<Member>, b: seq<Member>)
    ensures Keys(a + b) == Keys(a) + Keys(b)
    ensures Vals(a + b) == Vals(a) + Vals(b)
    decreases |b|
  {
    hide Keys, Vals;
    if b == [] {
      assert a + b == a;
      EmptyRegions([]);
      assert b[..0] == [];
    } else {
      var n := |b| - 1;
      TextConcat(a, b[..n]);
      TextLast(b[..n], b[n]);
      TextLast(a + b[..n], b[n]);
      assert b == b[..n] + [b[n]] && a + b == a + b[..n] + [b[n]];
    }
  }

  lemma {:induction false} LengthsLast(ms: seq<Member>, m: Member)
    requires Small(ms + [m])
    ensures Small(ms) && |m.key| < LENGTH_LIMIT && |m.val| < LENGTH_LIMIT
    ensures KeyLengths(ms + [m]) == KeyLengths(ms) + U32(|m.key|)
    ensures ValLengths(ms + [m]) == ValLengths(ms) + U32(|m.val|)
  {
    hide U32, Small;
    SmallParts(ms, [m]);
    SmallLast(ms, m);
    assert (ms + [m])[..|ms|] == ms;
  }

  lemma {:induction false} SmallLast(ms: seq<Member>, m: Member)
    requires Small(ms + [m])
    ensures |m.key| < LENGTH_LIMIT && |m.val| < LENGTH_LIMIT
  {
    assert (ms + [m])[|ms|] == m;
  }

  lemma {:induction false} KeyLengthsConcat(a: seq<Member>, b: seq<Member>)
    requires Small(a + b) && Small(a) && Small(b)
    ensures KeyLengths(a + b) == KeyLengths(a) + KeyLengths(b)
    decreases |b|
  {
    hide U32, Small, KeyLengths, ValLengths;
    if b == [] {
      assert a + b == a;
      NoLengths(b);
    } else {
      var low, m := b[..|b| - 1], b[|b| - 1];
      assert b == low + [m] && a + b == a + low + [m];
      LengthsLast(low, m);
      LengthsLast(a + low, m);
      KeyLengthsConcat(a, low);
    }
  }

  lemma {:induction false} ValLengthsConcat(a: seq<Member>, b: seq<Member>)
    requires Small(a + b) && Small(a) && Small(b)
    ensures ValLengths(a + b) == ValLengths(a) + ValLengths(b)
    decreases |b|
  {
    hide U32, Small, KeyLengths, ValLengths;
    if b == [] {
      assert a + b == a;
      NoLengths(b);
    } else {
      var low, m := b[..|b| - 1], b[|b| - 1];
      assert b == low + [m] && a + b == a + low + [m];
      LengthsLast(low, m);
      LengthsLast(a + low, m);
      ValLengthsConcat(a, low);
    }
  }

  lemma {:induction false} NoLengths(ms: seq<Member>)
    requires ms == []
    ensures Small(ms) && KeyLengths(ms) == [] && ValLengths(ms) == []
  {
  }

  lemma {:induction false} RegionsConcat(a: seq<Member>, b: seq<Member>)
    ensures Keys(a + b) == Keys(a) + Keys(b)
    ensures Vals(a + b) == Vals(a) + Vals(b)
    ensures Small(a + b) ==>
      && Small(a) && Small(b)
      && KeyLengths(a + b) == KeyLengths(a) + KeyLengths(b)
      && ValLengths(a + b) == ValLengths(a) + ValLengths(b)
  {
    hide U32, Keys, Vals, KeyLengths, ValLengths, Small;
    TextConcat(a, b);
    if Small(a + b) {
      SmallParts(a, b);
      KeyLengthsConcat(a, b);
      ValLengthsConcat(a, b);
    }
  }

  lemma {:induction false} SmallParts(a: seq<Member>, b: seq<Member>)
    ensures Small(a + b) ==> Small(a) && Small(b)
  {
    if Small(a + b) {
      forall i | 0 <= i < |a| ensures |a[i].key| < LENGTH_LIMIT && |a[i].val| < LENGTH_LIMIT {
        assert (a + b)[i] == a[i];
      }
      forall i | 0 <= i < |b| ensures |b[i].key| < LENGTH_LIMIT && |b[i].val| < LENGTH_LIMIT {
        assert (a + b)[|a| + i] == b[i];
      }
    }
  }

  lemma {:induction false} OneMember(m: Member)
    ensures Keys([m]) == m.key && Vals([m]) == m.val
    ensures Small([m]) ==> KeyLengths([m]) == U32(|m.key|) && ValLengths([m]) == U32(|m.val|)
  {
    assert Keys([m][..0]) == [] && Vals([m][..0]) == [];
    if Small([m]) {
      assert [m][..0] == [];
      assert KeyLengths([]) == [] && ValLengths([]) == [];
    }
  }

  /** The sizes the upsert computes are those of the members it will write. */
  lemma {:induction false} UpsertSizes(ms: seq<Member>, key: Bytes, val: Bytes)
    ensures var all := Upsert(ms, key, val); var found := LastIndex(ms, key);
      && |all| == |ms| + (if found.None? then 1 else 0)
      && |Keys(all)| == |Keys(ms)| - (if found.None? then 0 else |key|) + |key|
      && |Vals(all)| == |Vals(ms)| - (if found.None? then 0 else |ms[found.value].val|) + |val|
      && (found.Some? ==> |key| <= |Keys(ms)| && |ms[found.value].val| <= |Vals(ms)|)
  {
    hide Keys, Vals, LastIndex;
    RegionsConcat(Delete(ms, key), [Member(key, val)]);
    OneMember(Member(key, val));
    match LastIndex(ms, key)
    case None =>
    case Some(i) =>
      Around(ms, i);
  }

  /** The regions around one member. */
  lemma {:induction false} Around(ms: seq<Member>, i: nat)
    requires i < |ms|
    ensures var low, high := ms[..i], ms[i + 1..];
      && Keys(ms) == Keys(low) + ms[i].key + Keys(high)
      && Vals(ms) == Vals(low) + ms[i].val + Vals(high)
      && Keys(RemoveAt(ms, i)) == Keys(low) + Keys(high)
      && Vals(RemoveAt(ms, i)) == Vals(low) + Vals(high)
      && (Small(ms) ==>
            && Small(low) && Small(high) && Small(RemoveAt(ms, i))
            && KeyLengths(ms) == KeyLengths(low) + U32(|ms[i].key|) + KeyLengths(high)
            && ValLengths(ms) == ValLengths(low) + U32(|ms[i].val|) + ValLengths(high)
            && KeyLengths(RemoveAt(ms, i)) == KeyLengths(low) + KeyLengths(high)
            && ValLengths(RemoveAt(ms, i)) == ValLengths(low) + ValLengths(high))
  {
    hide Keys, Vals, KeyLengths, ValLengths, U32;
    var low, high := ms[..i], ms[i + 1..];
    assert ms == low + [ms[i]] + high;
    RegionsConcat(low + [ms[i]], high);
    RegionsConcat(low, [ms[i]]);
    RegionsConcat(low, high);
    OneMember(ms[i]);
  }

  /** Replaces the value of the key, or adds the pair; either way it ends up last. */
  method UpsertInBucket(blob: Bytes, key: Bytes, val: Bytes, ghost ms: seq<Member>) returns (result: Bytes)
    requires IsBucket(blob, ms)
    requires Fits(Upsert(ms, key, val))
    ensures IsBucket(result, Upsert(ms, key, val))
  {
    hide Encode, Keys, Vals, KeyLengths, ValLengths, U32, Counter, ReadU32, CounterSum, LastIndex, Filled;
    ghost var all := Upsert(ms, key, val);
    SizeOfBucket(blob, ms);
    UpsertSizes(ms, key, val);
    var oldSize := GetBucketSize(blob);
    var oldBytesForKeys, oldBytesForVals := 0, 0;
    EmptyRegions(ms);
    assert ms[..oldSize] == ms;
    if oldSize != 0 {
      SumsAreRegions(blob, ms, oldSize);
      oldBytesForKeys := SumCounters(blob, 1, oldSize);
      oldBytesForVals := SumCounters(blob, 1 + oldSize, oldSize);
    }
    var oldIdx, oldVal := FindInBucket(blob, key, ms);
    var newSize := if oldIdx.None? then oldSize + 1 else oldSize;
    var newBytesForKeys := oldBytesForKeys - (if oldIdx.None? then 0 else |key|) + |key|;
    var newBytesForVals := oldBytesForVals - |oldVal| + |val|;
    var newBytes := COUNTER + 2 * COUNTER * newSize + newBytesForKeys + newBytesForVals;
    assert newBytes == |Encode(all)|;
    var buffer := new byte[newBytes];
    CopyInto(buffer, 0, U32(newSize));
    FilledStart(buffer[..], all);
    CopyMembers(blob, ms, oldSize, oldBytesForKeys, oldIdx, buffer, newSize, newBytesForKeys, Member(key, val), all);
    FilledAll(buffer[..], all);
    result := buffer[..];
  }

  lemma {:induction false} FilledStart(buffer: Bytes, all: seq<Member>)
    requires Small(all) && |buffer| == |Encode(all)| && COUNTER <= |buffer|
    requires buffer[..COUNTER] == U32(|all|)
    ensures Filled(buffer, all, 0)
  {
    hide U32;
    assert all[..0] == [];
    assert KeyLengths([]) == [] && ValLengths([]) == [] && Keys([]) == [] && Vals([]) == [];
  }

  /** Copies every old member but the replaced one, then appends the new one. */
  method CopyMembers(blob: Bytes, ghost ms: seq<Member>, oldSize: nat, oldBytesForKeys: nat, oldIdx: Option<nat>,
                     buffer: array<byte>, newSize: nat, newBytesForKeys: nat, m: Member, ghost all: seq<Member>)
    requires IsBucket(blob, ms) && oldSize == |ms| && oldBytesForKeys == |Keys(ms)|
    requires oldIdx.Some? ==> oldIdx.value < |ms|
    requires all == (if oldIdx.None? then ms else RemoveAt(ms, oldIdx.value)) + [m]
    requires newSize == |all| && newBytesForKeys == |Keys(all)|
    requires Filled(buffer[..], all, 0)
    modifies buffer
    ensures Filled(buffer[..], all, |all|)
  {
    hide Encode, Keys, Vals, Counter, ReadU32, Filled, IsBucket;
    EmptyRegions(ms);
    EmptyRegions(all);
    var keyAt, valAt := COUNTER + 2 * COUNTER * oldSize, COUNTER + 2 * COUNTER * oldSize + oldBytesForKeys;
    var keysOut, valsOut := COUNTER + 2 * COUNTER * newSize, COUNTER + 2 * COUNTER * newSize + newBytesForKeys;
    var newIdx := 0;
    for i := 0 to oldSize
      invariant newIdx == if oldIdx.Some? && oldIdx.value < i then i - 1 else i
      invariant keyAt == KeysAt(ms) + |Keys(ms[..i])| && valAt == ValsAt(ms) + |Vals(ms[..i])|
      invariant keysOut == KeysAt(all) + |Keys(all[..newIdx])| && valsOut == ValsAt(all) + |Vals(all[..newIdx])|
      invariant Filled(buffer[..], all, newIdx)
    {
      MemberInBlob(blob, ms, i);
      var keyLength, valLength := Counter(blob, 1 + i), Counter(blob, 1 + oldSize + i);
      if oldIdx != Some(i) {
        var old' := Member(blob[keyAt..keyAt + keyLength], blob[valAt..valAt + valLength]);
        assert old' == ms[i] == all[newIdx];
        WriteMember(buffer, newSize, newIdx, keysOut, valsOut, old', all);
        keysOut, valsOut, newIdx := keysOut + keyLength, valsOut + valLength, newIdx + 1;
      }
      keyAt, valAt := keyAt + keyLength, valAt + valLength;
    }
    WriteMember(buffer, newSize, newIdx, keysOut, valsOut, m, all);
  }

  // ---- Removal inside the buffer ----

  function Drop(s: Bytes, off: nat, len: nat): Bytes
    requires off + len <= |s|
  {
    s[..off] + s[off + len..]
  }

  /** Moves the bytes that follow a part over it; the view shrinks by the part. */
  method RemovePart(buffer: array<byte>, size: nat, off: nat, len: nat)
    requires off + len <= size <= buffer.Length
    modifies buffer
    ensures buffer[..size - len] == Drop(old(buffer[..size]), off, len)
  {
    ghost var was := buffer[..];
    CopyInto(buffer, off, buffer[off + len..size]);
    ClosedGap(was, size, off, len);
  }

  lemma {:induction false} ClosedGap(s: Bytes, size: nat, off: nat, len: nat)
    requires off + len <= size <= |s|
    ensures Overwrite(s, off, s[off + len..size])[..size - len] == Drop(s[..size], off, len)
  {
  }

  lemma {:induction false} DropMiddle(a: Bytes, low: Bytes, x: Bytes, high: Bytes, b: Bytes)
    ensures Drop(a + (low + x + high) + b, |a| + |low|, |x|) == a + (low + high) + b
  {
  }

  /** Taking the value, the key and both lengths out, back to front, and lowering the count. */
  lemma {:induction false} RemovedLayout(ms: seq<Member>, i: nat)
    requires Small(ms) && i < |ms|
    ensures Small(RemoveAt(ms, i))
    ensures var n := |ms|; var s0 := Encode(ms);
      && ValsAt(ms) + |Vals(ms[..i])| + |ms[i].val| <= |s0|
      && var s1 := Drop(s0, ValsAt(ms) + |Vals(ms[..i])|, |ms[i].val|);
      && KeysAt(ms) + |Keys(ms[..i])| + |ms[i].key| <= |s1|
      && var s2 := Drop(s1, KeysAt(ms) + |Keys(ms[..i])|, |ms[i].key|);
      && COUNTER * (n + i + 1) + COUNTER <= |s2|
      && var s3 := Drop(s2, COUNTER * (n + i + 1), COUNTER);
      && COUNTER * (i + 1) + COUNTER <= |s3|
      && var s4 := Drop(s3, COUNTER * (i + 1), COUNTER);
      && COUNTER <= |s4|
      && s4[..COUNTER] == U32(n)
      && Overwrite(s4, 0, U32(n - 1)) == Encode(RemoveAt(ms, i))
  {
    hide Keys, Vals, KeyLengths, ValLengths, U32, Drop;
    var n, low, high, m := |ms|, ms[..i], ms[i + 1..], ms[i];
    Around(ms, i);
    FourDrops(U32(n), KeyLengths(low), U32(|m.key|), KeyLengths(high), ValLengths(low), U32(|m.val|), ValLengths(high),
              Keys(low), m.key, Keys(high), Vals(low), m.val, Vals(high));
    var rest := KeyLengths(RemoveAt(ms, i)) + ValLengths(RemoveAt(ms, i)) + Keys(RemoveAt(ms, i)) + Vals(RemoveAt(ms, i));
    assert Encode(RemoveAt(ms, i)) == U32(n - 1) + rest;
  }

  /** The middle of each of four parts taken out, the last part first. */
  lemma {:induction false} FourDrops(h: Bytes, a1: Bytes, x1: Bytes, b1: Bytes, a2: Bytes, x2: Bytes, b2: Bytes,
                                     a3: Bytes, x3: Bytes, b3: Bytes, a4: Bytes, x4: Bytes, b4: Bytes)
    ensures var p1, p2, p3, p4 := a1 + x1 + b1, a2 + x2 + b2, a3 + x3 + b3, a4 + x4 + b4;
      var q1, q2, q3, q4 := a1 + b1, a2 + b2, a3 + b3, a4 + b4;
      var s1 := h + p1 + p2 + p3 + q4;
      var s2 := h + p1 + p2 + q3 + q4;
      var s3 := h + p1 + q2 + q3 + q4;
      var s4 := h + q1 + q2 + q3 + q4;
      && Drop(h + p1 + p2 + p3 + p4, |h| + |p1| + |p2| + |p3| + |a4|, |x4|) == s1
      && Drop(s1, |h| + |p1| + |p2| + |a3|, |x3|) == s2
      && Drop(s2, |h| + |p1| + |a2|, |x2|) == s3
      && Drop(s3, |h| + |a1|, |x1|) == s4
      && s4[..|h|] == h && s4[|h|..] == q1 + q2 + q3 + q4
  {
    hide Drop;
    var p1, p2, p3, p4 := a1 + x1 + b1, a2 + x2 + b2, a3 + x3 + b3, a4 + x4 + b4;
    var q1, q2, q3, q4 := a1 + b1, a2 + b2, a3 + b3, a4 + b4;
    assert h + p1 + p2 + p3 + p4 + [] == h + p1 + p2 + p3 + p4 && h + p1 + p2 + p3 + q4 + [] == h + p1 + p2 + p3 + q4;
    DropMiddle(h + p1 + p2 + p3, a4, x4, b4, []);
    DropMiddle(h + p1 + p2, a3, x3, b3, q4);
    assert h + p1 + p2 + q3 + q4 == h + p1 + p2 + (q3 + q4) && h + p1 + q2 + q3 + q4 == h + p1 + q2 + (q3 + q4);
    DropMiddle(h + p1, a2, x2, b2, q3 + q4);
    assert h + p1 + q2 + q3 + q4 == h + p1 + (q2 + q3 + q4) && h + q1 + q2 + q3 + q4 == h + q1 + (q2 + q3 + q4);
    DropMiddle(h, a1, x1, b1, q2 + q3 + q4);
    assert h + q1 + q2 + q3 + q4 == h + (q1 + q2 + q3 + q4);
  }

  lemma {:induction false} RemovedFits(ms: seq<Member>, i: nat)
    requires Fits(ms) && i < |ms|
    ensures Fits(RemoveAt(ms, i))
  {
    hide Keys, Vals, KeyLengths, ValLengths, U32;
    Around(ms, i);
  }

  /** Cuts member `i` out of the buffer, back to front, and lowers the count. */
  method RemoveMember(buffer: array<byte>, size: nat, oldSize: nat, i: nat,
                      keyAt: nat, keyLength: nat, valAt: nat, valLength: nat, ghost ms: seq<Member>)
    returns (size': nat)
    requires size <= buffer.Length && Small(ms) && buffer[..size] == Encode(ms)
    requires i < oldSize == |ms|
    requires keyAt == KeysAt(ms) + |Keys(ms[..i])| && keyLength == |ms[i].key|
    requires valAt == ValsAt(ms) + |Vals(ms[..i])| && valLength == |ms[i].val|
    modifies buffer
    ensures size' <= size && Small(RemoveAt(ms, i)) && buffer[..size'] == Encode(RemoveAt(ms, i))
  {
    hide Keys, Vals, U32, Encode, Drop, Overwrite;
    RemovedLayout(ms, i);
    RemovePart(buffer, size, valAt, valLength);
    size' := size - valLength;
    RemovePart(buffer, size', keyAt, keyLength);
    size' := size' - keyLength;
    RemovePart(buffer, size', COUNTER * (oldSize + i + 1), COUNTER);
    size' := size' - COUNTER;
    RemovePart(buffer, size', COUNTER * (i + 1), COUNTER);
    size' := size' - COUNTER;
    ghost var whole := buffer[..];
    assert buffer[..size'] == whole[..size'];
    CopyInto(buffer, 0, U32(oldSize - 1));
    assert buffer[..size'] == buffer[..][..size'];
    OverwritePrefix(whole, size', U32(oldSize - 1));
  }

  /** Removes the key from a bucket in place; a bucket with no members left has no bytes. */
  method RemoveFromBucket(buffer: array<byte>, size: nat, key: Bytes, ghost ms: seq<Member>) returns (size': nat)
    requires size <= buffer.Length && IsBucket(buffer[..size], ms)
    modifies buffer
    ensures size' <= size && IsBucket(buffer[..size'], Delete(ms, key))
  {
    hide Keys, Vals, U32, Encode, LastIndex, CounterSum, Counter, ReadU32;
    var blob := buffer[..size];
    var oldIdx, oldVal := FindInBucket(blob, key, ms);
    if oldIdx.None? {
      return size;
    }
    SizeOfBucket(blob, ms);
    var oldSize := GetBucketSize(blob);
    if oldSize == 1 {
      return 0;
    }
    var i := oldIdx.value;
    RemovedFits(ms, i);
    SumsAreRegions(blob, ms, i);
    SumsAreRegions(blob, ms, oldSize);
    assert ms[..oldSize] == ms;
    var keysAt := COUNTER + 2 * COUNTER * oldSize;
    var bytesForKeys := SumCounters(blob, 1, oldSize);
    var keysBefore := SumCounters(blob, 1, i);
    var valsBefore := SumCounters(blob, 1 + oldSize, i);
    size' := RemoveMember(buffer, size, oldSize, i, keysAt + keysBefore, |key|,
                          keysAt + bytesForKeys + valsBefore, |oldVal|, ms);
  }

  lemma {:induction false} OverwritePrefix(s: Bytes, size: nat, src: Bytes)
    requires |src| <= size <= |s|
    ensures Overwrite(s, 0, src)[..size] == Overwrite(s[..size], 0, src)
  {
  }
}
