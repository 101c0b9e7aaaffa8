/**
The batched read of paths (`ukv_paths_read`). The buckets arrive joined on one tape, and the
values found in them are moved to the front of that same tape.
*/
module PathRead {
  import opened Store
  import opened PathLayout
  import opened PathBucket
  import opened Buffers
  import opened PathStore

  // ---- The tape a read returns ----

  function Joined(blobs: seq<Bytes>): Bytes {
    if blobs == [] then [] else Joined(blobs[..|blobs| - 1]) + blobs[|blobs| - 1]
  }

  /** Where blob `i` starts. */
  function Offset(blobs: seq<Bytes>, i: nat): nat
    requires i <= |blobs|
  {
    |Joined(blobs[..i])|
  }

  lemma {:induction false} JoinedSlices(blobs: seq<Bytes>, i: nat)
    requires i < |blobs|
    ensures Offset(blobs, i) + |blobs[i]| == Offset(blobs, i + 1) <= |Joined(blobs)|
    ensures Joined(blobs)[Offset(blobs, i)..Offset(blobs, i + 1)] == blobs[i]
    decreases |blobs|
  {
    var n := |blobs| - 1;
    assert blobs[..i + 1][..i] == blobs[..i];
    if i < n {
      JoinedSlices(blobs[..n], i);
      assert blobs[..n][..i] == blobs[..i] && blobs[..n][..i + 1] == blobs[..i + 1];
    } else {
      assert blobs[..i + 1] == blobs;
    }
  }

  // ---- The tape the caller gets ----

  /** What one task exports: the value and a terminator, or nothing. */
  function Exported(answer: Option<Bytes>): Bytes {
    if answer.Some? then answer.value + [0] else []
  }

  function ExportAll(answers: seq<Option<Bytes>>): Bytes {
    if answers == [] then [] else ExportAll(answers[..|answers| - 1]) + Exported(answers[|answers| - 1])
  }

  lemma {:induction false} ExportStep(answers: seq<Option<Bytes>>, i: nat)
    requires i < |answers|
    ensures ExportAll(answers[..i + 1]) == ExportAll(answers[..i]) + Exported(answers[i])
  {
    assert answers[..i + 1][..i] == answers[..i];
  }

  lemma {:induction false} ExportSlices(answers: seq<Option<Bytes>>, i: nat)
    requires i < |answers|
    ensures var from := |ExportAll(answers[..i])|;
      && from + |Exported(answers[i])| <= |ExportAll(answers)|
      && ExportAll(answers)[from..from + |Exported(answers[i])|] == Exported(answers[i])
    decreases |answers|
  {
    hide Exported;
    var n := |answers| - 1;
    if i < n {
      ExportSlices(answers[..n], i);
      assert answers[..n][..i] == answers[..i];
    } else {
      assert answers[..i] == answers[..n];
    }
  }

  /** A value found in a bucket, with its terminator, is shorter than the bucket. */
  lemma {:induction false} ValueFitsBucket(blob: Bytes, ms: seq<Member>, i: nat)
    requires IsBucket(blob, ms) && i < |ms|
    ensures |ms[i].val| + 1 <= |blob|
  {
    MemberInBlob(blob, ms, i);
  }

  function Answers(members: seq<seq<Member>>, names: seq<Bytes>): (answers: seq<Option<Bytes>>)
    requires |members| == |names|
    ensures |answers| == |names|
  {
    seq(|names|, i requires 0 <= i < |names| => Lookup(members[i], names[i]))
  }

  lemma {:induction false} FoundIsAnswer(ms: seq<Member>, name: Bytes)
    ensures Lookup(ms, name) == match LastIndex(ms, name) case Some(i) => Some(ms[i].val) case None => None
  {
  }

  /** The tape still holds every bucket from number `i` on. */
  ghost predicate Unread(tape: Bytes, blobs: seq<Bytes>, i: nat) {
    && i <= |blobs| && |tape| == |Joined(blobs)|
    && Offset(blobs, i) <= |tape|
    && tape[Offset(blobs, i)..] == Joined(blobs)[Offset(blobs, i)..]
  }

  lemma {:induction false} UnreadStep(tape: Bytes, tape': Bytes, blobs: seq<Bytes>, i: nat, at: nat)
    requires Unread(tape, blobs, i) && i < |blobs|
    requires |tape'| == |tape| && at <= Offset(blobs, i + 1) && at <= |tape| && tape'[at..] == tape[at..]
    ensures Unread(tape', blobs, i + 1)
    ensures Offset(blobs, i) <= Offset(blobs, i + 1) <= |tape|
    ensures tape[Offset(blobs, i)..Offset(blobs, i + 1)] == blobs[i]
  {
    hide Joined;
    JoinedSlices(blobs, i);
    var j, from, to := Joined(blobs), Offset(blobs, i), Offset(blobs, i + 1);
    assert tape[from..to] == tape[from..][..to - from] == j[from..][..to - from] == j[from..to];
    assert tape'[to..] == tape'[at..][to - at..] == tape[at..][to - at..] == tape[to..];
    assert tape[to..] == tape[from..][to - from..] == j[from..][to - from..] == j[to..];
  }

  /**
  Moves the found values to the front of the tape they were found on. No bucket is overwritten
  before it is read: what was exported never passes the next bucket's start.
  */
  method CompactInPlace(tape: array<byte>, blobs: seq<Bytes>, names: seq<Bytes>, ghost members: seq<seq<Member>>)
    returns (offsets: seq<nat>, lengths: seq<Option<nat>>)
    requires |blobs| == |names| == |members| && tape[..] == Joined(blobs)
    requires forall i :: 0 <= i < |blobs| ==> IsBucket(blobs[i], members[i])
    modifies tape
    ensures |offsets| == |names| + 1 && |lengths| == |names|
    ensures forall i :: 0 <= i <= |names| ==> offsets[i] == |ExportAll(Answers(members, names)[..i])|
    ensures forall i :: 0 <= i < |names| ==>
      lengths[i] == if Lookup(members[i], names[i]).Some? then Some(|Lookup(members[i], names[i]).value|) else None
    ensures offsets[|names|] <= tape.Length
    ensures tape[..offsets[|names|]] == ExportAll(Answers(members, names))
  {
    hide Joined, ExportAll, Exported, LastIndex, IsBucket, Offset, Unread, Lookup;
    ghost var answers := Answers(members, names);
    var volume := 0;
    offsets, lengths := [], [];
    StartsUnread(tape[..], blobs, answers);
    for i := 0 to |names|
      invariant |offsets| == |lengths| == i
      invariant volume == |ExportAll(answers[..i])| <= Offset(blobs, i) <= tape.Length
      invariant tape[..volume] == ExportAll(answers[..i])
      invariant Unread(tape[..], blobs, i)
      invariant forall k :: 0 <= k < i ==> offsets[k] == |ExportAll(answers[..k])|
      invariant forall k :: 0 <= k < i ==> lengths[k] == if answers[k].Some? then Some(|answers[k].value|) else None
    {
      ghost var before := tape[..];
      UnreadStep(before, before, blobs, i, 0);
      ExportStep(answers, i);
      ExportedIs(answers[i]);
      offsets := offsets + [volume];
      var bucket := tape[Offset(blobs, i)..Offset(blobs, i + 1)];
      assert bucket == blobs[i];
      var found, val := FindInBucket(bucket, names[i], members[i]);
      FoundIsAnswer(members[i], names[i]);
      if found.Some? {
        lengths := lengths + [Some(|val|)];
        volume := ExportFound(tape, volume, val, blobs, i, members[i], found.value);
      } else {
        lengths := lengths + [None];
      }
    }
    offsets := offsets + [volume];
    assert answers[..|names|] == answers;
  }

  /** Moves one found value, and its terminator, behind those exported before it. */
  method ExportFound(tape: array<byte>, volume: nat, val: Bytes, ghost blobs: seq<Bytes>, ghost i: nat,
                     ghost ms: seq<Member>, ghost found: nat)
    returns (volume': nat)
    requires Unread(tape[..], blobs, i) && i < |blobs| && volume <= Offset(blobs, i)
    requires IsBucket(blobs[i], ms) && found < |ms| && val == ms[found].val
    modifies tape
    ensures volume' == volume + |val| + 1 <= Offset(blobs, i + 1) <= tape.Length
    ensures tape[..volume'] == old(tape[..volume]) + (val + [0])
    ensures Unread(tape[..], blobs, i + 1)
  {
    hide Joined, IsBucket, Offset, Unread, Overwrite;
    ghost var before := tape[..];
    UnreadStep(before, before, blobs, i, 0);
    ValueFitsBucket(blobs[i], ms, found);
    volume' := volume + |val| + 1;
    CopyInto(tape, volume, val + [0]);
    Moved(before, tape[..], volume, val + [0]);
    UnreadStep(before, tape[..], blobs, i, volume');
  }

  lemma {:induction false} ExportedIs(answer: Option<Bytes>)
    ensures Exported(answer) == if answer.Some? then answer.value + [0] else []
  {
  }

  lemma {:induction false} StartsUnread(tape: Bytes, blobs: seq<Bytes>, answers: seq<Option<Bytes>>)
    requires tape == Joined(blobs)
    ensures Unread(tape, blobs, 0) && Offset(blobs, 0) == 0 && ExportAll(answers[..0]) == []
  {
    assert blobs[..0] == [] && answers[..0] == [];
    assert Joined([]) == [];
  }

  lemma {:induction false} Moved(before: Bytes, after: Bytes, at: nat, src: Bytes)
    requires at + |src| <= |before| && after == Overwrite(before, at, src)
    ensures after[..at + |src|] == before[..at] + src
    ensures after[at + |src|..] == before[at + |src|..]
  {
  }

  /** Every task's slice is the lookup of its path and a zero byte, whatever repeats or is missing. */
  method PathsRead(hash: Hash, pairs: Pairs, paths: seq<Path>)
    returns (tape: array<byte>, offsets: seq<nat>, lengths: seq<Option<nat>>)
    requires ValidStore(hash, pairs)
    ensures |offsets| == |paths| + 1 && |lengths| == |paths|
    ensures forall i :: 0 <= i < |paths| ==> TaskAnswered(tape[..], offsets, lengths, i, LookupPath(hash, pairs, paths[i]))
  {
    hide Joined, ExportAll, LastIndex, IsBucket, Decode, Lookup;
    var blobs := seq(|paths|, i requires 0 <= i < |paths| => Fetched(pairs, PlaceOf(hash, paths[i])));
    var names := seq(|paths|, i requires 0 <= i < |paths| => paths[i].name);
    ghost var members := seq(|paths|, i requires 0 <= i < |paths| => Decode(blobs[i]));
    forall i | 0 <= i < |paths| ensures IsBucket(blobs[i], members[i]) {
      FetchedIsGood(hash, pairs, PlaceOf(hash, paths[i]));
    }
    var joined := Joined(blobs);
    tape := new byte[|joined|](i requires 0 <= i < |joined| => joined[i]);
    assert tape[..] == joined;
    offsets, lengths := CompactInPlace(tape, blobs, names, members);
    ghost var answers := Answers(members, names);
    assert tape[..][..offsets[|paths|]] == ExportAll(answers);
    forall i | 0 <= i < |paths| ensures TaskAnswered(tape[..], offsets, lengths, i, LookupPath(hash, pairs, paths[i])) {
      SliceAnswers(tape[..], offsets, lengths, answers, i);
    }
  }

  ghost predicate TaskAnswered(tape: Bytes, offsets: seq<nat>, lengths: seq<Option<nat>>, i: nat, answer: Option<Bytes>)
    requires i < |lengths| && |offsets| == |lengths| + 1
  {
    match answer
    case None => lengths[i] == None && offsets[i + 1] == offsets[i]
    case Some(val) =>
      && lengths[i] == Some(|val|)
      && offsets[i + 1] == offsets[i] + |val| + 1 <= |tape|
      && tape[offsets[i]..offsets[i + 1]] == val + [0]
  }

  lemma {:induction false} SliceAnswers(tape: Bytes, offsets: seq<nat>, lengths: seq<Option<nat>>,
                                        answers: seq<Option<Bytes>>, i: nat)
    requires |answers| == |lengths| && |offsets| == |lengths| + 1 && i < |lengths|
    requires forall k :: 0 <= k <= |lengths| ==> offsets[k] == |ExportAll(answers[..k])|
    requires lengths[i] == if answers[i].Some? then Some(|answers[i].value|) else None
    requires offsets[|lengths|] <= |tape| && tape[..offsets[|lengths|]] == ExportAll(answers)
    ensures TaskAnswered(tape, offsets, lengths, i, answers[i])
  {
    hide ExportAll;
    ExportStep(answers, i);
    ExportSlices(answers, i);
    assert answers[..|lengths|] == answers;
    if answers[i].Some? {
      assert tape[offsets[i]..offsets[i + 1]] == tape[..offsets[|lengths|]][offsets[i]..offsets[i + 1]];
    }
  }
}
