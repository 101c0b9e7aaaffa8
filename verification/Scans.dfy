/**
Key scans of two engines. The in-memory engine looks the start up and then asks for upper
bounds (`src/engine_umem.cpp`); the RocksDB engine seeks an iterator of the collection and
steps it (`src/engine_rocksdb.cpp`). The ordered container is its ascending sequence of places.
*/
module Scans {
  import opened Store
  import opened Sorting

  // ---- The reference ----

  /** The leading places of one collection, as keys. */
  function Leading(places: seq<Place>, collection: int): seq<int> {
    if places == [] || places[0].collection != collection then []
    else [places[0].key] + Leading(places[1..], collection)
  }

  /** The number of leading places before a given one. */
  function Before(places: seq<Place>, place: Place): (k: nat)
    ensures k <= |places|
  {
    if places == [] || !Less(places[0], place) then 0 else 1 + Before(places[1..], place)
  }

  function KeysFrom(places: seq<Place>, start: Place): seq<int> {
    Leading(places[Before(places, start)..], start.collection)
  }

  function Take(keys: seq<int>, limit: nat): seq<int> {
    if |keys| <= limit then keys else keys[..limit]
  }

  lemma {:induction false} BeforeSplits(places: seq<Place>, place: Place)
    requires Ascending(places)
    ensures forall i :: 0 <= i < Before(places, place) ==> Less(places[i], place)
    ensures forall i :: Before(places, place) <= i < |places| ==> !Less(places[i], place)
  {
    if places != [] && Less(places[0], place) {
      BeforeSplits(places[1..], place);
      assert forall i :: 1 <= i < |places| ==> places[i] == places[1..][i - 1];
    }
  }

  lemma {:induction false} LeadingMeans(places: seq<Place>, collection: int)
    requires Ascending(places)
    requires forall i :: 0 <= i < |places| ==> collection <= places[i].collection
    ensures forall key :: key in Leading(places, collection) <==> Place(collection, key) in places
    ensures forall i, j :: 0 <= i < j < |Leading(places, collection)| ==>
      Leading(places, collection)[i] < Leading(places, collection)[j]
  {
    if places != [] && places[0].collection == collection {
      var rest := Leading(places[1..], collection);
      LeadingMeans(places[1..], collection);
      forall i | 0 <= i < |rest| ensures places[0].key < rest[i] {
        assert rest[i] in rest;
        assert Place(collection, rest[i]) in places[1..];
      }
      assert places == [places[0]] + places[1..];
    }
  }

  /** The reference lists exactly the keys at or after the start in its collection, ascending. */
  lemma {:induction false} KeysFromMeans(places: seq<Place>, start: Place)
    requires Ascending(places)
    ensures forall key :: key in KeysFrom(places, start) <==> Place(start.collection, key) in places && start.key <= key
    ensures forall i, j :: 0 <= i < j < |KeysFrom(places, start)| ==> KeysFrom(places, start)[i] < KeysFrom(places, start)[j]
  {
    hide Before, Leading;
    var k := Before(places, start);
    BeforeSplits(places, start);
    LeadingMeans(places[k..], start.collection);
    forall key ensures Place(start.collection, key) in places[k..] <==>
      Place(start.collection, key) in places && start.key <= key
    {
      KeptFrom(places, start, k, key);
    }
  }

  lemma {:induction false} KeptFrom(places: seq<Place>, start: Place, k: nat, key: int)
    requires k <= |places|
    requires forall i :: 0 <= i < k ==> Less(places[i], start)
    requires forall i :: k <= i < |places| ==> !Less(places[i], start)
    ensures var place := Place(start.collection, key);
      place in places[k..] <==> place in places && start.key <= key
  {
    var place := Place(start.collection, key);
    assert places == places[..k] + places[k..];
    if place in places[..k] {
      assert Less(place, start);
    }
  }

  // ---- The in-memory engine ----

  /** The first place after a given one, as the container's `upper_bound` finds it. */
  function UpperBound(places: seq<Place>, place: Place): Option<Place> {
    if places == [] then None
    else if Less(place, places[0]) then Some(places[0])
    else UpperBound(places[1..], place)
  }

  /** Stepping from a stored place, or from just before the next stored one. */
  lemma {:induction false} UpperBoundIs(places: seq<Place>, place: Place, k: nat)
    requires Ascending(places) && k <= |places|
    requires forall i :: 0 <= i < k ==> !Less(place, places[i])
    requires k < |places| ==> Less(place, places[k])
    ensures UpperBound(places, place) == if k < |places| then Some(places[k]) else None
  {
    if places != [] && k != 0 {
      UpperBoundIs(places[1..], place, k - 1);
    }
  }

  /** What the scan returns: with limit zero a stored start is found before the limit is looked at. */
  function Scanned(places: seq<Place>, start: Place, limit: nat): seq<int> {
    if limit == 0 && start in places then KeysFrom(places, start) else Take(KeysFrom(places, start), limit)
  }

  /** With limit zero both stored keys are returned from the first one. */
  lemma {:induction false} ZeroLimitListsAll()
    ensures Scanned([Place(0, 1), Place(0, 2)], Place(0, 1), 0) == [1, 2]
  {
    var places := [Place(0, 1), Place(0, 2)];
    assert Before(places, Place(0, 1)) == 0 && places[0..] == places;
    assert places[1..] == [Place(0, 2)] && [Place(0, 2)][1..] == [];
    assert Leading([Place(0, 2)], 0) == [2] + Leading([], 0) == [2];
    assert [1] + [2] == [1, 2];
  }

  lemma {:induction false} StartIsListed(places: seq<Place>, start: Place)
    requires Ascending(places)
    ensures start in places ==> KeysFrom(places, start) != []
  {
    KeysFromMeans(places, start);
    if start in places {
      assert start == Place(start.collection, start.key);
      assert start.key in KeysFrom(places, start);
    }
  }

  /**
  Finds the start, then follows upper bounds until the limit, the end of the collection or the
  end of the container. The limit is only compared after the start was looked up.
  */
  method ScanAndWatch(places: seq<Place>, start: Place, limit: nat) returns (keys: seq<int>)
    requires Ascending(places)
    ensures keys == Scanned(places, start, limit)
    ensures keys == Take(KeysFrom(places, start), limit) <==> limit >= 1 || start !in places
    ensures |keys| <= limit <==> limit >= 1 || start !in places
    ensures keys <= KeysFrom(places, start)
    ensures limit >= 1 || start !in places ==>
      |keys| == limit || (|keys| < limit && keys == KeysFrom(places, start))
  {
    hide Before, Ascending, Leading, KeysFrom, UpperBound, Stepping;
    StartIsListed(places, start);
    keys := [];
    var previous, reachedEnd := start, false;
    ghost var all, at := KeysFrom(places, start), Before(places, start);
    StartsAt(places, start);
    if start in places {
      keys := [start.key];
      at := at + 1;
    }
    ghost var overrun := limit == 0 && start in places;
    while |keys| != limit && !reachedEnd
      invariant at <= |places| && previous.collection == start.collection
      invariant if reachedEnd then all == keys else Stepping(places, start, previous, at, keys)
      invariant if overrun then |keys| >= 1 else |keys| <= limit
      decreases |places| - at, !reachedEnd
    {
      StepTo(places, start, previous, at, keys);
      var next := UpperBound(places, previous);
      if next.None? {
        reachedEnd := true;
      } else {
        reachedEnd := next.value.collection != previous.collection;
        if !reachedEnd {
          keys := keys + [next.value.key];
          previous := Place(previous.collection, next.value.key);
          at := at + 1;
        }
      }
    }
    if !reachedEnd {
      StepPrefix(places, start, previous, at, keys);
    }
  }

  /** Everything before `at` is listed or passed; the container goes on with what the reference has left. */
  ghost predicate Stepping(places: seq<Place>, start: Place, previous: Place, at: nat, keys: seq<int>) {
    && at <= |places| && previous.collection == start.collection
    && (forall i :: 0 <= i < at ==> !Less(previous, places[i]))
    && (at < |places| ==> Less(previous, places[at]))
    && KeysFrom(places, start) == keys + Leading(places[at..], start.collection)
  }

  lemma {:induction false} StepPrefix(places: seq<Place>, start: Place, previous: Place, at: nat, keys: seq<int>)
    requires Stepping(places, start, previous, at, keys)
    ensures keys <= KeysFrom(places, start)
  {
  }

  lemma {:induction false} StepTo(places: seq<Place>, start: Place, previous: Place, at: nat, keys: seq<int>)
    requires Ascending(places) && Stepping(places, start, previous, at, keys)
    ensures UpperBound(places, previous) == if at < |places| then Some(places[at]) else None
    ensures at < |places| && places[at].collection == start.collection ==>
      Stepping(places, start, Place(previous.collection, places[at].key), at + 1, keys + [places[at].key])
    ensures !(at < |places| && places[at].collection == start.collection) ==> KeysFrom(places, start) == keys
  {
    hide KeysFrom;
    UpperBoundIs(places, previous, at);
    if at < |places| && places[at].collection == start.collection {
      AfterNext(places, at);
      assert Leading(places[at..], start.collection) == [places[at].key] + Leading(places[at + 1..], start.collection);
      assert keys + [places[at].key] + Leading(places[at + 1..], start.collection) ==
        keys + ([places[at].key] + Leading(places[at + 1..], start.collection));
    } else {
      assert Leading(places[at..], start.collection) == [];
    }
  }

  lemma {:induction false} AfterNext(places: seq<Place>, at: nat)
    requires Ascending(places) && at < |places|
    ensures forall i :: 0 <= i <= at ==> !Less(places[at], places[i])
    ensures at + 1 < |places| ==> Less(places[at], places[at + 1])
    ensures places[at..][1..] == places[at + 1..]
  {
  }

  lemma {:induction false} StartsAt(places: seq<Place>, start: Place)
    requires Ascending(places)
    ensures var k := Before(places, start);
      if start in places then k < |places| && Stepping(places, start, start, k + 1, [start.key])
      else Stepping(places, start, start, k, [])
  {
    BeforeSplits(places, start);
    var k := Before(places, start);
    if start in places {
      var i :| 0 <= i < |places| && places[i] == start;
      assert !(i < k);
      assert forall j :: k < j < |places| ==> Less(places[k], places[j]);
      AfterNext(places, k);
    } else {
      assert k < |places| ==> places[k] != start;
      assert KeysFrom(places, start) == [] + Leading(places[k..], start.collection);
    }
  }

  // ---- The RocksDB engine ----

  /** The keys of one column family. */
  function Column(places: seq<Place>, collection: int): seq<int> {
    if places == [] then []
    else if places[0].collection == collection then [places[0].key] + Column(places[1..], collection)
    else Column(places[1..], collection)
  }

  function Seek(column: seq<int>, key: int): (i: nat)
    ensures i <= |column|
  {
    if column == [] || key <= column[0] then 0 else 1 + Seek(column[1..], key)
  }

  lemma {:induction false} ColumnPastEnd(places: seq<Place>, collection: int)
    requires Ascending(places)
    requires forall i :: 0 <= i < |places| ==> collection <= places[i].collection
    ensures Column(places, collection) == Leading(places, collection)
  {
    if places != [] {
      ColumnPastEnd(places[1..], collection);
      if places[0].collection != collection {
        NoneLeft(places[1..], collection);
      }
    }
  }

  lemma {:induction false} NoneLeft(places: seq<Place>, collection: int)
    requires forall i :: 0 <= i < |places| ==> collection < places[i].collection
    ensures Column(places, collection) == []
  {
    if places != [] {
      NoneLeft(places[1..], collection);
    }
  }

  /** Seeking in the column is looking the start up in the whole container. */
  lemma {:induction false} SeekFinds(places: seq<Place>, start: Place)
    requires Ascending(places)
    ensures Column(places, start.collection)[Seek(Column(places, start.collection), start.key)..] == KeysFrom(places, start)
  {
    var column := Column(places, start.collection);
    if places == [] {
    } else if Less(places[0], start) {
      SeekFinds(places[1..], start);
      assert places[Before(places, start)..] == places[1..][Before(places[1..], start)..];
    } else {
      forall i | 0 <= i < |places| ensures start.collection <= places[i].collection {
        assert i == 0 || Less(places[0], places[i]);
      }
      ColumnPastEnd(places, start.collection);
      assert places[0..] == places;
      assert Seek(column, start.key) == 0;
    }
  }

  method SeekAndStep(places: seq<Place>, start: Place, limit: nat) returns (keys: seq<int>)
    requires Ascending(places)
    ensures keys == Take(KeysFrom(places, start), limit)
    ensures keys <= KeysFrom(places, start) && (|keys| == limit || (|keys| < limit && keys == KeysFrom(places, start)))
  {
    hide KeysFrom, Column, Seek, Ascending;
    var column := Column(places, start.collection);
    var at, j := Seek(column, start.key), 0;
    ghost var first := at;
    SeekFinds(places, start);
    keys := [];
    while at < |column| && j != limit
      invariant first <= at <= |column| && j == at - first == |keys| <= limit
      invariant keys == column[first..at]
    {
      assert column[first..at + 1] == column[first..at] + [column[at]];
      keys := keys + [column[at]];
      j := j + 1;
      at := at + 1;
    }
    assert column[first..][..j] == column[first..at];
    assert at == |column| ==> column[first..at] == column[first..];
  }

  /** The two engines answer alike exactly when the limit is positive or the start is not stored. */
  method ScansAgree(places: seq<Place>, start: Place, limit: nat) returns (umem: seq<int>, rocks: seq<int>)
    requires Ascending(places)
    ensures umem == rocks <==> limit >= 1 || start !in places
  {
    umem := ScanAndWatch(places, start, limit);
    rocks := SeekAndStep(places, start, limit);
  }

  // ---- A batch of scans ----

  datatype Scan = Scan(start: Place, limit: nat)

  function Limits(scans: seq<Scan>): nat {
    if scans == [] then 0 else Limits(scans[..|scans| - 1]) + scans[|scans| - 1].limit
  }

  /** All answers, one after another. */
  function AllKeys(places: seq<Place>, scans: seq<Scan>): seq<int> {
    if scans == [] then [] else
    var last := scans[|scans| - 1];
    AllKeys(places, scans[..|scans| - 1]) + Scanned(places, last.start, last.limit)
  }

  /** The memory asked for suffices when every limit is positive or its start is not stored. */
  lemma {:induction false} LimitsSuffice(places: seq<Place>, scans: seq<Scan>)
    requires forall i :: 0 <= i < |scans| ==> scans[i].limit >= 1 || scans[i].start !in places
    ensures |AllKeys(places, scans)| <= Limits(scans)
  {
    hide KeysFrom;
    if scans != [] {
      LimitsSuffice(places, scans[..|scans| - 1]);
    }
  }

  /** A single scan outgrows its memory exactly with limit zero and a stored start. */
  lemma {:induction false} OneScanFits(places: seq<Place>, scan: Scan)
    requires Ascending(places)
    ensures |AllKeys(places, [scan])| <= Limits([scan]) <==> scan.limit >= 1 || scan.start !in places
  {
    hide KeysFrom, Ascending;
    assert [scan][..0] == [];
    StartIsListed(places, scan.start);
  }

  lemma {:induction false} AllKeysGrow(places: seq<Place>, scans: seq<Scan>, i: nat)
    requires i <= |scans|
    ensures |AllKeys(places, scans[..i])| <= |AllKeys(places, scans)|
    decreases |scans|
  {
    hide Scanned;
    if i < |scans| {
      AllKeysGrow(places, scans[..|scans| - 1], i);
      assert scans[..|scans| - 1][..i] == scans[..i];
    } else {
      assert scans[..i] == scans;
    }
  }

  method Append(keys: array<int>, at: nat, found: seq<int>)
    requires at + |found| <= keys.Length
    modifies keys
    ensures keys[..at + |found|] == old(keys[..at]) + found
  {
    ghost var was := keys[..at];
    for j := 0 to |found|
      invariant keys[..at] == was
      invariant keys[at..at + j] == found[..j]
    {
      ghost var written := keys[at..at + j];
      keys[at + j] := found[j];
      assert keys[at..at + j + 1] == written + [found[j]];
      assert keys[..at] == was;
    }
    assert keys[..at + |found|] == keys[..at] + keys[at..at + |found|];
  }

  function Answer(places: seq<Place>, scan: Scan): seq<int> {
    Scanned(places, scan.start, scan.limit)
  }

  ghost predicate Answered(offsets: seq<nat>, counts: seq<nat>, keys: seq<int>, i: nat, answer: seq<int>)
    requires i < |counts| && |offsets| == |counts| + 1
  {
    offsets[i + 1] == offsets[i] + counts[i] <= |keys| && keys[offsets[i]..offsets[i + 1]] == answer
  }

  /**
  The output of a batch, for which memory is allocated by the limits: offsets are the prefix sums
  of the counts. The source writes every key it finds, so the answers have to fit together.
  */
  method ScanBatch(places: seq<Place>, scans: seq<Scan>)
    returns (offsets: seq<nat>, counts: seq<nat>, keys: array<int>)
    requires Ascending(places)
    requires |AllKeys(places, scans)| <= Limits(scans)
    ensures |offsets| == |scans| + 1 && |counts| == |scans| && keys.Length == Limits(scans)
    ensures offsets[0] == 0
    ensures forall i :: 0 <= i < |scans| ==> Answered(offsets, counts, keys[..], i, Answer(places, scans[i]))
  {
    hide Scanned, Ascending, AllKeys, Limits;
    offsets, counts := [], [];
    keys := new int[Limits(scans)];
    var at := 0;
    assert AllKeys(places, scans[..0]) == [] by { NoKeysYet(places, scans[..0]); }
    for i := 0 to |scans|
      invariant |offsets| == |counts| == i
      invariant at == |AllKeys(places, scans[..i])| <= keys.Length
      invariant keys[..at] == AllKeys(places, scans[..i])
      invariant forall k :: 0 <= k < i ==> offsets[k] == |AllKeys(places, scans[..k])|
      invariant forall k :: 0 <= k < i ==> counts[k] == |Answer(places, scans[k])|
    {
      AllKeysGrow(places, scans, i + 1);
      AllKeysStep(places, scans, i);
      offsets := offsets + [at];
      var found := ScanAndWatch(places, scans[i].start, scans[i].limit);
      Append(keys, at, found);
      counts := counts + [|found|];
      at := at + |found|;
    }
    offsets := offsets + [at];
    assert scans[..|scans|] == scans;
    assert keys[..][..at] == keys[..at];
    BatchAnswered(places, scans, offsets, counts, keys[..]);
  }

  lemma {:induction false} BatchAnswered(places: seq<Place>, scans: seq<Scan>, offsets: seq<nat>, counts: seq<nat>, keys: seq<int>)
    requires |offsets| == |scans| + 1 && |counts| == |scans| && offsets[|scans|] <= |keys|
    requires keys[..offsets[|scans|]] == AllKeys(places, scans)
    requires forall k :: 0 <= k <= |scans| ==> offsets[k] == |AllKeys(places, scans[..k])|
    requires forall k :: 0 <= k < |scans| ==> counts[k] == |Answer(places, scans[k])|
    ensures offsets[0] == 0
    ensures forall i :: 0 <= i < |scans| ==> Answered(offsets, counts, keys, i, Answer(places, scans[i]))
  {
    hide Scanned, AllKeys;
    NoKeysYet(places, scans[..0]);
    var at := offsets[|scans|];
    forall i | 0 <= i < |scans| ensures Answered(offsets, counts, keys, i, Answer(places, scans[i])) {
      AllKeysStep(places, scans, i);
      AllKeysSlice(places, scans, i);
      AllKeysGrow(places, scans, i + 1);
      assert scans[..|scans|] == scans;
      SliceOfPrefix(keys, at, offsets[i], offsets[i + 1]);
    }
  }

  lemma {:induction false} SliceOfPrefix(s: seq<int>, n: nat, from: nat, to: nat)
    requires from <= to <= n <= |s|
    ensures s[from..to] == s[..n][from..to]
  {
  }

  lemma {:induction false} NoKeysYet(places: seq<Place>, scans: seq<Scan>)
    requires scans == []
    ensures AllKeys(places, scans) == []
  {
  }

  lemma {:induction false} AllKeysStep(places: seq<Place>, scans: seq<Scan>, i: nat)
    requires i < |scans|
    ensures AllKeys(places, scans[..i + 1]) ==
      AllKeys(places, scans[..i]) + Scanned(places, scans[i].start, scans[i].limit)
  {
    assert scans[..i + 1][..i] == scans[..i];
  }

  lemma {:induction false} AllKeysSlice(places: seq<Place>, scans: seq<Scan>, i: nat)
    requires i < |scans|
    ensures var from, found := |AllKeys(places, scans[..i])|, Scanned(places, scans[i].start, scans[i].limit);
      && from + |found| <= |AllKeys(places, scans)|
      && AllKeys(places, scans)[from..from + |found|] == found
    decreases |scans|
  {
    hide Scanned;
    var n := |scans| - 1;
    if i < n {
      AllKeysSlice(places, scans[..n], i);
      assert scans[..n][..i] == scans[..i];
    } else {
      assert scans[..i] == scans[..n];
    }
  }
}
