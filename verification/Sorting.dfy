/**
The helpers every batched modality call starts with: sort the touched places, drop repetitions,
and later find each task's place by binary search.
*/
module Sorting {
  import opened Store

  predicate Ascending(places: seq<Place>) {
    forall i, j :: 0 <= i < j < |places| ==> Less(places[i], places[j])
  }

  function InsertPlace(places: seq<Place>, place: Place): seq<Place> {
    if places == [] || Less(place, places[0]) then [place] + places
    else if place == places[0] then places
    else [places[0]] + InsertPlace(places[1..], place)
  }

  /** What `std::sort` followed by `std::unique` leaves. */
  function SortAndDeduplicate(places: seq<Place>): seq<Place> {
    if places == [] then []
    else InsertPlace(SortAndDeduplicate(places[1..]), places[0])
  }

  lemma {:induction false} InsertPlaceSorts(places: seq<Place>, place: Place)
    requires Ascending(places)
    ensures Ascending(InsertPlace(places, place))
    ensures forall p :: p in InsertPlace(places, place) <==> p in places || p == place
  {
    if places == [] || Less(place, places[0]) || place == places[0] {
    } else {
      InsertPlaceSorts(places[1..], place);
      var rest := InsertPlace(places[1..], place);
      forall p | p in rest ensures Less(places[0], p) {
        assert p in places[1..] || p == place;
      }
      assert forall i :: 0 <= i < |rest| ==> rest[i] in rest;
    }
  }

  /** Sorting and deduplicating keeps exactly the places that occur, strictly ascending. */
  lemma {:induction false} SortedAndDeduplicated(places: seq<Place>)
    ensures Ascending(SortAndDeduplicate(places))
    ensures forall p :: p in SortAndDeduplicate(places) <==> p in places
  {
    if places != [] {
      SortedAndDeduplicated(places[1..]);
      InsertPlaceSorts(SortAndDeduplicate(places[1..]), places[0]);
    }
  }

  lemma {:induction false} AscendingIsDistinct(places: seq<Place>)
    requires Ascending(places)
    ensures DistinctPlaces(places)
  {
    forall i, j | 0 <= i < j < |places| ensures places[i] != places[j] {
      assert Less(places[i], places[j]);
    }
  }

  method OffsetInSorted(places: seq<Place>, wanted: Place) returns (k: nat)
    requires Ascending(places)
    ensures k <= |places|
    ensures forall i :: 0 <= i < k ==> Less(places[i], wanted)
    ensures forall i :: k <= i < |places| ==> !Less(places[i], wanted)
    ensures wanted in places ==> k < |places| && places[k] == wanted
  {
    var low, high := 0, |places|;
    while low < high
      invariant 0 <= low <= high <= |places|
      invariant forall i :: 0 <= i < low ==> Less(places[i], wanted)
      invariant forall i :: high <= i < |places| ==> !Less(places[i], wanted)
    {
      var middle := (low + high) / 2;
      if Less(places[middle], wanted) {
        low := middle + 1;
      } else {
        high := middle;
      }
    }
    k := low;
  }

  lemma {:induction false} InsertPlaceSize(places: seq<Place>, place: Place)
    requires Ascending(places)
    ensures |InsertPlace(places, place)| == |places| + if place in places then 0 else 1
  {
    if places != [] && !Less(place, places[0]) && place != places[0] {
      InsertPlaceSize(places[1..], place);
      assert place in places <==> place in places[1..];
    } else if places != [] && Less(place, places[0]) {
      assert forall i :: 0 <= i < |places| ==> places[i] == places[0] || Less(places[0], places[i]);
    }
  }

  /** Nothing is dropped exactly when the places are distinct. */
  lemma {:induction false} DeduplicatedSize(places: seq<Place>)
    ensures |SortAndDeduplicate(places)| <= |places|
    ensures |SortAndDeduplicate(places)| == |places| <==> DistinctPlaces(places)
  {
    hide Ascending;
    if places != [] {
      DeduplicatedSize(places[1..]);
      SortedAndDeduplicated(places[1..]);
      InsertPlaceSize(SortAndDeduplicate(places[1..]), places[0]);
      DistinctStep(places);
    }
  }

  lemma {:induction false} DistinctStep(places: seq<Place>)
    requires places != []
    ensures DistinctPlaces(places) <==> places[0] !in places[1..] && DistinctPlaces(places[1..])
  {
    var rest := places[1..];
    assert forall i :: 0 <= i < |rest| ==> rest[i] == places[i + 1];
    if DistinctPlaces(places) {
      forall i, j | 0 <= i < j < |rest| ensures rest[i] != rest[j] {
        assert places[i + 1] != places[j + 1];
      }
    }
    if places[0] !in rest && DistinctPlaces(rest) {
      forall i, j | 0 <= i < j < |places| ensures places[i] != places[j] {
        assert rest[j - 1] in rest;
        assert i > 0 ==> rest[i - 1] != rest[j - 1];
      }
    }
  }
}
