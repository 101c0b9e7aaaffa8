/**
The common base of every modality: one ordered map from (collection, key) to a blob.
*/
module Store {

  newtype byte = x: int | 0 <= x < 256

  type Bytes = seq<byte>

  datatype Option<+T> = None | Some(value: T)

  /** The address of one blob; the engine keeps the blobs ordered by it. */
  datatype Place = Place(collection: int, key: int)

  type Pairs = map<Place, Bytes>

  predicate Less(a: Place, b: Place) {
    a.collection < b.collection || (a.collection == b.collection && a.key < b.key)
  }

  function Find(pairs: Pairs, place: Place): Option<Bytes> {
    if place in pairs then Some(pairs[place]) else None
  }

  /** Writing a missing value erases the pair. */
  function Put(pairs: Pairs, place: Place, content: Option<Bytes>): Pairs {
    match content
    case Some(bytes) => pairs[place := bytes]
    case None => pairs - {place}
  }

  /** The writes of a batch, in order. */
  function PutAll(pairs: Pairs, places: seq<Place>, contents: seq<Option<Bytes>>): Pairs
    requires |places| == |contents|
    decreases |places|
  {
    if places == [] then pairs
    else PutAll(Put(pairs, places[0], contents[0]), places[1..], contents[1..])
  }

  /** The answers of a batched read. */
  function FindAll(pairs: Pairs, places: seq<Place>): (found: seq<Option<Bytes>>)
    ensures |found| == |places|
    ensures forall i :: 0 <= i < |places| ==> found[i] == Find(pairs, places[i])
  {
    seq(|places|, i requires 0 <= i < |places| => Find(pairs, places[i]))
  }

  ghost predicate DistinctPlaces(places: seq<Place>) {
    forall i, j :: 0 <= i < j < |places| ==> places[i] != places[j]
  }

  lemma {:induction false} WrittenElsewhere(pairs: Pairs, places: seq<Place>, contents: seq<Option<Bytes>>, place: Place)
    requires |places| == |contents| && place !in places
    ensures Find(PutAll(pairs, places, contents), place) == Find(pairs, place)
    decreases |places|
  {
    if places != [] {
      assert places[0] in places;
      WrittenElsewhere(Put(pairs, places[0], contents[0]), places[1..], contents[1..], place);
    }
  }

  lemma {:induction false} WrittenAt(pairs: Pairs, places: seq<Place>, contents: seq<Option<Bytes>>, i: nat)
    requires |places| == |contents| && i < |places| && DistinctPlaces(places)
    ensures Find(PutAll(pairs, places, contents), places[i]) == contents[i]
    decreases |places|
  {
    var after := Put(pairs, places[0], contents[0]);
    if i == 0 {
      assert forall j :: 0 <= j < |places[1..]| ==> places[1..][j] == places[j + 1];
      WrittenElsewhere(after, places[1..], contents[1..], places[0]);
    } else {
      WrittenAt(after, places[1..], contents[1..], i - 1);
    }
  }
}
