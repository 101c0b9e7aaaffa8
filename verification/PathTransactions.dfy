/**
Path batches inside transactions: a path write is a watched read-modify-write of the buckets it
touches, so under every interleaving the committed batches build the map they would build one
after another.
*/
module PathTransactions {
  import opened Store
  import opened Sorting
  import opened PathStore
  import opened Frames
  import Transactions

  function TouchedPlaces(hash: Hash, tasks: seq<Task>): (touched: seq<Place>)
    ensures |touched| == |tasks| && forall i :: 0 <= i < |tasks| ==> touched[i] == PlaceOf(hash, tasks[i].path)
  {
    seq(|tasks|, i requires 0 <= i < |tasks| => PlaceOf(hash, tasks[i].path))
  }

  function Buckets(hash: Hash, tasks: seq<Task>): seq<Place> {
    SortAndDeduplicate(TouchedPlaces(hash, tasks))
  }

  /** What is written for one bucket, from nothing but the buckets that were read. */
  function Rewritten(hash: Hash, tasks: seq<Task>, found: seq<Option<Bytes>>, i: nat): Option<Bytes> {
    var places := Buckets(hash, tasks);
    if |found| != |places| || i >= |places| then None else
      var read := PutAll(map[], places, found);
      FinalView(hash, read, places[i], tasks, TapeHasBytes(hash, read, tasks))
  }

  /** A path write as a read-modify-write; it watches its writes too. */
  function PathUpdate(hash: Hash, tasks: seq<Task>): Transactions.Update {
    Transactions.Update(Buckets(hash, tasks), (found: seq<Option<Bytes>>, i: nat) => Rewritten(hash, tasks, found, i), false)
  }

  // ---- A batch only depends on the buckets it touches ----

  lemma {:induction false} SameFetched(hash: Hash, a: Pairs, b: Pairs, place: Place, tasks: seq<Task>, tape: bool)
    requires Fetched(a, place) == Fetched(b, place)
    ensures FinalMembers(hash, a, place, tasks) == FinalMembers(hash, b, place, tasks)
    ensures FinalView(hash, a, place, tasks, tape) == FinalView(hash, b, place, tasks, tape)
  {
    hide UpdateMembers, UpdateView, Decode;
    if tasks != [] {
      SameFetched(hash, a, b, place, tasks[..|tasks| - 1], tape);
    }
  }

  lemma {:induction false} ReadBack(pairs: Pairs, places: seq<Place>, i: nat)
    requires DistinctPlaces(places) && i < |places|
    ensures Fetched(PutAll(map[], places, FindAll(pairs, places)), places[i]) == Fetched(pairs, places[i])
  {
    var read := PutAll(map[], places, FindAll(pairs, places));
    WrittenAt(map[], places, FindAll(pairs, places), i);
    assert Find(read, places[i]) == Find(pairs, places[i]);
  }

  lemma {:induction false} BucketsAre(hash: Hash, tasks: seq<Task>)
    ensures DistinctPlaces(Buckets(hash, tasks))
    ensures forall place :: place in Buckets(hash, tasks) <==> Mentioned(hash, tasks, place)
  {
    var touched := TouchedPlaces(hash, tasks);
    SortedAndDeduplicated(touched);
    AscendingIsDistinct(Buckets(hash, tasks));
    MentionedIs(hash, tasks, touched, Buckets(hash, tasks));
  }

  lemma {:induction false} SameTape(hash: Hash, pairs: Pairs, tasks: seq<Task>)
    ensures var places := Buckets(hash, tasks);
      TapeHasBytes(hash, PutAll(map[], places, FindAll(pairs, places)), tasks) <==> TapeHasBytes(hash, pairs, tasks)
  {
    hide Buckets, Mentioned;
    var places := Buckets(hash, tasks);
    var read := PutAll(map[], places, FindAll(pairs, places));
    BucketsAre(hash, tasks);
    forall i | 0 <= i < |tasks|
      ensures Fetched(read, PlaceOf(hash, tasks[i].path)) == Fetched(pairs, PlaceOf(hash, tasks[i].path))
    {
      MentionedAt(hash, tasks, i);
      var k :| 0 <= k < |places| && places[k] == PlaceOf(hash, tasks[i].path);
      ReadBack(pairs, places, k);
    }
  }

  lemma {:induction false} MentionedAt(hash: Hash, tasks: seq<Task>, i: nat)
    requires i < |tasks|
    ensures Mentioned(hash, tasks, PlaceOf(hash, tasks[i].path))
  {
  }

  /** Applying the update is writing the batch. */
  lemma {:induction false} UpdateWrites(hash: Hash, pairs: Pairs, tasks: seq<Task>)
    ensures Written(hash, pairs, tasks, Transactions.Apply(pairs, PathUpdate(hash, tasks)))
  {
    hide Buckets, Mentioned, FinalView, TapeHasBytes;
    var update, places := PathUpdate(hash, tasks), Buckets(hash, tasks);
    var found := FindAll(pairs, places);
    var contents := update.Contents(found);
    var read := PutAll(map[], places, found);
    BucketsAre(hash, tasks);
    SameTape(hash, pairs, tasks);
    forall place ensures Find(Transactions.Apply(pairs, update), place) ==
      if Mentioned(hash, tasks, place) then FinalView(hash, pairs, place, tasks, TapeHasBytes(hash, pairs, tasks))
      else Find(pairs, place)
    {
      if Mentioned(hash, tasks, place) {
        var k :| 0 <= k < |places| && places[k] == place;
        WrittenAt(pairs, places, contents, k);
        ReadBack(pairs, places, k);
        SameFetched(hash, read, pairs, place, tasks, TapeHasBytes(hash, pairs, tasks));
      } else {
        WrittenElsewhere(pairs, places, contents, place);
      }
    }
  }

  /** The batched write of the modality is the update of the transaction. */
  lemma {:induction false} WriteIsUpdate(hash: Hash, pairs: Pairs, tasks: seq<Task>, after: Pairs)
    requires Written(hash, pairs, tasks, after)
    ensures after == Transactions.Apply(pairs, PathUpdate(hash, tasks))
  {
    hide Mentioned, FinalView, TapeHasBytes, Transactions.Apply;
    UpdateWrites(hash, pairs, tasks);
    var applied := Transactions.Apply(pairs, PathUpdate(hash, tasks));
    forall place ensures Find(after, place) == Find(applied, place) {
    }
    SamePairs(after, applied);
  }

  lemma {:induction false} SamePairs(a: Pairs, b: Pairs)
    requires forall place :: Find(a, place) == Find(b, place)
    ensures a == b
  {
    forall place ensures place in a <==> place in b {
      assert Find(a, place) == Find(b, place);
    }
    forall place | place in a ensures a[place] == b[place] {
      assert Find(a, place) == Find(b, place);
    }
  }

  // ---- Every interleaving ----

  function Updates(hash: Hash, batches: seq<seq<Task>>): (updates: seq<Transactions.Update>)
    ensures |updates| == |batches| && forall i :: 0 <= i < |batches| ==> updates[i] == PathUpdate(hash, batches[i])
  {
    seq(|batches|, i requires 0 <= i < |batches| => PathUpdate(hash, batches[i]))
  }

  function ApplyBatches(m: PathMap, batches: seq<seq<Task>>): PathMap {
    if batches == [] then m else ApplyToMap(ApplyBatches(m, batches[..|batches| - 1]), batches[|batches| - 1])
  }

  /** All lengths stay below the 32-bit limit of the layout while the batches commit. */
  ghost predicate AllFit(hash: Hash, pairs: Pairs, batches: seq<seq<Task>>) {
    forall i :: 0 <= i < |batches| ==>
      FitsBatch(hash, Transactions.ApplyAll(pairs, Updates(hash, batches[..i])), batches[i])
  }

  lemma {:induction false} FitsBefore(hash: Hash, pairs: Pairs, batches: seq<seq<Task>>)
    requires AllFit(hash, pairs, batches) && batches != []
    ensures AllFit(hash, pairs, batches[..|batches| - 1])
  {
    hide FitsBatch, Transactions.ApplyAll, Updates;
    var before := batches[..|batches| - 1];
    forall i | 0 <= i < |before| ensures FitsBatch(hash, Transactions.ApplyAll(pairs, Updates(hash, before[..i])), before[i]) {
      assert before[..i] == batches[..i] && before[i] == batches[i];
    }
  }

  lemma {:induction false} ApplyLast(hash: Hash, pairs: Pairs, batches: seq<seq<Task>>)
    requires batches != []
    ensures var n := |batches| - 1;
      Transactions.ApplyAll(pairs, Updates(hash, batches)) ==
        Transactions.Apply(Transactions.ApplyAll(pairs, Updates(hash, batches[..n])), PathUpdate(hash, batches[n]))
  {
    hide Transactions.Apply, PathUpdate;
    var n := |batches| - 1;
    assert Updates(hash, batches)[..n] == Updates(hash, batches[..n]);
  }

  lemma {:induction false} SerialBatches(hash: Hash, pairs: Pairs, m: PathMap, batches: seq<seq<Task>>)
    requires Represents(hash, pairs, m) && AllFit(hash, pairs, batches)
    ensures Represents(hash, Transactions.ApplyAll(pairs, Updates(hash, batches)), ApplyBatches(m, batches))
  {
    hide Represents, FitsBatch, ApplyToMap, Transactions.Apply, PathUpdate, Written, Updates;
    if batches == [] {
      assert Updates(hash, batches) == [];
    } else {
      var n := |batches| - 1;
      var before := batches[..n];
      FitsBefore(hash, pairs, batches);
      SerialBatches(hash, pairs, m, before);
      ApplyLast(hash, pairs, batches);
      var pairs' := Transactions.ApplyAll(pairs, Updates(hash, before));
      assert FitsBatch(hash, pairs', batches[n]);
      hide Transactions.ApplyAll, AllFit;
      UpdateWrites(hash, pairs', batches[n]);
      var after := Transactions.Apply(pairs', PathUpdate(hash, batches[n]));
      WriteRefinesMap(hash, pairs', ApplyBatches(m, before), batches[n], after);
    }
  }

  /**
  However transactions interleave, the collections of the paths stand for the map that the committed
  path batches build one after another, in commit order, for every hash. A transaction may make
  several batches, and any calls to other collections.
  */
  lemma {:induction false} PathBatchesLoseNothing(
    hash: Hash, initial: Pairs, m: PathMap, steps: seq<Transactions.Step>, groups: seq<seq<Transactions.Call>>,
    ours: set<int>, batches: seq<seq<Task>>)
    requires Represents(hash, Within(initial, ours), m) && AllFit(hash, Within(initial, ours), batches)
    requires Transactions.AllCalls(Transactions.Run(Transactions.Opened(initial), steps).core.history, groups)
    requires Separate(Transactions.Join(groups), ours)
    requires UpdatesOf(Transactions.Join(groups), ours) == Updates(hash, batches)
    ensures Represents(hash, Within(Transactions.Run(Transactions.Opened(initial), steps).core.pairs, ours),
                       ApplyBatches(m, batches))
  {
    hide Represents, Transactions.Run, Transactions.AllCalls, Transactions.Join, AllFit, ApplyBatches,
      Separate, Within, UpdatesOf, Updates, Transactions.ApplyAll;
    OthersLeaveOurs(initial, steps, groups, ours);
    SerialBatches(hash, Within(initial, ours), m, batches);
  }
}
