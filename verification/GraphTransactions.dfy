/**
Graph batches inside transactions: an update of edges is a watched read-modify-write of the
vertices it touches, so under every interleaving the committed batches leave the edges they would
leave one after another, and the mirror holds. The vertices are stored as `GraphLayout` lays them out.
*/
module GraphTransactions {
  import opened Store
  import opened Sorting
  import opened Graph
  import opened GraphBatch
  import opened GraphLayout
  import opened Frames
  import Transactions

  function IndexOf(pairs: Pairs): Index {
    map place | place in pairs :: Decode(pairs[place])
  }

  ghost predicate FitsIndex(index: Index) {
    forall place :: place in index ==> Fits(index[place])
  }

  ghost function Vertices(batch: Batch): seq<Place> {
    SortAndDeduplicate(TouchedPlaces(batch.tasks))
  }

  /** What is written for one vertex, from nothing but the vertices that were read. */
  ghost function Rewritten(batch: Batch, found: seq<Option<Bytes>>, i: nat): Option<Bytes> {
    var places := Vertices(batch);
    if |found| != |places| || i >= |places| then None else
      var after := ApplyBatch(IndexOf(PutAll(map[], places, found)), batch.tasks, batch.erase);
      if places[i] in after then Some(Encode(after[places[i]])) else None
  }

  /** An update of edges as a read-modify-write; its writes obey the caller's option. */
  ghost function EdgeUpdate(batch: Batch, dontWatch: bool): Transactions.Update {
    Transactions.Update(
      Vertices(batch), (found: seq<Option<Bytes>>, i: nat) => Rewritten(batch, found, i), dontWatch)
  }

  // ---- A batch only depends on the vertices it touches ----

  lemma {:induction false} SameBlob(a: Index, b: Index, tasks: seq<Edge>, erase: bool, place: Place)
    requires BlobAt(a, place) == BlobAt(b, place)
    ensures BlobAt(ApplyTasks(a, tasks, erase), place) == BlobAt(ApplyTasks(b, tasks, erase), place)
  {
    hide UpdateBlob;
    if tasks != [] {
      SameBlob(a, b, tasks[..|tasks| - 1], erase, place);
    }
  }

  lemma {:induction false} UntouchedBlob(index: Index, tasks: seq<Edge>, erase: bool, place: Place)
    requires !Touches(tasks, place)
    ensures BlobAt(ApplyTasks(index, tasks, erase), place) == BlobAt(index, place)
  {
    hide UpdateBlob, Touches;
    if tasks != [] {
      TouchesAppends(tasks, place);
      UntouchedBlob(index, tasks[..|tasks| - 1], erase, place);
    }
  }

  lemma {:induction false} VerticesAre(batch: Batch)
    ensures DistinctPlaces(Vertices(batch))
    ensures forall place :: place in Vertices(batch) <==> Touches(batch.tasks, place)
  {
    hide Touches, Mentions, Ops;
    CoversTouched(batch.tasks);
    TouchesPlaces(map[], batch.tasks, Vertices(batch));
    SortedAndDeduplicated(TouchedPlaces(batch.tasks));
    AscendingIsDistinct(Vertices(batch));
  }

  /** The touched vertices read back as they are stored. */
  lemma {:induction false} ReadBack(pairs: Pairs, batch: Batch, place: Place)
    requires Touches(batch.tasks, place)
    ensures var places := Vertices(batch);
      BlobAt(IndexOf(PutAll(map[], places, FindAll(pairs, places))), place) == BlobAt(IndexOf(pairs), place)
  {
    hide Touches, Vertices;
    var places := Vertices(batch);
    VerticesAre(batch);
    var k :| 0 <= k < |places| && places[k] == place;
    WrittenAt(map[], places, FindAll(pairs, places), k);
    assert Find(PutAll(map[], places, FindAll(pairs, places)), place) == Find(pairs, place);
  }

  lemma {:induction false} SameTape(pairs: Pairs, batch: Batch)
    ensures var places := Vertices(batch);
      TapeHasBytes(IndexOf(PutAll(map[], places, FindAll(pairs, places))), batch.tasks) <==>
      TapeHasBytes(IndexOf(pairs), batch.tasks)
  {
    hide Touches, Vertices, IndexOf, BlobAt;
    forall place | Touches(batch.tasks, place)
      ensures BlobAt(IndexOf(PutAll(map[], Vertices(batch), FindAll(pairs, Vertices(batch)))), place) ==
        BlobAt(IndexOf(pairs), place)
    {
      ReadBack(pairs, batch, place);
    }
  }

  /** What is written for a touched vertex is what the batch leaves there. */
  lemma {:induction false} RewrittenIs(pairs: Pairs, batch: Batch, k: nat)
    requires k < |Vertices(batch)|
    ensures var places, after := Vertices(batch), ApplyBatch(IndexOf(pairs), batch.tasks, batch.erase);
      Rewritten(batch, FindAll(pairs, places), k) ==
        if places[k] in after then Some(Encode(after[places[k]])) else None
  {
    hide Touches, Vertices, IndexOf, TapeHasBytes, ApplyBatch, ApplyTasks;
    var places := Vertices(batch);
    var place := places[k];
    VerticesAre(batch);
    assert place in places;
    var read, index := IndexOf(PutAll(map[], places, FindAll(pairs, places))), IndexOf(pairs);
    SameTape(pairs, batch);
    BatchKeys(read, batch.tasks, batch.erase, place);
    BatchKeys(index, batch.tasks, batch.erase, place);
    BatchBlobs(read, batch.tasks, batch.erase);
    BatchBlobs(index, batch.tasks, batch.erase);
    ReadBack(pairs, batch, place);
    SameBlob(read, index, batch.tasks, batch.erase, place);
    assert BlobAt(ApplyBatch(read, batch.tasks, batch.erase), place) ==
      BlobAt(ApplyBatch(index, batch.tasks, batch.erase), place);
  }

  lemma {:induction false} UntouchedByBatch(index: Index, batch: Batch, place: Place)
    requires !Touches(batch.tasks, place)
    ensures var after := ApplyBatch(index, batch.tasks, batch.erase);
      place in after <==> place in index
    ensures var after := ApplyBatch(index, batch.tasks, batch.erase);
      BlobAt(after, place) == BlobAt(index, place)
  {
    hide Touches, TapeHasBytes, ApplyBatch, ApplyTasks;
    BatchKeys(index, batch.tasks, batch.erase, place);
    BatchBlobs(index, batch.tasks, batch.erase);
    UntouchedBlob(index, batch.tasks, batch.erase, place);
  }

  /** Applying the update is applying the batch. */
  lemma {:induction false} UpdateIsBatch(pairs: Pairs, batch: Batch, dontWatch: bool)
    requires FitsIndex(ApplyBatch(IndexOf(pairs), batch.tasks, batch.erase))
    ensures IndexOf(Transactions.Apply(pairs, EdgeUpdate(batch, dontWatch))) ==
      ApplyBatch(IndexOf(pairs), batch.tasks, batch.erase)
  {
    hide Touches, Vertices, TapeHasBytes, ApplyBatch, Rewritten, Encode, Decode, Fits;
    var update, places := EdgeUpdate(batch, dontWatch), Vertices(batch);
    var contents := update.Contents(FindAll(pairs, places));
    var applied := Transactions.Apply(pairs, update);
    var index, after := IndexOf(pairs), ApplyBatch(IndexOf(pairs), batch.tasks, batch.erase);
    VerticesAre(batch);
    forall place
      ensures place in applied <==> place in after
      ensures place in after ==> Decode(applied[place]) == after[place]
    {
      if Touches(batch.tasks, place) {
        var k :| 0 <= k < |places| && places[k] == place;
        WrittenAt(pairs, places, contents, k);
        RewrittenIs(pairs, batch, k);
        assert Find(applied, place) == Rewritten(batch, FindAll(pairs, places), k);
        if place in after {
          VertexRoundTrip(after[place]);
        }
      } else {
        WrittenElsewhere(pairs, places, contents, place);
        UntouchedByBatch(index, batch, place);
        assert Find(applied, place) == Find(pairs, place);
      }
    }
  }

  // ---- Every interleaving ----

  ghost function Updates(batches: seq<Batch>, dontWatch: seq<bool>): (updates: seq<Transactions.Update>)
    requires |batches| == |dontWatch|
    ensures |updates| == |batches|
    ensures forall i :: 0 <= i < |batches| ==> updates[i] == EdgeUpdate(batches[i], dontWatch[i])
  {
    seq(|batches|, i requires 0 <= i < |batches| => EdgeUpdate(batches[i], dontWatch[i]))
  }

  ghost function ApplyBatches(index: Index, batches: seq<Batch>): Index {
    if batches == [] then index else
    var last := batches[|batches| - 1];
    ApplyBatch(ApplyBatches(index, batches[..|batches| - 1]), last.tasks, last.erase)
  }

  /** The edges of a set after batches of unions and differences. */
  ghost function EdgesAfter(edges: set<Edge>, batches: seq<Batch>): set<Edge> {
    if batches == [] then edges else
    var last := batches[|batches| - 1];
    var before, touched := EdgesAfter(edges, batches[..|batches| - 1]), set e | e in last.tasks;
    if last.erase then before - touched else before + touched
  }

  /** All lengths stay below the 32-bit limit, and all keys below the 64-bit one, while the batches commit. */
  ghost predicate AllFit(index: Index, batches: seq<Batch>) {
    forall i :: 0 < i <= |batches| ==> FitsIndex(ApplyBatches(index, batches[..i]))
  }

  lemma {:induction false} FitsBefore(index: Index, batches: seq<Batch>)
    requires AllFit(index, batches) && batches != []
    ensures AllFit(index, batches[..|batches| - 1])
    ensures FitsIndex(ApplyBatches(index, batches))
  {
    hide FitsIndex, ApplyBatches;
    var before := batches[..|batches| - 1];
    forall i | 0 < i <= |before| ensures FitsIndex(ApplyBatches(index, before[..i])) {
      assert before[..i] == batches[..i];
    }
    assert batches[..|batches|] == batches;
  }

  lemma {:induction false} SerialIndex(pairs: Pairs, batches: seq<Batch>, dontWatch: seq<bool>)
    requires AllFit(IndexOf(pairs), batches) && |batches| == |dontWatch|
    ensures IndexOf(Transactions.ApplyAll(pairs, Updates(batches, dontWatch))) ==
      ApplyBatches(IndexOf(pairs), batches)
  {
    hide AllFit, FitsIndex, IndexOf, ApplyBatch, EdgeUpdate, Transactions.Apply;
    if batches == [] {
      assert Updates(batches, dontWatch) == [];
    } else {
      var n := |batches| - 1;
      FitsBefore(IndexOf(pairs), batches);
      SerialIndex(pairs, batches[..n], dontWatch[..n]);
      var updates := Updates(batches, dontWatch);
      assert updates[..n] == Updates(batches[..n], dontWatch[..n]);
      UpdateIsBatch(Transactions.ApplyAll(pairs, updates[..n]), batches[n], dontWatch[n]);
    }
  }

  lemma {:induction false} BatchesKeepMirror(index: Index, batches: seq<Batch>)
    requires ValidIndex(index) && Mirrored(index)
    ensures ValidIndex(ApplyBatches(index, batches)) && Mirrored(ApplyBatches(index, batches))
    ensures EdgeSet(ApplyBatches(index, batches)) == EdgesAfter(EdgeSet(index), batches)
  {
    hide ValidIndex, Mirrored, EdgeSet, ApplyBatch;
    if batches != [] {
      var n := |batches| - 1;
      BatchesKeepMirror(index, batches[..n]);
      BatchOnEdges(ApplyBatches(index, batches[..n]), batches[n].tasks, batches[n].erase);
      MirrorStep(ApplyBatches(index, batches[..n]), batches[n].tasks, batches[n].erase);
    }
  }

  /**
  However transactions interleave, and whichever callers asked not to watch, the committed graph
  batches leave the edges of their unions and differences in commit order, and the mirror holds. A
  transaction may make several batches, and any calls to other collections.
  */
  lemma {:induction false} GraphBatchesLoseNothing(
    initial: Pairs, steps: seq<Transactions.Step>, groups: seq<seq<Transactions.Call>>,
    ours: set<int>, batches: seq<Batch>, dontWatch: seq<bool>)
    requires |batches| == |dontWatch| && AllFit(IndexOf(Within(initial, ours)), batches)
    requires ValidIndex(IndexOf(Within(initial, ours))) && Mirrored(IndexOf(Within(initial, ours)))
    requires Transactions.AllCalls(Transactions.Run(Transactions.Opened(initial), steps).core.history, groups)
    requires Separate(Transactions.Join(groups), ours)
    requires UpdatesOf(Transactions.Join(groups), ours) == Updates(batches, dontWatch)
    ensures var index := IndexOf(Within(Transactions.Run(Transactions.Opened(initial), steps).core.pairs, ours));
      && ValidIndex(index) && Mirrored(index)
      && EdgeSet(index) == EdgesAfter(EdgeSet(IndexOf(Within(initial, ours))), batches)
  {
    hide Transactions.Run, Transactions.AllCalls, Transactions.Join, Transactions.ApplyAll, Separate, Within, UpdatesOf,
      Updates, AllFit, IndexOf, ValidIndex, Mirrored, EdgeSet, ApplyBatches, EdgesAfter;
    OthersLeaveOurs(initial, steps, groups, ours);
    SerialIndex(Within(initial, ours), batches, dontWatch);
    BatchesKeepMirror(IndexOf(Within(initial, ours)), batches);
  }
}
