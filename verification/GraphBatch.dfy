/**
A whole batch over the graph index: `update_neighborhoods` deduplicates the touched vertices,
pulls their entries, runs its passes over them and writes them back. The three passes of an
upsert never outgrow the buffers the first pass asked for.
*/
module GraphBatch {
  import opened Store
  import opened Graph
  import opened GraphUpdate
  import opened Sorting

  /** One callback of the primary loop: a role and a ship for the entry of one vertex. */
  datatype Op = Op(place: Place, role: Role, ship: Ship)

  function SourceOp(edge: Edge): Op { Op(edge.SourcePlace(), Source, edge.SourceShip()) }

  function TargetOp(edge: Edge): Op { Op(edge.TargetPlace(), Target, edge.TargetShip()) }

  function Ops(tasks: seq<Edge>): seq<Op> {
    if tasks == [] then [] else
    Ops(tasks[..|tasks| - 1]) + [SourceOp(tasks[|tasks| - 1]), TargetOp(tasks[|tasks| - 1])]
  }

  function ApplyOps(index: Index, ops: seq<Op>, erase: bool): Index {
    if ops == [] then index else
    var last := ops[|ops| - 1];
    Touch(ApplyOps(index, ops[..|ops| - 1], erase), last.place, last.role, last.ship, erase)
  }

  lemma {:induction false} ApplyOpsAppends(index: Index, ops: seq<Op>, op: Op, erase: bool)
    ensures ApplyOps(index, ops + [op], erase) ==
      Touch(ApplyOps(index, ops, erase), op.place, op.role, op.ship, erase)
  {
    assert (ops + [op])[..|ops|] == ops;
  }

  lemma {:induction false} TasksAreOps(index: Index, tasks: seq<Edge>, erase: bool)
    ensures ApplyTasks(index, tasks, erase) == ApplyOps(index, Ops(tasks), erase)
  {
    if tasks != [] {
      var before, last := tasks[..|tasks| - 1], tasks[|tasks| - 1];
      TasksAreOps(index, before, erase);
      ApplyOpsAppends(index, Ops(before), SourceOp(last), erase);
      ApplyOpsAppends(index, Ops(before) + [SourceOp(last)], TargetOp(last), erase);
      assert Ops(before) + [SourceOp(last)] + [TargetOp(last)] == Ops(tasks);
    }
  }

  // ---- The counting pass ----

  predicate Grows(index: Index, place: Place, op: Op) {
    op.place == place && op.ship !in Run(BlobAt(index, place), op.role)
  }

  /** What the first pass leaves in `degree_delta`: repetitions inside the batch are counted again. */
  function Growth(index: Index, place: Place, ops: seq<Op>): nat {
    if ops == [] then 0 else
    Growth(index, place, ops[..|ops| - 1]) + if Grows(index, place, ops[|ops| - 1]) then 1 else 0
  }

  lemma {:induction false} GrowthAppends(index: Index, place: Place, ops: seq<Op>, op: Op)
    ensures Growth(index, place, ops + [op]) == Growth(index, place, ops) + if Grows(index, place, op) then 1 else 0
  {
    assert (ops + [op])[..|ops|] == ops;
  }

  lemma {:induction false} GrowthMonotone(index: Index, place: Place, ops: seq<Op>, all: seq<Op>)
    requires ops <= all
    ensures Growth(index, place, ops) <= Growth(index, place, all)
    decreases |all|
  {
    if |ops| < |all| {
      GrowthMonotone(index, place, ops, all[..|all| - 1]);
    } else {
      assert ops == all;
    }
  }

  // ---- The inserting pass, on values ----

  /** How far one entry has come after the operations `done`. */
  ghost predicate Inserted(index: Index, done: seq<Op>, place: Place, view: Blob) {
    && WellFormed(view)
    && view == BlobAt(ApplyOps(index, done, false), place)
    && Degree(view) <= Degree(BlobAt(index, place)) + Growth(index, place, done)
    && (forall role, ship :: ship in Run(BlobAt(index, place), role) ==> ship in Run(view, role))
  }

  lemma {:induction false} InsertDegree(view: Blob, role: Role, ship: Ship)
    ensures Degree(InsertBlob(view, role, ship)) == Degree(view) + if ship in Run(view, role) then 0 else 1
  {
  }

  lemma {:induction false} InsertMembers(view: Blob, role: Role, ship: Ship)
    requires WellFormed(view)
    ensures WellFormed(InsertBlob(view, role, ship))
    ensures forall r, s :: s in Run(InsertBlob(view, role, ship), r) <==> s in Run(view, r) || (r == role && s == ship)
  {
    hide Sorted, InsertRun;
    InsertKeepsSorted(Run(view, role), ship);
    var after := InsertBlob(view, role, ship);
    forall s ensures s in Run(after, role) <==> s in Run(view, role) || s == ship {
      assert s in Run(after, role) <==> s in Ships(Run(after, role));
      assert s in Run(view, role) <==> s in Ships(Run(view, role));
    }
  }

  /** The buffer has room whenever the ship is new, and the entry keeps up with the store. */
  lemma {:induction false} InsertStep(index: Index, done: seq<Op>, op: Op, all: seq<Op>, view: Blob)
    requires Inserted(index, done, op.place, view)
    requires done + [op] <= all
    ensures op.ship in Run(view, op.role) ||
      Degree(view) < Degree(BlobAt(index, op.place)) + Growth(index, op.place, all)
    ensures Inserted(index, done + [op], op.place, InsertBlob(view, op.role, op.ship))
  {
    hide Growth, InsertRun, Sorted, ApplyOps;
    GrowthAppends(index, op.place, done, op);
    GrowthMonotone(index, op.place, done + [op], all);
    ApplyOpsAppends(index, done, op, false);
    InsertDegree(view, op.role, op.ship);
    InsertMembers(view, op.role, op.ship);
  }

  lemma {:induction false} InsertElsewhere(index: Index, done: seq<Op>, op: Op, place: Place, view: Blob)
    requires Inserted(index, done, place, view)
    requires place != op.place
    ensures Inserted(index, done + [op], place, view)
  {
    hide Growth, InsertRun, Sorted, ApplyOps;
    GrowthAppends(index, place, done, op);
    ApplyOpsAppends(index, done, op, false);
  }

  // ---- All entries of a batch ----

  predicate Mentions(ops: seq<Op>, place: Place) {
    exists i :: 0 <= i < |ops| && ops[i].place == place
  }

  ghost predicate EntryProgress(index: Index, done: seq<Op>, place: Place, view: Blob, erase: bool) {
    if erase then view == BlobAt(ApplyOps(index, done, true), place) else Inserted(index, done, place, view)
  }

  ghost predicate Progress(index: Index, done: seq<Op>, places: seq<Place>, views: seq<Blob>, erase: bool) {
    && |views| == |places|
    && forall k :: 0 <= k < |places| ==> EntryProgress(index, done, places[k], views[k], erase)
  }

  /** The size the second pass allocates for one entry, in ships. */
  function Capacity(index: Index, all: seq<Op>, place: Place): nat {
    Degree(BlobAt(index, place)) + Growth(index, place, all)
  }

  lemma {:induction false} EntryStep(index: Index, done: seq<Op>, op: Op, all: seq<Op>, place: Place, view: Blob, erase: bool)
    requires done + [op] <= all
    requires EntryProgress(index, done, place, view, erase)
    ensures place == op.place ==>
      erase || op.ship in Run(view, op.role) || Degree(view) < Capacity(index, all, place)
    ensures place == op.place ==>
      EntryProgress(index, done + [op], place, UpdateBlob(view, op.role, op.ship, erase), erase)
    ensures place != op.place ==> EntryProgress(index, done + [op], place, view, erase)
  {
    hide InsertBlob, EraseBlob, Growth, Degree;
    if erase {
      ApplyOpsAppends(index, done, op, true);
    } else if place == op.place {
      InsertStep(index, done, op, all, view);
    } else {
      InsertElsewhere(index, done, op, place, view);
    }
  }

  lemma {:induction false} ProgressStep(index: Index, done: seq<Op>, op: Op, all: seq<Op>,
                     places: seq<Place>, views: seq<Blob>, k: nat, erase: bool)
    requires Progress(index, done, places, views, erase)
    requires done + [op] <= all
    requires Ascending(places) && k < |places| && places[k] == op.place
    ensures erase || op.ship in Run(views[k], op.role) || Degree(views[k]) < Capacity(index, all, op.place)
    ensures Progress(index, done + [op], places, views[k := UpdateBlob(views[k], op.role, op.ship, erase)], erase)
  {
    hide EntryProgress, UpdateBlob, Capacity, Degree, Run;
    var views' := views[k := UpdateBlob(views[k], op.role, op.ship, erase)];
    forall j | 0 <= j < |places| ensures EntryProgress(index, done + [op], places[j], views'[j], erase) {
      assert j != k ==> places[j] != op.place;
      EntryStep(index, done, op, all, places[j], views[j], erase);
    }
    EntryStep(index, done, op, all, places[k], views[k], erase);
  }

  lemma {:induction false} Untouched(index: Index, ops: seq<Op>, place: Place, erase: bool)
    requires !Mentions(ops, place)
    ensures BlobAt(ApplyOps(index, ops, erase), place) == BlobAt(index, place)
  {
    hide UpdateBlob;
    if ops != [] {
      var n := |ops| - 1;
      assert ops[n].place != place;
      forall i | 0 <= i < n ensures ops[..n][i].place != place {
        assert ops[i].place != place;
      }
      Untouched(index, ops[..n], place, erase);
    }
  }

  lemma {:induction false} TouchedKeys(index: Index, ops: seq<Op>, erase: bool)
    ensures forall place :: place in ApplyOps(index, ops, erase) <==> place in index || Mentions(ops, place)
  {
    hide UpdateBlob, Mentions;
    if ops != [] {
      var n := |ops| - 1;
      TouchedKeys(index, ops[..n], erase);
      assert ops[..n] + [ops[n]] == ops;
      forall place ensures Mentions(ops, place) <==> Mentions(ops[..n], place) || ops[n].place == place {
        MentionsAppends(ops[..n], ops[n], place);
      }
    } else {
      forall place ensures !Mentions(ops, place) { NoneMentioned(ops, place); }
    }
  }

  lemma {:induction false} NoneMentioned(ops: seq<Op>, place: Place)
    requires ops == []
    ensures !Mentions(ops, place)
  {
  }

  /** Writing every entry back leaves what the operations leave. */
  lemma {:induction false} WrittenBack(index: Index, all: seq<Op>, places: seq<Place>, views: seq<Blob>, after: Index,
                                       erase: bool)
    requires Progress(index, all, places, views, erase)
    requires forall place :: place in places <==> Mentions(all, place)
    requires forall k :: 0 <= k < |places| ==> BlobAt(after, places[k]) == views[k]
    requires forall place :: place !in places ==> BlobAt(after, place) == BlobAt(index, place)
    requires forall place :: place in after <==> place in index || place in places
    ensures after == ApplyOps(index, all, erase)
  {
    hide ApplyOps, Mentions;
    var applied := ApplyOps(index, all, erase);
    TouchedKeys(index, all, erase);
    forall place ensures BlobAt(after, place) == BlobAt(applied, place) {
      if place in places {
        var k :| 0 <= k < |places| && places[k] == place;
        assert EntryProgress(index, all, places[k], views[k], erase);
      } else {
        Untouched(index, all, place, erase);
      }
    }
    SameBlobs(after, applied);
  }

  lemma {:induction false} SameBlobs(a: Index, b: Index)
    requires forall place :: place in a <==> place in b
    requires forall place :: BlobAt(a, place) == BlobAt(b, place)
    ensures a == b
  {
    forall place | place in a ensures a[place] == b[place] {
      assert BlobAt(a, place) == BlobAt(b, place);
    }
  }

  // ---- The entries on the heap ----

  ghost predicate Matches(entries: seq<UpdatedEntry>, views: seq<Blob>)
    reads entries, set e | e in entries :: e.ships
  {
    && |entries| == |views|
    && (forall i, j :: 0 <= i < j < |entries| ==> entries[i] != entries[j] && entries[i].ships != entries[j].ships)
    && (forall k :: 0 <= k < |entries| ==> entries[k].Valid() && entries[k].View() == views[k])
  }

  ghost predicate AllLinked(entries: seq<UpdatedEntry>, linked: bool)
    reads entries`linked
  {
    forall k :: 0 <= k < |entries| ==> entries[k].linked == linked
  }

  method UpdateEntry(entries: seq<UpdatedEntry>, k: nat, op: Op, erase: bool, ghost views: seq<Blob>)
    requires Matches(entries, views) && k < |entries|
    requires erase || op.ship in Run(views[k], op.role) || Degree(views[k]) < entries[k].ships.Length
    modifies entries[k], entries[k].ships
    ensures Matches(entries, views[k := UpdateBlob(views[k], op.role, op.ship, erase)])
    ensures forall j :: 0 <= j < |entries| ==>
      entries[j].ships == old(entries[j].ships) && entries[j].linked == old(entries[j].linked)
  {
    hide Sorted, InsertBlob, EraseBlob, Run, Degree, UpdatedEntry.Valid, UpdatedEntry.View;
    if erase {
      entries[k].Erase(op.role, op.ship);
    } else {
      entries[k].Insert(op.role, op.ship);
    }
    forall j | 0 <= j < |entries| && j != k
      ensures entries[j].Valid() && entries[j].View() == views[j]
    {
      assert old(entries[j].Valid() && entries[j].View() == views[j]);
      assert entries[j] != entries[k] && old(entries[j].ships) != old(entries[k].ships);
    }
  }

  // ---- The passes ----

  function Blobs(index: Index, places: seq<Place>): (views: seq<Blob>)
    ensures |views| == |places|
  {
    seq(|places|, k requires 0 <= k < |places| => BlobAt(index, places[k]))
  }

  /** Where the two halves of a task land. */
  function TouchedPlaces(tasks: seq<Edge>): seq<Place> {
    seq(|tasks|, i requires 0 <= i < |tasks| => tasks[i].SourcePlace())
    + seq(|tasks|, i requires 0 <= i < |tasks| => tasks[i].TargetPlace())
  }

  ghost predicate Covers(places: seq<Place>, ops: seq<Op>) {
    Ascending(places) && forall place :: place in places <==> Mentions(ops, place)
  }

  lemma {:induction false} MentionsAppends(ops: seq<Op>, op: Op, place: Place)
    ensures Mentions(ops + [op], place) <==> Mentions(ops, place) || op.place == place
  {
    var more := ops + [op];
    assert more[|ops|] == op;
    if Mentions(ops, place) {
      var i :| 0 <= i < |ops| && ops[i].place == place;
      assert more[i].place == place;
    }
    if Mentions(more, place) && op.place != place {
      var i :| 0 <= i < |more| && more[i].place == place;
      assert ops[i].place == place;
    }
  }

  lemma {:induction false} OpsMention(tasks: seq<Edge>, place: Place)
    ensures Mentions(Ops(tasks), place) <==> place in TouchedPlaces(tasks)
  {
    hide Mentions, TouchedPlaces;
    if tasks == [] {
      NoTaskMentions(tasks, place);
    } else {
      var n := |tasks| - 1;
      var before, last := tasks[..n], tasks[n];
      OpsMention(before, place);
      MentionsAppends(Ops(before), SourceOp(last), place);
      MentionsAppends(Ops(before) + [SourceOp(last)], TargetOp(last), place);
      assert Ops(before) + [SourceOp(last)] + [TargetOp(last)] == Ops(tasks);
      TouchedAppends(before, last, place);
      assert before + [last] == tasks;
    }
  }

  lemma {:induction false} NoTaskMentions(tasks: seq<Edge>, place: Place)
    requires tasks == []
    ensures !Mentions(Ops(tasks), place) && place !in TouchedPlaces(tasks)
  {
    assert TouchedPlaces(tasks) == [];
  }

  lemma {:induction false} TouchedAppends(before: seq<Edge>, last: Edge, place: Place)
    ensures place in TouchedPlaces(before + [last]) <==>
      place in TouchedPlaces(before) || last.SourcePlace() == place || last.TargetPlace() == place
  {
    var n := |before|;
    var old' := TouchedPlaces(before);
    var new' := TouchedPlaces(before + [last]);
    assert new'[n] == last.SourcePlace() && new'[2 * n + 1] == last.TargetPlace();
    forall i | 0 <= i < 2 * n ensures old'[i] in new' {
      assert old'[i] == new'[if i < n then i else i + 1];
    }
    forall i | 0 <= i < 2 * n + 2 && i != n && i != 2 * n + 1 ensures new'[i] in old' {
      assert new'[i] == old'[if i < n then i else i - 1];
    }
  }

  lemma {:induction false} CoversTouched(tasks: seq<Edge>)
    ensures Covers(SortAndDeduplicate(TouchedPlaces(tasks)), Ops(tasks))
  {
    SortedAndDeduplicated(TouchedPlaces(tasks));
    forall place ensures place in SortAndDeduplicate(TouchedPlaces(tasks)) <==> Mentions(Ops(tasks), place) {
      OpsMention(tasks, place);
    }
  }

  lemma {:induction false} OpsPrefix(tasks: seq<Edge>, i: nat)
    requires i <= |tasks|
    ensures Ops(tasks[..i]) <= Ops(tasks)
    decreases |tasks|
  {
    if i < |tasks| {
      OpsPrefix(tasks[..|tasks| - 1], i);
      assert tasks[..|tasks| - 1][..i] == tasks[..i];
    } else {
      assert tasks[..i] == tasks;
    }
  }

  /** The two callbacks of task `i`, and the entries they find. */
  lemma {:induction false} TaskOps(tasks: seq<Edge>, i: nat, places: seq<Place>)
    requires i < |tasks| && Covers(places, Ops(tasks))
    ensures Ops(tasks[..i + 1]) == Ops(tasks[..i]) + [SourceOp(tasks[i])] + [TargetOp(tasks[i])]
    ensures Ops(tasks[..i]) + [SourceOp(tasks[i])] <= Ops(tasks)
    ensures Ops(tasks[..i + 1]) <= Ops(tasks)
    ensures tasks[i].SourcePlace() in places && tasks[i].TargetPlace() in places
  {
    var all, before := Ops(tasks), Ops(tasks[..i]);
    OpsAppends(tasks, i);
    OpsPrefix(tasks, i + 1);
    OpsMentionTask(tasks, i);
    hide Ops, Mentions, Ascending;
    PrefixOfTwo(before, SourceOp(tasks[i]), TargetOp(tasks[i]), all);
  }

  lemma {:induction false} OpsMentionTask(tasks: seq<Edge>, i: nat)
    requires i < |tasks|
    ensures Mentions(Ops(tasks), tasks[i].SourcePlace()) && Mentions(Ops(tasks), tasks[i].TargetPlace())
  {
    OpsMention(tasks, tasks[i].SourcePlace());
    OpsMention(tasks, tasks[i].TargetPlace());
    var places := TouchedPlaces(tasks);
    assert places[i] == tasks[i].SourcePlace() && places[|tasks| + i] == tasks[i].TargetPlace();
  }

  lemma {:induction false} OpsAppends(tasks: seq<Edge>, i: nat)
    requires i < |tasks|
    ensures Ops(tasks[..i + 1]) == Ops(tasks[..i]) + [SourceOp(tasks[i])] + [TargetOp(tasks[i])]
  {
    assert tasks[..i + 1][..i] == tasks[..i];
    assert [SourceOp(tasks[i]), TargetOp(tasks[i])] == [SourceOp(tasks[i])] + [TargetOp(tasks[i])];
  }

  lemma {:induction false} PrefixOfTwo(before: seq<Op>, a: Op, b: Op, all: seq<Op>)
    requires before + [a] + [b] <= all
    ensures before + [a] <= all
  {
    assert (before + [a] + [b])[..|before| + 1] == before + [a];
  }

  ghost predicate Counted(index: Index, entries: seq<UpdatedEntry>, places: seq<Place>, done: seq<Op>)
    reads entries
  {
    && |entries| == |places|
    && forall k :: 0 <= k < |entries| ==> entries[k].degreeDelta == Growth(index, places[k], done)
  }

  method CountOp(index: Index, entries: seq<UpdatedEntry>, places: seq<Place>, op: Op, ghost done: seq<Op>)
    requires Matches(entries, Blobs(index, places)) && Counted(index, entries, places, done)
    requires Ascending(places) && op.place in places
    modifies entries`degreeDelta
    ensures Matches(entries, Blobs(index, places)) && Counted(index, entries, places, done + [op])
  {
    hide Sorted, Growth, UpdatedEntry.Valid, UpdatedEntry.View, Run;
    var k := OffsetInSorted(places, op.place);
    entries[k].CountInsert(op.role, op.ship);
    forall j | 0 <= j < |entries|
      ensures entries[j].Valid() && entries[j].View() == BlobAt(index, places[j])
      ensures entries[j].degreeDelta == Growth(index, places[j], done + [op])
    {
      assert old(entries[j].Valid() && entries[j].View() == Blobs(index, places)[j]);
      GrowthAppends(index, places[j], done, op);
      assert j != k ==> entries[j] != entries[k] && places[j] != places[k];
    }
  }

  /** Pass one of an upsert. */
  method CountInserts(index: Index, entries: seq<UpdatedEntry>, places: seq<Place>, tasks: seq<Edge>)
    requires Matches(entries, Blobs(index, places)) && Counted(index, entries, places, [])
    requires Covers(places, Ops(tasks))
    modifies entries`degreeDelta
    ensures Matches(entries, Blobs(index, places)) && Counted(index, entries, places, Ops(tasks))
  {
    hide Counted, Matches;
    for i := 0 to |tasks|
      invariant Matches(entries, Blobs(index, places)) && Counted(index, entries, places, Ops(tasks[..i]))
    {
      TaskOps(tasks, i, places);
      ghost var done := Ops(tasks[..i]);
      CountOp(index, entries, places, SourceOp(tasks[i]), done);
      CountOp(index, entries, places, TargetOp(tasks[i]), done + [SourceOp(tasks[i])]);
    }
    assert tasks[..|tasks|] == tasks;
  }

  ghost predicate HasRoom(index: Index, entries: seq<UpdatedEntry>, places: seq<Place>, all: seq<Op>)
    reads entries
  {
    && |entries| == |places|
    && forall k :: 0 <= k < |entries| ==> entries[k].ships.Length == Capacity(index, all, places[k])
  }

  method ReallocateEntry(entries: seq<UpdatedEntry>, k: nat, ghost views: seq<Blob>)
    requires Matches(entries, views) && k < |entries|
    modifies entries[k]
    ensures Matches(entries, views)
    ensures fresh(entries[k].ships) && entries[k].linked && entries[k].degreeDelta == old(entries[k].degreeDelta)
    ensures entries[k].ships.Length == Degree(views[k]) + entries[k].degreeDelta
  {
    hide Sorted;
    entries[k].Reallocate();
    forall j | 0 <= j < |entries| && j != k ensures entries[j].Valid() && entries[j].View() == views[j] {
      assert old(entries[j].Valid() && entries[j].View() == views[j]);
    }
  }

  /** Pass two of an upsert. */
  method ReallocateAll(index: Index, entries: seq<UpdatedEntry>, places: seq<Place>, ghost all: seq<Op>)
    requires Matches(entries, Blobs(index, places)) && Counted(index, entries, places, all)
    modifies entries
    ensures Matches(entries, Blobs(index, places)) && HasRoom(index, entries, places, all)
    ensures AllLinked(entries, true) && forall k :: 0 <= k < |entries| ==> fresh(entries[k].ships)
  {
    hide Sorted, Growth, BlobAt, Degree;
    ghost var views := Blobs(index, places);
    assert forall j, k :: 0 <= j < k < |entries| ==> entries[j] != entries[k];
    hide Matches;
    for i := 0 to |entries|
      invariant Matches(entries, views)
      invariant forall k :: 0 <= k < |entries| ==> entries[k].degreeDelta == Growth(index, places[k], all)
      invariant forall k :: 0 <= k < i ==>
        entries[k].ships.Length == Capacity(index, all, places[k]) && fresh(entries[k].ships) && entries[k].linked
    {
      ReallocateEntry(entries, i, views);
    }
  }

  method ApplyOp(entries: seq<UpdatedEntry>, places: seq<Place>, op: Op, erase: bool,
                 ghost index: Index, ghost done: seq<Op>, ghost all: seq<Op>, ghost views: seq<Blob>)
    returns (ghost views': seq<Blob>)
    requires Matches(entries, views) && Progress(index, done, places, views, erase)
    requires erase || HasRoom(index, entries, places, all)
    requires done + [op] <= all
    requires Ascending(places) && op.place in places
    modifies entries, set e | e in entries :: e.ships
    ensures Matches(entries, views') && Progress(index, done + [op], places, views', erase)
    ensures erase || HasRoom(index, entries, places, all)
    ensures forall k :: 0 <= k < |entries| ==>
      entries[k].ships == old(entries[k].ships) && entries[k].linked == old(entries[k].linked)
  {
    hide Sorted, Growth, UpdateBlob, Ascending, Degree, Run, Capacity, EntryProgress, UpdatedEntry.Valid, UpdatedEntry.View;
    var k := OffsetInSorted(places, op.place);
    ProgressStep(index, done, op, all, places, views, k, erase);
    views' := views[k := UpdateBlob(views[k], op.role, op.ship, erase)];
    UpdateEntry(entries, k, op, erase, views);
  }

  /** Pass three of an upsert, or the only pass of a removal. */
  method ApplyAllTasks(entries: seq<UpdatedEntry>, places: seq<Place>, tasks: seq<Edge>, erase: bool,
                       ghost index: Index, ghost views: seq<Blob>)
    returns (ghost views': seq<Blob>)
    requires Matches(entries, views) && Progress(index, [], places, views, erase)
    requires erase || HasRoom(index, entries, places, Ops(tasks))
    requires Covers(places, Ops(tasks))
    modifies entries, set e | e in entries :: e.ships
    ensures Matches(entries, views') && Progress(index, Ops(tasks), places, views', erase)
    ensures forall linked :: old(AllLinked(entries, linked)) ==> AllLinked(entries, linked)
  {
    hide Matches, Progress, HasRoom, Ops;
    views' := views;
    assert Ops(tasks[..0]) == [] by { NoOps(tasks); }
    for i := 0 to |tasks|
      invariant Matches(entries, views') && Progress(index, Ops(tasks[..i]), places, views', erase)
      invariant erase || HasRoom(index, entries, places, Ops(tasks))
      invariant forall k :: 0 <= k < |entries| ==>
        entries[k].ships == old(entries[k].ships) && entries[k].linked == old(entries[k].linked)
    {
      TaskOps(tasks, i, places);
      ghost var done, all := Ops(tasks[..i]), Ops(tasks);
      views' := ApplyOp(entries, places, SourceOp(tasks[i]), erase, index, done, all, views');
      views' := ApplyOp(entries, places, TargetOp(tasks[i]), erase, index, done + [SourceOp(tasks[i])], all, views');
    }
    assert tasks[..|tasks|] == tasks;
  }

  lemma {:induction false} NoOps(tasks: seq<Edge>)
    ensures Ops(tasks[..0]) == []
  {
  }

  /** `pull_and_link_for_updates`: one entry for each touched vertex, all on one tape if it has bytes. */
  method PullEntries(index: Index, places: seq<Place>) returns (entries: seq<UpdatedEntry>, tape: bool)
    requires ValidIndex(index)
    ensures tape <==> exists k :: 0 <= k < |places| && BlobAt(index, places[k]).Listed?
    ensures Matches(entries, Blobs(index, places)) && AllLinked(entries, tape)
    ensures forall k :: 0 <= k < |entries| ==>
      fresh(entries[k]) && fresh(entries[k].ships) && entries[k].degreeDelta == 0
  {
    hide Sorted, BlobAt, WellFormed, UpdatedEntry.Valid, UpdatedEntry.View;
    tape := exists k :: 0 <= k < |places| && BlobAt(index, places[k]).Listed?;
    entries := [];
    for i := 0 to |places|
      invariant |entries| == i
      invariant forall k :: 0 <= k < i ==>
        fresh(entries[k]) && fresh(entries[k].ships) && entries[k].degreeDelta == 0 && entries[k].linked == tape
      invariant forall k :: 0 <= k < i ==> entries[k].Valid() && entries[k].View() == BlobAt(index, places[k])
      invariant forall j, k :: 0 <= j < k < i ==> entries[j] != entries[k] && entries[j].ships != entries[k].ships
    {
      PulledWellFormed(index, places[i]);
      var entry := new UpdatedEntry(BlobAt(index, places[i]), tape);
      entries := entries + [entry];
    }
  }

  lemma {:induction false} PulledWellFormed(index: Index, place: Place)
    requires ValidIndex(index)
    ensures WellFormed(BlobAt(index, place))
  {
  }

  /** A content pointer that points nowhere is a missing value, which erases the vertex. */
  method WriteBack(index: Index, places: seq<Place>, entries: seq<UpdatedEntry>, ghost views: seq<Blob>, ghost linked: bool)
    returns (after: Index)
    requires Matches(entries, views) && |views| == |places| && Ascending(places) && AllLinked(entries, linked)
    ensures forall k :: 0 <= k < |places| ==> BlobAt(after, places[k]) == if linked then views[k] else Bare
    ensures forall place :: place !in places ==> BlobAt(after, place) == BlobAt(index, place)
    ensures forall place :: place in after <==> if place in places then linked else place in index
  {
    hide Sorted, UpdatedEntry.Valid, UpdatedEntry.View, Back, Ascending;
    after := index;
    NothingBack(index, places, views, linked);
    for i := 0 to |places|
      invariant Back(index, places, views, linked, i, after)
    {
      BackStep(index, places, views, linked, i, after);
      after := if entries[i].linked then after[places[i] := entries[i].View()] else after - {places[i]};
    }
    AllBack(index, places, views, linked, after);
  }

  /** The first `n` entries are written back: linked ones with their views, others as missing. */
  ghost predicate Back(index: Index, places: seq<Place>, views: seq<Blob>, linked: bool, n: nat, after: Index)
    requires n <= |places| == |views|
  {
    && (forall k :: 0 <= k < n ==> BlobAt(after, places[k]) == if linked then views[k] else Bare)
    && (forall place :: place !in places[..n] ==> BlobAt(after, place) == BlobAt(index, place))
    && (forall place :: place in after <==> if place in places[..n] then linked else place in index)
  }

  lemma {:induction false} NothingBack(index: Index, places: seq<Place>, views: seq<Blob>, linked: bool)
    requires |places| == |views|
    ensures Back(index, places, views, linked, 0, index)
  {
  }

  lemma {:induction false} BackStep(index: Index, places: seq<Place>, views: seq<Blob>, linked: bool, i: nat, after: Index)
    requires i < |places| == |views| && Ascending(places) && Back(index, places, views, linked, i, after)
    ensures Back(index, places, views, linked, i + 1, if linked then after[places[i] := views[i]] else after - {places[i]})
  {
    assert places[..i + 1] == places[..i] + [places[i]];
    assert forall k :: 0 <= k < i ==> places[k] != places[i];
  }

  lemma {:induction false} AllBack(index: Index, places: seq<Place>, views: seq<Blob>, linked: bool, after: Index)
    requires |places| == |views| && Back(index, places, views, linked, |places|, after)
    ensures forall k :: 0 <= k < |places| ==> BlobAt(after, places[k]) == if linked then views[k] else Bare
    ensures forall place :: place !in places ==> BlobAt(after, place) == BlobAt(index, place)
    ensures forall place :: place in after <==> if place in places then linked else place in index
  {
    assert places[..|places|] == places;
  }

  lemma {:induction false} StartsPulled(index: Index, places: seq<Place>, erase: bool)
    requires ValidIndex(index)
    ensures Progress(index, [], places, Blobs(index, places), erase)
  {
    hide Sorted;
    forall k | 0 <= k < |places| ensures EntryProgress(index, [], places[k], BlobAt(index, places[k]), erase) {
      PulledWellFormed(index, places[k]);
    }
  }

  /** The edges of a batch; one that names no ids uses the same id for all. */
  function TasksOf(collections: seq<int>, sources: seq<int>, targets: seq<int>, ids: Option<seq<int>>): seq<Edge>
    requires |collections| == |sources| == |targets|
    requires ids.Some? ==> |ids.value| == |sources|
  {
    seq(|sources|, i requires 0 <= i < |sources| =>
      Edge(collections[i], sources[i], targets[i], if ids.Some? then ids.value[i] else KEY_UNKNOWN))
  }

  lemma {:induction false} TouchesPlaces(index: Index, tasks: seq<Edge>, places: seq<Place>)
    requires forall place :: place in places <==> Mentions(Ops(tasks), place)
    ensures forall place :: Touches(tasks, place) <==> place in places
    ensures TapeHasBytes(index, tasks) <==> exists k :: 0 <= k < |places| && BlobAt(index, places[k]).Listed?
  {
    hide Mentions, BlobAt, Ops;
    forall place ensures Touches(tasks, place) <==> Mentions(Ops(tasks), place) {
      OpsTouch(tasks, place);
    }
    hide Touches;
    if TapeHasBytes(index, tasks) {
      var place :| Touches(tasks, place) && BlobAt(index, place).Listed?;
      assert place in places;
    }
    if k :| 0 <= k < |places| && BlobAt(index, places[k]).Listed? {
      assert places[k] in places;
    }
  }

  lemma {:induction false} OpsTouch(tasks: seq<Edge>, place: Place)
    ensures Touches(tasks, place) <==> Mentions(Ops(tasks), place)
  {
    hide Touches, Mentions;
    if tasks == [] {
      NothingTouched(place);
      NoneMentioned([], place);
    } else {
      var n := |tasks| - 1;
      var before := Ops(tasks[..n]);
      OpsTouch(tasks[..n], place);
      TouchesAppends(tasks, place);
      MentionsAppends(before, SourceOp(tasks[n]), place);
      MentionsAppends(before + [SourceOp(tasks[n])], TargetOp(tasks[n]), place);
      assert Ops(tasks) == before + [SourceOp(tasks[n])] + [TargetOp(tasks[n])];
    }
  }

  /** Written as missing, the touched vertices are gone. */
  lemma {:induction false} WrittenAsMissing(index: Index, tasks: seq<Edge>, places: seq<Place>, after: Index)
    requires !TapeHasBytes(index, tasks) && forall place :: Touches(tasks, place) <==> place in places
    requires forall place :: place !in places ==> BlobAt(after, place) == BlobAt(index, place)
    requires forall place :: place in after <==> place !in places && place in index
    ensures after == ApplyBatch(index, tasks, true)
  {
    hide Touches, TapeHasBytes;
    forall place | place in after ensures after[place] == index[place] {
      assert BlobAt(after, place) == BlobAt(index, place);
    }
  }

  /** What a batch of columns does to the edges: all it names are there afterwards, or none. */
  lemma {:induction false} ColumnsOnEdges(index: Index, collections: seq<int>, sources: seq<int>, targets: seq<int>,
                                          ids: Option<seq<int>>, erase: bool)
    requires ValidIndex(index)
    requires |collections| == |sources| == |targets|
    requires ids.Some? ==> |ids.value| == |sources|
    ensures var after := ApplyBatch(index, TasksOf(collections, sources, targets, ids), erase);
      var named := set i | 0 <= i < |sources| ::
        Edge(collections[i], sources[i], targets[i], if ids.Some? then ids.value[i] else 0x7FFF_FFFF_FFFF_FFFF);
      && ValidIndex(after) && (Mirrored(index) ==> Mirrored(after))
      && EdgeSet(after) == if erase then EdgeSet(index) - named else EdgeSet(index) + named
  {
    hide ValidIndex, Mirrored, EdgeSet, ApplyBatch;
    var tasks := TasksOf(collections, sources, targets, ids);
    BatchOnEdges(index, tasks, erase);
    if Mirrored(index) {
      MirrorStep(index, tasks, erase);
    }
    var named := set i | 0 <= i < |sources| ::
      Edge(collections[i], sources[i], targets[i], if ids.Some? then ids.value[i] else 0x7FFF_FFFF_FFFF_FFFF);
    forall e ensures e in tasks <==> e in named {
      if e in tasks {
        var i :| 0 <= i < |tasks| && tasks[i] == e;
      }
      if e in named {
        var i :| 0 <= i < |sources| &&
          e == Edge(collections[i], sources[i], targets[i], if ids.Some? then ids.value[i] else 0x7FFF_FFFF_FFFF_FFFF);
        assert tasks[i] == e;
      }
    }
    assert named == set e | e in tasks;
  }

  /** The in-place passes leave exactly what the batch leaves in the store. */
  method RunPasses(index: Index, tasks: seq<Edge>, erase: bool) returns (after: Index)
    requires ValidIndex(index)
    ensures after == ApplyBatch(index, tasks, erase)
  {
    hide Sorted, Ops, Progress, Blobs, TouchedPlaces, SortAndDeduplicate, ValidIndex, Touches, TapeHasBytes, Mentions, BlobAt;
    hide AllLinked;
    var places := SortAndDeduplicate(TouchedPlaces(tasks));
    CoversTouched(tasks);
    TouchesPlaces(index, tasks, places);
    var entries, tape := PullEntries(index, places);
    ghost var all := Ops(tasks);
    StartsPulled(index, places, erase);
    ghost var views := Blobs(index, places);
    if !erase {
      CountInserts(index, entries, places, tasks);
      ReallocateAll(index, entries, places, all);
    }
    ghost var linked := !erase || tape;
    assert AllLinked(entries, linked);
    views := ApplyAllTasks(entries, places, tasks, erase, index, views);
    assert |views| == |places|;
    assert AllLinked(entries, linked);
    after := WriteBack(index, places, entries, views, linked);
    if linked {
      WrittenBack(index, all, places, views, after, erase);
      TasksAreOps(index, tasks, erase);
    } else {
      WrittenAsMissing(index, tasks, places, after);
    }
  }

  /** A batch of columns, run in place: the edges it names are there afterwards, or none of them is. */
  method UpdateNeighborhoods(index: Index, collections: seq<int>, sources: seq<int>, targets: seq<int>,
                             ids: Option<seq<int>>, erase: bool) returns (after: Index)
    requires ValidIndex(index)
    requires |collections| == |sources| == |targets|
    requires ids.Some? ==> |ids.value| == |sources|
    ensures after == ApplyBatch(index, TasksOf(collections, sources, targets, ids), erase)
    ensures ValidIndex(after) && (Mirrored(index) ==> Mirrored(after))
    ensures var named := set i | 0 <= i < |sources| ::
        Edge(collections[i], sources[i], targets[i], if ids.Some? then ids.value[i] else 0x7FFF_FFFF_FFFF_FFFF);
      EdgeSet(after) == if erase then EdgeSet(index) - named else EdgeSet(index) + named
  {
    hide ValidIndex, Mirrored, EdgeSet, TasksOf, ApplyBatch;
    ColumnsOnEdges(index, collections, sources, targets, ids, erase);
    after := RunPasses(index, TasksOf(collections, sources, targets, ids), erase);
  }

  // ---- The buffer bound, in bytes ----

  /** The bytes the second pass allocates for an entry. */
  function NewSize(blob: Blob, degreeDelta: nat): nat {
    var present := blob.Bytes();
    present + degreeDelta * SHIP_BYTES + if present > HEADER_BYTES then 0 else HEADER_BYTES
  }

  lemma {:induction false} GrowsAsCounted(index: Index, ops: seq<Op>, place: Place)
    requires ValidIndex(index)
    ensures Inserted(index, ops, place, BlobAt(ApplyOps(index, ops, false), place))
  {
    hide Sorted, InsertBlob;
    if ops == [] {
      PulledWellFormed(index, place);
    } else {
      var n := |ops| - 1;
      GrowsAsCounted(index, ops[..n], place);
      var view := BlobAt(ApplyOps(index, ops[..n], false), place);
      assert ops[..n] + [ops[n]] == ops;
      if ops[n].place == place {
        InsertStep(index, ops[..n], ops[n], ops, view);
      } else {
        InsertElsewhere(index, ops[..n], ops[n], place, view);
      }
    }
  }

  /** Three-pass insertion never outgrows its buffer, whatever the batch repeats. */
  lemma {:induction false} InsertionsFit(index: Index, tasks: seq<Edge>, place: Place)
    requires ValidIndex(index)
    ensures BlobAt(ApplyBatch(index, tasks, false), place).Bytes()
         <= NewSize(BlobAt(index, place), Growth(index, place, Ops(tasks)))
  {
    TasksAreOps(index, tasks, false);
    GrowsAsCounted(index, Ops(tasks), place);
  }
}
