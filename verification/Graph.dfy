/**
The graph index (`src/modality_graph.cpp`), on values.

Every vertex holds two strictly sorted runs of (neighbour, edge id): the edges it is the
source of, then the edges it is the target of. So each edge is stored twice. This module says
what a batch leaves in the store (`ApplyBatch`), and proves that the two copies never disagree
and that together they are a plain set of edges.
*/
module Graph {
  import opened Store

  const HEADER_BYTES := 8
  const SHIP_BYTES := 16

  /** The id of every edge of a batch that names none: the greatest 64-bit key. */
  const KEY_UNKNOWN := 0x7FFF_FFFF_FFFF_FFFF

  datatype Ship = Ship(neighbor: int, edge: int)

  datatype Role = Source | Target

  predicate ShipLess(a: Ship, b: Ship) {
    a.neighbor < b.neighbor || (a.neighbor == b.neighbor && a.edge < b.edge)
  }

  predicate Sorted(run: seq<Ship>) {
    forall i, j :: 0 <= i < j < |run| ==> ShipLess(run[i], run[j])
  }

  /** A vertex blob: empty, as `ukv_graph_upsert_vertices` writes it, or two degrees and two runs. */
  datatype Blob = Bare | Listed(outgoing: seq<Ship>, incoming: seq<Ship>) {
    function Bytes(): nat {
      if Bare? then 0 else HEADER_BYTES + SHIP_BYTES * (|outgoing| + |incoming|)
    }
  }

  function Run(blob: Blob, role: Role): seq<Ship> {
    match blob
    case Listed(outgoing, incoming) => if role == Source then outgoing else incoming
    case Bare => []
  }

  predicate WellFormed(blob: Blob) {
    Sorted(Run(blob, Source)) && Sorted(Run(blob, Target))
  }

  // ---- One run ----

  /** Where a ship is, or would go: past everything smaller. */
  function Position(run: seq<Ship>, ship: Ship): (k: nat)
    ensures k <= |run|
  {
    if run == [] || !ShipLess(run[0], ship) then 0 else 1 + Position(run[1..], ship)
  }

  lemma {:induction false} PositionSplits(run: seq<Ship>, ship: Ship)
    ensures forall i :: 0 <= i < Position(run, ship) ==> ShipLess(run[i], ship)
    ensures Position(run, ship) < |run| ==> !ShipLess(run[Position(run, ship)], ship)
  {
    if run != [] && ShipLess(run[0], ship) {
      PositionSplits(run[1..], ship);
    }
  }

  function InsertRun(run: seq<Ship>, ship: Ship): seq<Ship> {
    var k := Position(run, ship);
    if ship in run then run else run[..k] + [ship] + run[k..]
  }

  function EraseRun(run: seq<Ship>, ship: Ship): seq<Ship> {
    var k := Position(run, ship);
    if ship in run && k < |run| then run[..k] + run[k + 1..] else run
  }

  function Ships(run: seq<Ship>): set<Ship> {
    set ship | ship in run
  }

  lemma {:induction false} PositionFinds(run: seq<Ship>, ship: Ship)
    requires Sorted(run)
    ensures ship in run <==> Position(run, ship) < |run| && run[Position(run, ship)] == ship
  {
    PositionSplits(run, ship);
  }

  /** Two sorted runs and a ship between them. */
  lemma {:induction false} SortedAround(low: seq<Ship>, middle: seq<Ship>, high: seq<Ship>)
    requires Sorted(low) && Sorted(high) && |middle| <= 1
    requires forall a, b :: a in low && b in middle ==> ShipLess(a, b)
    requires forall a, b :: a in middle && b in high ==> ShipLess(a, b)
    requires forall a, b :: a in low && b in high ==> ShipLess(a, b)
    ensures Sorted(low + middle + high)
  {
    var run := low + middle + high;
    forall i, j | 0 <= i < j < |run| ensures ShipLess(run[i], run[j]) {
      if j < |low| {
        assert run[i] == low[i] && run[j] == low[j];
      } else if i < |low| {
        assert run[i] in low;
        assert run[j] in middle || run[j] in high;
      } else if j < |low| + |middle| {
      } else if i < |low| + |middle| {
        assert run[i] in middle && run[j] in high;
      } else {
        assert run[i] == high[i - |low| - |middle|] && run[j] == high[j - |low| - |middle|];
      }
    }
  }

  lemma {:induction false} SplitSorted(run: seq<Ship>, k: nat)
    requires Sorted(run) && k <= |run|
    ensures Sorted(run[..k]) && Sorted(run[k..])
    ensures forall a, b :: a in run[..k] && b in run[k..] ==> ShipLess(a, b)
  {
  }

  lemma {:induction false} SplitAround(run: seq<Ship>, k: nat)
    requires Sorted(run) && k < |run|
    ensures Sorted(run[..k]) && Sorted(run[k + 1..])
    ensures forall a, b :: a in run[..k] && b in run[k + 1..] ==> ShipLess(a, b)
    ensures run[k] !in run[..k] && run[k] !in run[k + 1..]
  {
  }

  lemma {:induction false} ShipsAround(low: seq<Ship>, ship: Ship, high: seq<Ship>)
    ensures Ships(low + [ship] + high) == Ships(low + high) + {ship}
  {
  }

  lemma {:induction false} AfterPosition(run: seq<Ship>, ship: Ship)
    requires Sorted(run) && ship !in run
    ensures forall b :: b in run[Position(run, ship)..] ==> ShipLess(ship, b)
  {
    var k := Position(run, ship);
    PositionSplits(run, ship);
    forall i | k <= i < |run| ensures ShipLess(ship, run[i]) {
      assert run[k] in run;
    }
  }

  lemma {:induction false} InsertKeepsSorted(run: seq<Ship>, ship: Ship)
    requires Sorted(run)
    ensures Sorted(InsertRun(run, ship))
    ensures Ships(InsertRun(run, ship)) == Ships(run) + {ship}
  {
    if ship !in run {
      var k := Position(run, ship);
      var low, high := run[..k], run[k..];
      SplitSorted(run, k);
      PositionSplits(run, ship);
      AfterPosition(run, ship);
      hide Sorted;
      assert run == low + high;
      SortedAround(low, [ship], high);
      ShipsAround(low, ship, high);
    }
  }

  lemma {:induction false} EraseKeepsSorted(run: seq<Ship>, ship: Ship)
    requires Sorted(run)
    ensures Sorted(EraseRun(run, ship))
    ensures Ships(EraseRun(run, ship)) == Ships(run) - {ship}
  {
    PositionFinds(run, ship);
    if ship in run {
      var k := Position(run, ship);
      var low, high := run[..k], run[k + 1..];
      SplitAround(run, k);
      hide Sorted;
      assert run == low + [ship] + high;
      SortedAround(low, [], high);
      assert low + [] + high == low + high;
      ShipsAround(low, ship, high);
    }
  }

  // ---- One blob ----

  function InsertBlob(blob: Blob, role: Role, ship: Ship): Blob {
    match role
    case Source => Listed(InsertRun(Run(blob, Source), ship), Run(blob, Target))
    case Target => Listed(Run(blob, Source), InsertRun(Run(blob, Target), ship))
  }

  function EraseBlob(blob: Blob, role: Role, ship: Ship): Blob {
    match blob
    case Listed(outgoing, incoming) =>
      if role == Source then Listed(EraseRun(outgoing, ship), incoming) else Listed(outgoing, EraseRun(incoming, ship))
    case Bare => Bare
  }

  // ---- A store of blobs, and batches over it ----

  type Index = map<Place, Blob>

  datatype Edge = Edge(collection: int, source: int, target: int, id: int) {
    function SourcePlace(): Place { Place(collection, source) }
    function TargetPlace(): Place { Place(collection, target) }
    function SourceShip(): Ship { Ship(target, id) }
    function TargetShip(): Ship { Ship(source, id) }
  }

  /** What reading a vertex gives: on the joined tape a missing blob has no bytes, like an empty one. */
  function BlobAt(index: Index, place: Place): Blob {
    if place in index then index[place] else Bare
  }

  function UpdateBlob(blob: Blob, role: Role, ship: Ship, erase: bool): Blob {
    if erase then EraseBlob(blob, role, ship) else InsertBlob(blob, role, ship)
  }

  /** Every touched vertex is written back, with or without bytes. */
  function Touch(index: Index, place: Place, role: Role, ship: Ship, erase: bool): Index {
    index[place := UpdateBlob(BlobAt(index, place), role, ship, erase)]
  }

  /** One task of a batch: the source's entry first, then the target's. */
  function ApplyTask(index: Index, edge: Edge, erase: bool): Index {
    Touch(Touch(index, edge.SourcePlace(), Source, edge.SourceShip(), erase),
          edge.TargetPlace(), Target, edge.TargetShip(), erase)
  }

  function ApplyTasks(index: Index, tasks: seq<Edge>, erase: bool): Index {
    if tasks == [] then index
    else ApplyTask(ApplyTasks(index, tasks[..|tasks| - 1], erase), tasks[|tasks| - 1], erase)
  }

  ghost predicate ValidIndex(index: Index) {
    forall place :: place in index ==> WellFormed(index[place])
  }

  /** The copy of an edge kept by its source. */
  ghost predicate HasEdge(index: Index, e: Edge) {
    e.SourceShip() in Run(BlobAt(index, e.SourcePlace()), Source)
  }

  /** The copy of an edge kept by its target. */
  ghost predicate HasMirror(index: Index, e: Edge) {
    e.TargetShip() in Run(BlobAt(index, e.TargetPlace()), Target)
  }

  /** The two copies agree, self-loops included. */
  ghost predicate Mirrored(index: Index) {
    forall e: Edge :: HasEdge(index, e) <==> HasMirror(index, e)
  }

  lemma {:induction false} TouchEffect(index: Index, place: Place, role: Role, ship: Ship, erase: bool)
    requires ValidIndex(index)
    ensures var after := Touch(index, place, role, ship, erase);
      && ValidIndex(after)
      && (forall p, r :: (p != place || r != role) ==> Run(BlobAt(after, p), r) == Run(BlobAt(index, p), r))
      && Ships(Run(BlobAt(after, place), role)) ==
           (if erase then Ships(Run(BlobAt(index, place), role)) - {ship}
            else Ships(Run(BlobAt(index, place), role)) + {ship})
  {
    var run := Run(BlobAt(index, place), role);
    assert WellFormed(BlobAt(index, place));
    if erase { EraseKeepsSorted(run, ship); } else { InsertKeepsSorted(run, ship); }
  }

  lemma {:induction false} TaskEffect(index: Index, task: Edge, erase: bool)
    requires ValidIndex(index)
    ensures var after := ApplyTask(index, task, erase);
      && ValidIndex(after)
      && (forall e :: HasEdge(after, e) <==> if e == task then !erase else HasEdge(index, e))
      && (forall e :: HasMirror(after, e) <==> if e == task then !erase else HasMirror(index, e))
  {
    hide Sorted;
    var middle := Touch(index, task.SourcePlace(), Source, task.SourceShip(), erase);
    var after := ApplyTask(index, task, erase);
    TouchEffect(index, task.SourcePlace(), Source, task.SourceShip(), erase);
    TouchEffect(middle, task.TargetPlace(), Target, task.TargetShip(), erase);
    forall e ensures HasEdge(after, e) <==> if e == task then !erase else HasEdge(index, e) {
      assert HasEdge(after, e) <==> e.SourceShip() in Ships(Run(BlobAt(middle, e.SourcePlace()), Source));
      assert HasEdge(index, e) <==> e.SourceShip() in Ships(Run(BlobAt(index, e.SourcePlace()), Source));
    }
    forall e ensures HasMirror(after, e) <==> if e == task then !erase else HasMirror(index, e) {
      assert HasMirror(after, e) <==> e.TargetShip() in Ships(Run(BlobAt(after, e.TargetPlace()), Target));
      assert HasMirror(index, e) <==> e.TargetShip() in Ships(Run(BlobAt(middle, e.TargetPlace()), Target));
    }
  }

  lemma {:induction false} TasksEffect(index: Index, tasks: seq<Edge>, erase: bool)
    requires ValidIndex(index)
    ensures var after := ApplyTasks(index, tasks, erase);
      && ValidIndex(after)
      && (forall e :: HasEdge(after, e) <==> if e in tasks then !erase else HasEdge(index, e))
      && (forall e :: HasMirror(after, e) <==> if e in tasks then !erase else HasMirror(index, e))
  {
    if tasks != [] {
      var n := |tasks| - 1;
      TasksEffect(index, tasks[..n], erase);
      TaskEffect(ApplyTasks(index, tasks[..n], erase), tasks[n], erase);
      assert tasks == tasks[..n] + [tasks[n]];
    }
  }

  // ---- What a batch leaves in the store ----

  predicate Touches(tasks: seq<Edge>, place: Place) {
    exists i :: 0 <= i < |tasks| && (tasks[i].SourcePlace() == place || tasks[i].TargetPlace() == place)
  }

  /** The tape of a read is allocated with its first byte: without one the entries point nowhere. */
  ghost predicate TapeHasBytes(index: Index, tasks: seq<Edge>) {
    exists place :: Touches(tasks, place) && BlobAt(index, place).Listed?
  }

  /** Entries that point nowhere are written as missing, which erases their vertices. */
  ghost function ApplyBatch(index: Index, tasks: seq<Edge>, erase: bool): Index {
    if erase && !TapeHasBytes(index, tasks) then map place | place in index && !Touches(tasks, place) :: index[place]
    else ApplyTasks(index, tasks, erase)
  }

  lemma {:induction false} TouchesAppends(tasks: seq<Edge>, place: Place)
    requires tasks != []
    ensures var n := |tasks| - 1;
      Touches(tasks, place) <==> Touches(tasks[..n], place) || tasks[n].SourcePlace() == place || tasks[n].TargetPlace() == place
  {
    var n := |tasks| - 1;
    if Touches(tasks[..n], place) {
      var i :| 0 <= i < n && (tasks[..n][i].SourcePlace() == place || tasks[..n][i].TargetPlace() == place);
      assert tasks[i] == tasks[..n][i];
    }
    if Touches(tasks, place) {
      var i :| 0 <= i <= n && (tasks[i].SourcePlace() == place || tasks[i].TargetPlace() == place);
      assert i < n ==> tasks[..n][i] == tasks[i];
    }
  }

  lemma {:induction false} TasksKeys(index: Index, tasks: seq<Edge>, erase: bool, place: Place)
    ensures place in ApplyTasks(index, tasks, erase) <==> place in index || Touches(tasks, place)
  {
    hide UpdateBlob, Touches;
    if tasks == [] {
      NothingTouched(place);
    } else {
      TasksKeys(index, tasks[..|tasks| - 1], erase, place);
      TouchesAppends(tasks, place);
    }
  }

  lemma {:induction false} NothingTouched(place: Place)
    ensures !Touches([], place)
  {
  }

  lemma {:induction false} NothingToErase(index: Index, tasks: seq<Edge>)
    requires forall place :: Touches(tasks, place) ==> BlobAt(index, place) == Bare
    ensures forall place :: BlobAt(ApplyTasks(index, tasks, true), place) == BlobAt(index, place)
  {
    hide Touches;
    if tasks != [] {
      var n := |tasks| - 1;
      forall place ensures Touches(tasks, place) <==>
        Touches(tasks[..n], place) || tasks[n].SourcePlace() == place || tasks[n].TargetPlace() == place
      {
        TouchesAppends(tasks, place);
      }
      NothingToErase(index, tasks[..n]);
    }
  }

  /** The blobs a batch leaves are those of its tasks, whether the touched vertices are written or erased. */
  lemma {:induction false} BatchBlobs(index: Index, tasks: seq<Edge>, erase: bool)
    ensures forall place :: BlobAt(ApplyBatch(index, tasks, erase), place) == BlobAt(ApplyTasks(index, tasks, erase), place)
  {
    hide Touches;
    if erase && !TapeHasBytes(index, tasks) {
      NothingToErase(index, tasks);
    }
  }

  /** A removal erases every vertex it touches exactly when none of them has bytes, stored or not. */
  lemma {:induction false} BatchKeys(index: Index, tasks: seq<Edge>, erase: bool, place: Place)
    ensures place in ApplyBatch(index, tasks, erase) <==>
      if Touches(tasks, place) then !erase || TapeHasBytes(index, tasks) else place in index
  {
    hide Touches, TapeHasBytes;
    TasksKeys(index, tasks, erase, place);
  }

  /** Removing an edge from vertices without bytes erases them, even one that is stored. */
  lemma {:induction false} LoneRemovalErases(e: Edge)
    ensures ApplyBatch(map[e.SourcePlace() := Bare], [e], true) == map[]
  {
    var index: Index := map[e.SourcePlace() := Bare];
    var tasks := [e];
    assert tasks[0] == e;
    assert Touches(tasks, e.SourcePlace());
    assert !TapeHasBytes(index, tasks);
  }

  /** Beside a vertex that has bytes, a removal leaves an empty blob where there was none. */
  lemma {:induction false} RemovalBesideBytesCreates(e: Edge)
    requires e.SourcePlace() != e.TargetPlace()
    ensures ApplyBatch(map[e.SourcePlace() := Listed([], [])], [e], true) ==
      map[e.SourcePlace() := Listed([], []), e.TargetPlace() := Bare]
  {
    var index: Index := map[e.SourcePlace() := Listed([], [])];
    var tasks := [e];
    assert tasks[0] == e && tasks[..0] == [];
    assert Touches(tasks, e.SourcePlace());
    assert TapeHasBytes(index, tasks);
    assert EraseRun([], e.SourceShip()) == [];
    assert ApplyTasks(index, tasks, true) == ApplyTask(index, e, true);
  }

  /** After a batch both copies of every edge are as the batch says, or as they were. */
  lemma {:induction false} BatchEffect(index: Index, tasks: seq<Edge>, erase: bool)
    requires ValidIndex(index)
    ensures var after := ApplyBatch(index, tasks, erase);
      && ValidIndex(after)
      && (forall e :: HasEdge(after, e) <==> if e in tasks then !erase else HasEdge(index, e))
      && (forall e :: HasMirror(after, e) <==> if e in tasks then !erase else HasMirror(index, e))
  {
    hide ApplyBatch, ApplyTasks, WellFormed;
    TasksEffect(index, tasks, erase);
    BatchBlobs(index, tasks, erase);
    var after, applied := ApplyBatch(index, tasks, erase), ApplyTasks(index, tasks, erase);
    forall place | place in after ensures WellFormed(after[place]) {
      assert after[place] == BlobAt(applied, place);
      BlobIsWellFormed(applied, place);
    }
  }

  lemma {:induction false} BlobIsWellFormed(index: Index, place: Place)
    requires ValidIndex(index)
    ensures WellFormed(BlobAt(index, place))
  {
  }

  // ---- The set of edges ----

  ghost function EdgeSet(index: Index): set<Edge> {
    set place, ship | place in index.Keys && ship in Run(BlobAt(index, place), Source) ::
      Edge(place.collection, place.key, ship.neighbor, ship.edge)
  }

  lemma {:induction false} EdgeSetHas(index: Index, e: Edge)
    ensures e in EdgeSet(index) <==> HasEdge(index, e)
  {
    if HasEdge(index, e) {
      assert e.SourcePlace() in index.Keys;
      assert e == Edge(e.SourcePlace().collection, e.SourcePlace().key, e.SourceShip().neighbor, e.SourceShip().edge);
    }
  }

  /** A batch upsert is a union and a batch removal a difference, for any order and repetition. */
  lemma {:induction false} BatchOnEdges(index: Index, tasks: seq<Edge>, erase: bool)
    requires ValidIndex(index)
    ensures ValidIndex(ApplyBatch(index, tasks, erase))
    ensures EdgeSet(ApplyBatch(index, tasks, erase)) ==
      (if erase then EdgeSet(index) - (set e | e in tasks) else EdgeSet(index) + (set e | e in tasks))
  {
    BatchEffect(index, tasks, erase);
    var after := ApplyBatch(index, tasks, erase);
    forall e ensures e in EdgeSet(after) <==> if e in tasks then !erase else e in EdgeSet(index) {
      EdgeSetHas(after, e);
      EdgeSetHas(index, e);
    }
  }

  // ---- Whole runs ----

  datatype Batch = Batch(tasks: seq<Edge>, erase: bool)

  ghost function RunBatches(batches: seq<Batch>): Index {
    if batches == [] then map[] else
    var last := batches[|batches| - 1];
    ApplyBatch(RunBatches(batches[..|batches| - 1]), last.tasks, last.erase)
  }

  ghost function RunEdges(batches: seq<Batch>): set<Edge> {
    if batches == [] then {} else
    var last := batches[|batches| - 1];
    var touched := set e | e in last.tasks;
    var before := RunEdges(batches[..|batches| - 1]);
    if last.erase then before - touched else before + touched
  }

  lemma {:induction false} RunKeepsMirror(batches: seq<Batch>)
    ensures ValidIndex(RunBatches(batches))
    ensures Mirrored(RunBatches(batches))
    ensures EdgeSet(RunBatches(batches)) == RunEdges(batches)
  {
    if batches != [] {
      var before := batches[..|batches| - 1];
      var last := batches[|batches| - 1];
      RunKeepsMirror(before);
      BatchEffect(RunBatches(before), last.tasks, last.erase);
      MirrorStep(RunBatches(before), last.tasks, last.erase);
      BatchOnEdges(RunBatches(before), last.tasks, last.erase);
    }
  }

  lemma {:induction false} MirrorStep(index: Index, tasks: seq<Edge>, erase: bool)
    requires ValidIndex(index) && Mirrored(index)
    ensures Mirrored(ApplyBatch(index, tasks, erase))
  {
    BatchEffect(index, tasks, erase);
    var after := ApplyBatch(index, tasks, erase);
    forall e: Edge ensures HasEdge(after, e) <==> HasMirror(after, e) {
      assert HasEdge(index, e) <==> HasMirror(index, e);
    }
  }

  // ---- Degrees ----

  ghost function SumDegrees(index: Index, role: Role): nat {
    if index == map[] then 0 else
    var place :| place in index;
    |Run(BlobAt(index, place), role)| + SumDegrees(index - {place}, role)
  }

  /** The edges as one side of every entry lists them. */
  ghost function Listing(index: Index, role: Role): set<Edge> {
    set place, ship | place in index.Keys && ship in Run(BlobAt(index, place), role) :: EdgeOf(place, role, ship)
  }

  function EdgeOf(place: Place, role: Role, ship: Ship): Edge {
    if role == Source then Edge(place.collection, place.key, ship.neighbor, ship.edge)
    else Edge(place.collection, ship.neighbor, place.key, ship.edge)
  }

  lemma {:induction false} RunSize(place: Place, role: Role, run: seq<Ship>)
    requires Sorted(run)
    ensures |set ship | ship in run :: EdgeOf(place, role, ship)| == |run|
  {
    var all := set ship | ship in run :: EdgeOf(place, role, ship);
    if run != [] {
      var n := |run| - 1;
      var fewer := set ship | ship in run[..n] :: EdgeOf(place, role, ship);
      LastIsNew(run);
      hide Sorted, EdgeOf;
      RunSize(place, role, run[..n]);
      assert run == run[..n] + [run[n]];
      assert all == fewer + {EdgeOf(place, role, run[n])};
      forall ship | ship in run[..n] ensures EdgeOf(place, role, ship) != EdgeOf(place, role, run[n]) {
        EdgeTellsShip(place, role, ship, run[n]);
      }
    }
  }

  lemma {:induction false} LastIsNew(run: seq<Ship>)
    requires Sorted(run) && run != []
    ensures Sorted(run[..|run| - 1]) && run[|run| - 1] !in run[..|run| - 1]
  {
  }

  lemma {:induction false} EdgeTellsShip(place: Place, role: Role, a: Ship, b: Ship)
    ensures EdgeOf(place, role, a) == EdgeOf(place, role, b) <==> a == b
  {
  }

  lemma {:induction false} ListingSplits(index: Index, role: Role, place: Place)
    requires place in index
    ensures var here := set ship | ship in Run(BlobAt(index, place), role) :: EdgeOf(place, role, ship);
      Listing(index, role) == Listing(index - {place}, role) + here && Listing(index - {place}, role) !! here
  {
    var rest := index - {place};
    assert forall p :: p in rest ==> BlobAt(rest, p) == BlobAt(index, p);
  }

  lemma {:induction false} ListingSize(index: Index, role: Role)
    requires ValidIndex(index)
    ensures |Listing(index, role)| == SumDegrees(index, role)
    decreases |index|
  {
    if index != map[] {
      var place :| place in index && SumDegrees(index, role) ==
        |Run(BlobAt(index, place), role)| + SumDegrees(index - {place}, role);
      assert WellFormed(index[place]);
      RunSize(place, role, Run(BlobAt(index, place), role));
      ListingSize(index - {place}, role);
      hide Run, WellFormed, EdgeOf, BlobAt;
      ListingSplits(index, role, place);
    }
  }

  lemma {:induction false} ListingsAgree(index: Index)
    requires Mirrored(index)
    ensures Listing(index, Source) == EdgeSet(index) == Listing(index, Target)
  {
    forall e: Edge ensures e in Listing(index, Target) <==> HasMirror(index, e) {
      if HasMirror(index, e) {
        assert e.TargetPlace() in index.Keys;
        assert e == EdgeOf(e.TargetPlace(), Target, e.TargetShip());
      }
    }
    forall e: Edge ensures e in EdgeSet(index) <==> HasMirror(index, e) {
      EdgeSetHas(index, e);
    }
  }

  /** In every reachable index both degree sums are the number of edges. */
  lemma {:induction false} DegreesCountEdges(batches: seq<Batch>)
    ensures SumDegrees(RunBatches(batches), Source) == |RunEdges(batches)|
    ensures SumDegrees(RunBatches(batches), Target) == |RunEdges(batches)|
  {
    var index := RunBatches(batches);
    RunKeepsMirror(batches);
    ListingsAgree(index);
    ListingSize(index, Source);
    ListingSize(index, Target);
  }
}
