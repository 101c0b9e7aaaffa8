/**
Reading the graph index (`export_edge_tuples`): every edge of a vertex as three numbers, and
how many there are.
*/
module GraphExport {
  import opened Store
  import opened Graph

  /** Which runs a caller asks for. */
  datatype Wanted = Neither | Sources | Targets | Either {
    predicate Outgoing() { Sources? || Either? }
    predicate Incoming() { Targets? || Either? }
  }

  datatype Triple = Triple(source: int, target: int, id: int)

  function Neighbors(blob: Blob, wanted: Wanted): seq<Ship> {
    match wanted
    case Sources => Run(blob, Source)
    case Targets => Run(blob, Target)
    case Either => Run(blob, Source) + Run(blob, Target)
    case Neither => []
  }

  // ---- What is exported for one vertex ----

  function OutTriples(vertex: int, run: seq<Ship>): (ts: seq<Triple>)
    ensures |ts| == |run|
  {
    seq(|run|, i requires 0 <= i < |run| => Triple(vertex, run[i].neighbor, run[i].edge))
  }

  predicate HasLoop(vertex: int, run: seq<Ship>) {
    exists i :: 0 <= i < |run| && run[i].neighbor == vertex
  }

  /** Incoming self-loops are dropped when an outgoing one was already exported. */
  function InTriples(vertex: int, run: seq<Ship>, looped: bool): seq<Triple> {
    if run == [] then [] else
    var n := |run| - 1;
    InTriples(vertex, run[..n], looped) +
      if run[n].neighbor == vertex && looped then [] else [Triple(run[n].neighbor, vertex, run[n].edge)]
  }

  function Triples(vertex: int, blob: Blob, wanted: Wanted): seq<Triple> {
    var out := if wanted.Outgoing() then Run(blob, Source) else [];
    OutTriples(vertex, out) +
      if wanted.Incoming() then InTriples(vertex, Run(blob, Target), HasLoop(vertex, out)) else []
  }

  function AllTriples(vertices: seq<int>, blobs: seq<Blob>, wanted: seq<Wanted>): seq<Triple>
    requires |vertices| == |blobs| == |wanted|
  {
    if vertices == [] then [] else
    var n := |vertices| - 1;
    AllTriples(vertices[..n], blobs[..n], wanted[..n]) + Triples(vertices[n], blobs[n], wanted[n])
  }

  /** Three ids for each edge, on one tape. */
  function Flat(ts: seq<Triple>): (ids: seq<int>)
    ensures |ids| == 3 * |ts|
  {
    if ts == [] then [] else
    var last := ts[|ts| - 1];
    Flat(ts[..|ts| - 1]) + [last.source, last.target, last.id]
  }

  function CountNeighbors(blobs: seq<Blob>, wanted: seq<Wanted>): nat
    requires |blobs| == |wanted|
  {
    if blobs == [] then 0 else
    var n := |blobs| - 1;
    CountNeighbors(blobs[..n], wanted[..n]) + |Neighbors(blobs[n], wanted[n])|
  }

  lemma {:induction false} InTriplesFit(vertex: int, run: seq<Ship>, looped: bool)
    ensures |InTriples(vertex, run, looped)| <= |run|
  {
    if run != [] {
      InTriplesFit(vertex, run[..|run| - 1], looped);
    }
  }

  lemma {:induction false} TriplesFit(vertex: int, blob: Blob, wanted: Wanted)
    ensures |Triples(vertex, blob, wanted)| <= |Neighbors(blob, wanted)|
  {
    InTriplesFit(vertex, Run(blob, Target), HasLoop(vertex, if wanted.Outgoing() then Run(blob, Source) else []));
  }

  lemma {:induction false} FlatAppends(ts: seq<Triple>, t: Triple)
    ensures Flat(ts + [t]) == Flat(ts) + [t.source, t.target, t.id]
  {
    assert (ts + [t])[..|ts|] == ts;
  }

  // ---- The exporting loops ----

  method WriteTriple(ids: array<int>, passed: nat, t: Triple, ghost written: seq<Triple>)
    requires passed + 3 <= ids.Length && ids[..passed] == Flat(written)
    modifies ids
    ensures ids[..passed + 3] == Flat(written + [t])
  {
    ids[passed] := t.source;
    ids[passed + 1] := t.target;
    ids[passed + 2] := t.id;
    FlatAppends(written, t);
    hide Flat;
    assert ids[..passed] == Flat(written);
    assert ids[..passed + 3] == ids[..passed] + [t.source, t.target, t.id];
  }

  method ExportOutgoing(ids: array<int>, passed: nat, vertex: int, run: seq<Ship>, ghost written: seq<Triple>)
    returns (passed': nat, looped: bool)
    requires passed + 3 * |run| <= ids.Length && ids[..passed] == Flat(written)
    modifies ids
    ensures passed' == passed + 3 * |run| && ids[..passed'] == Flat(written + OutTriples(vertex, run))
    ensures looped == HasLoop(vertex, run)
  {
    hide Flat, HasLoop;
    NoLoop(vertex);
    passed', looped := passed, false;
    assert written + OutTriples(vertex, []) == written;
    for i := 0 to |run|
      invariant passed' == passed + 3 * i
      invariant ids[..passed'] == Flat(written + OutTriples(vertex, run[..i]))
      invariant looped == HasLoop(vertex, run[..i])
    {
      var t := Triple(vertex, run[i].neighbor, run[i].edge);
      WriteTriple(ids, passed', t, written + OutTriples(vertex, run[..i]));
      assert written + OutTriples(vertex, run[..i]) + [t] == written + OutTriples(vertex, run[..i + 1]);
      LoopAppends(vertex, run, i);
      if run[i].neighbor == vertex {
        looped := true;
      }
      passed' := passed' + 3;
    }
    assert run[..|run|] == run;
  }

  lemma {:induction false} NoLoop(vertex: int)
    ensures !HasLoop(vertex, [])
  {
  }

  lemma {:induction false} LoopAppends(vertex: int, run: seq<Ship>, i: nat)
    requires i < |run|
    ensures HasLoop(vertex, run[..i + 1]) <==> HasLoop(vertex, run[..i]) || run[i].neighbor == vertex
  {
    if HasLoop(vertex, run[..i]) {
      var k :| 0 <= k < i && run[..i][k].neighbor == vertex;
      assert run[..i + 1][k].neighbor == vertex;
    }
    if run[i].neighbor == vertex {
      assert run[..i + 1][i].neighbor == vertex;
    }
  }

  method ExportIncoming(ids: array<int>, passed: nat, vertex: int, run: seq<Ship>, looped: bool, ghost written: seq<Triple>)
    returns (passed': nat, skipped: nat)
    requires passed + 3 * |run| <= ids.Length && ids[..passed] == Flat(written)
    modifies ids
    ensures passed' == passed + 3 * |InTriples(vertex, run, looped)| <= ids.Length
    ensures ids[..passed'] == Flat(written + InTriples(vertex, run, looped))
    ensures skipped + |InTriples(vertex, run, looped)| == |run|
  {
    hide Flat;
    passed', skipped := passed, 0;
    assert written + InTriples(vertex, [], looped) == written;
    for i := 0 to |run|
      invariant passed' == passed + 3 * |InTriples(vertex, run[..i], looped)| <= passed + 3 * i
      invariant ids[..passed'] == Flat(written + InTriples(vertex, run[..i], looped))
      invariant skipped + |InTriples(vertex, run[..i], looped)| == i
    {
      ghost var before := InTriples(vertex, run[..i], looped);
      assert run[..i + 1][..i] == run[..i];
      if run[i].neighbor == vertex && looped {
        skipped := skipped + 1;
        assert InTriples(vertex, run[..i + 1], looped) == before;
      } else {
        var t := Triple(run[i].neighbor, vertex, run[i].edge);
        WriteTriple(ids, passed', t, written + before);
        assert InTriples(vertex, run[..i + 1], looped) == before + [t];
        assert written + before + [t] == written + (before + [t]);
        passed' := passed' + 3;
      }
    }
    assert run[..|run|] == run;
  }

  /** One vertex: the degree counts what is written, self-loops once. */
  method ExportVertex(ids: array<int>, passed: nat, vertex: int, blob: Blob, wanted: Wanted, ghost written: seq<Triple>)
    returns (passed': nat, degree: int)
    requires passed + 3 * |Neighbors(blob, wanted)| <= ids.Length && ids[..passed] == Flat(written)
    modifies ids
    ensures passed' == passed + 3 * |Triples(vertex, blob, wanted)| <= ids.Length
    ensures ids[..passed'] == Flat(written + Triples(vertex, blob, wanted))
    ensures degree == |Triples(vertex, blob, wanted)|
  {
    hide Flat, InTriples, OutTriples, HasLoop;
    passed', degree := passed, 0;
    var looped := false;
    ghost var out := if wanted.Outgoing() then Run(blob, Source) else [];
    ghost var result := OutTriples(vertex, out);
    NoLoop(vertex);
    if wanted.Outgoing() {
      passed', looped := ExportOutgoing(ids, passed, vertex, Run(blob, Source), written);
      degree := degree + |Run(blob, Source)|;
    } else {
      assert written + result == written;
    }
    if wanted.Incoming() {
      ghost var more := InTriples(vertex, Run(blob, Target), looped);
      var skipped;
      passed', skipped := ExportIncoming(ids, passed', vertex, Run(blob, Target), looped, written + result);
      degree := degree - skipped + |Run(blob, Target)|;
      assert written + result + more == written + (result + more);
    } else {
      assert result + [] == result;
    }
  }

  lemma {:induction false} CountMonotone(blobs: seq<Blob>, wanted: seq<Wanted>, i: nat)
    requires |blobs| == |wanted| && i <= |blobs|
    ensures CountNeighbors(blobs[..i], wanted[..i]) <= CountNeighbors(blobs, wanted)
    decreases |blobs|
  {
    if i < |blobs| {
      var n := |blobs| - 1;
      CountMonotone(blobs[..n], wanted[..n], i);
      assert blobs[..n][..i] == blobs[..i] && wanted[..n][..i] == wanted[..i];
    } else {
      assert blobs[..i] == blobs && wanted[..i] == wanted;
    }
  }

  /**
  The whole export. The tape never outgrows the capacity counted beforehand and holds the
  edges of each vertex in turn. The blobs come off the joined tape of a read, where none is
  ever missing: the source's branch for missing values has nothing to catch.
  */
  method ExportEdgeTuples(vertices: seq<int>, blobs: seq<Blob>, wanted: seq<Wanted>)
    returns (degrees: array<int>, ids: array<int>, passed: nat)
    requires |vertices| == |blobs| == |wanted|
    ensures degrees.Length == |vertices|
    ensures forall i :: 0 <= i < |vertices| ==>
      degrees[i] == |Triples(vertices[i], blobs[i], wanted[i])|
    ensures ids.Length == 3 * CountNeighbors(blobs, wanted)
    ensures passed <= ids.Length && ids[..passed] == Flat(AllTriples(vertices, blobs, wanted))
    ensures forall i :: 0 <= i < |vertices| ==>
      && 0 <= Start(degrees[..], i) && 0 <= degrees[i] && 3 * (Start(degrees[..], i) + degrees[i]) <= passed
      && TuplesAt(ids[..passed], Start(degrees[..], i), degrees[i]) == Triples(vertices[i], blobs[i], wanted[i])
  {
    hide Flat, Triples, AllTriples, CountNeighbors, TuplesAt, Start;
    var count := CountIds(blobs, wanted);
    ids := new int[3 * count];
    degrees := new int[|vertices|];
    passed := ExportAll(vertices, blobs, wanted, degrees, ids);
    forall i | 0 <= i < |vertices|
      ensures 0 <= Start(degrees[..], i) && 0 <= degrees[i] && 3 * (Start(degrees[..], i) + degrees[i]) <= passed
      ensures TuplesAt(ids[..passed], Start(degrees[..], i), degrees[i]) == Triples(vertices[i], blobs[i], wanted[i])
    {
      TapeReadsBack(vertices, blobs, wanted, degrees[..], i);
    }
  }

  /** The estimate made before anything is exported. */
  method CountIds(blobs: seq<Blob>, wanted: seq<Wanted>) returns (count: nat)
    requires |blobs| == |wanted|
    ensures count == CountNeighbors(blobs, wanted)
  {
    count := 0;
    for i := 0 to |blobs|
      invariant count == CountNeighbors(blobs[..i], wanted[..i])
    {
      count := count + |Neighbors(blobs[i], wanted[i])|;
      assert blobs[..i + 1][..i] == blobs[..i] && wanted[..i + 1][..i] == wanted[..i];
    }
    assert blobs[..|blobs|] == blobs && wanted[..|blobs|] == wanted;
  }

  method ExportAll(vertices: seq<int>, blobs: seq<Blob>, wanted: seq<Wanted>,
                   degrees: array<int>, ids: array<int>) returns (passed: nat)
    requires |vertices| == |blobs| == |wanted| == degrees.Length
    requires ids.Length == 3 * CountNeighbors(blobs, wanted)
    requires degrees != ids
    modifies degrees, ids
    ensures forall i :: 0 <= i < |vertices| ==>
      degrees[i] == |Triples(vertices[i], blobs[i], wanted[i])|
    ensures passed <= ids.Length && ids[..passed] == Flat(AllTriples(vertices, blobs, wanted))
  {
    hide Flat, Triples, AllTriples, CountNeighbors, Neighbors;
    passed := 0;
    ghost var written: seq<Triple> := [];
    NothingYet(vertices, blobs, wanted);
    for i := 0 to |vertices|
      invariant written == AllTriples(vertices[..i], blobs[..i], wanted[..i])
      invariant passed == 3 * |written| && |written| <= CountNeighbors(blobs[..i], wanted[..i])
      invariant passed <= ids.Length && ids[..passed] == Flat(written)
      invariant forall k :: 0 <= k < i ==> degrees[k] == |Triples(vertices[k], blobs[k], wanted[k])|
    {
      ghost var here := Triples(vertices[i], blobs[i], wanted[i]);
      TriplesFit(vertices[i], blobs[i], wanted[i]);
      CountMonotone(blobs, wanted, i + 1);
      PrefixStep(vertices, blobs, wanted, i);
      var degree;
      passed, degree := ExportVertex(ids, passed, vertices[i], blobs[i], wanted[i], written);
      degrees[i] := degree;
      written := written + here;
    }
  }

  lemma {:induction false} NothingYet(vertices: seq<int>, blobs: seq<Blob>, wanted: seq<Wanted>)
    requires |vertices| == |blobs| == |wanted|
    ensures AllTriples(vertices[..0], blobs[..0], wanted[..0]) == [] && Flat([]) == []
    ensures vertices[..|vertices|] == vertices && blobs[..|vertices|] == blobs && wanted[..|vertices|] == wanted
  {
  }

  lemma {:induction false} PrefixStep(vertices: seq<int>, blobs: seq<Blob>, wanted: seq<Wanted>, i: nat)
    requires |vertices| == |blobs| == |wanted| && i < |vertices|
    ensures AllTriples(vertices[..i + 1], blobs[..i + 1], wanted[..i + 1]) ==
      AllTriples(vertices[..i], blobs[..i], wanted[..i]) + Triples(vertices[i], blobs[i], wanted[i])
    ensures CountNeighbors(blobs[..i + 1], wanted[..i + 1]) ==
      CountNeighbors(blobs[..i], wanted[..i]) + |Neighbors(blobs[i], wanted[i])|
  {
    assert vertices[..i + 1][..i] == vertices[..i] && blobs[..i + 1][..i] == blobs[..i] && wanted[..i + 1][..i] == wanted[..i];
  }

  // ---- Reading the tape back ----

  /** Where the tuples of vertex `i` start: after as many as the degrees before it say. */
  function Start(degrees: seq<int>, i: nat): int
    requires i <= |degrees|
  {
    if i == 0 then 0 else Start(degrees, i - 1) + degrees[i - 1]
  }

  /** Three numbers make a tuple: source, target, id. */
  function TuplesAt(ids: seq<int>, start: nat, degree: nat): (ts: seq<Triple>)
    requires 3 * (start + degree) <= |ids|
    ensures |ts| == degree
  {
    seq(degree, k requires 0 <= k < degree =>
      Triple(ids[3 * (start + k)], ids[3 * (start + k) + 1], ids[3 * (start + k) + 2]))
  }

  lemma {:induction false} FlatAt(ts: seq<Triple>, k: nat)
    requires k < |ts|
    ensures Flat(ts)[3 * k] == ts[k].source && Flat(ts)[3 * k + 1] == ts[k].target && Flat(ts)[3 * k + 2] == ts[k].id
  {
    if k < |ts| - 1 {
      FlatAt(ts[..|ts| - 1], k);
    }
  }

  lemma {:induction false} AllTriplesSlices(vertices: seq<int>, blobs: seq<Blob>, wanted: seq<Wanted>, i: nat)
    requires |vertices| == |blobs| == |wanted| && i < |vertices|
    ensures var start, here := |AllTriples(vertices[..i], blobs[..i], wanted[..i])|, Triples(vertices[i], blobs[i], wanted[i]);
      var all := AllTriples(vertices, blobs, wanted);
      start + |here| <= |all| && all[start..start + |here|] == here
    decreases |vertices|
  {
    hide Triples;
    var n := |vertices| - 1;
    if i < n {
      AllTriplesSlices(vertices[..n], blobs[..n], wanted[..n], i);
      assert vertices[..n][..i] == vertices[..i] && blobs[..n][..i] == blobs[..i] && wanted[..n][..i] == wanted[..i];
    }
  }

  lemma {:induction false} StartIs(vertices: seq<int>, blobs: seq<Blob>, wanted: seq<Wanted>, degrees: seq<int>, i: nat)
    requires |vertices| == |blobs| == |wanted| == |degrees| && i <= |vertices|
    requires forall k :: 0 <= k < |vertices| ==> degrees[k] == |Triples(vertices[k], blobs[k], wanted[k])|
    ensures Start(degrees, i) == |AllTriples(vertices[..i], blobs[..i], wanted[..i])|
    decreases i
  {
    hide Triples, AllTriples;
    if i == 0 {
      NothingYet(vertices, blobs, wanted);
    } else {
      StartIs(vertices, blobs, wanted, degrees, i - 1);
      PrefixStep(vertices, blobs, wanted, i - 1);
    }
  }

  /** With the degrees, a caller finds the tuples of every vertex on the tape. */
  lemma {:induction false} TapeReadsBack(vertices: seq<int>, blobs: seq<Blob>, wanted: seq<Wanted>, degrees: seq<int>, i: nat)
    requires |vertices| == |blobs| == |wanted| == |degrees| && i < |vertices|
    requires forall k :: 0 <= k < |vertices| ==> degrees[k] == |Triples(vertices[k], blobs[k], wanted[k])|
    ensures var ids := Flat(AllTriples(vertices, blobs, wanted));
      && 0 <= Start(degrees, i) && 0 <= degrees[i] && 3 * (Start(degrees, i) + degrees[i]) <= |ids|
      && TuplesAt(ids, Start(degrees, i), degrees[i]) == Triples(vertices[i], blobs[i], wanted[i])
  {
    hide Triples, AllTriples, Flat;
    StartIs(vertices, blobs, wanted, degrees, i);
    AllTriplesSlices(vertices, blobs, wanted, i);
    var all, start := AllTriples(vertices, blobs, wanted), Start(degrees, i);
    var here := Triples(vertices[i], blobs[i], wanted[i]);
    forall k | 0 <= k < |here| ensures TuplesAt(Flat(all), start, degrees[i])[k] == here[k] {
      FlatAt(all, start + k);
      assert all[start..start + |here|][k] == all[start + k];
    }
  }

  // ---- What the export means ----

  function FarSource(t: Triple): Ship { Ship(t.source, t.id) }

  function FarTarget(t: Triple): Ship { Ship(t.target, t.id) }

  predicate SortedBySource(ts: seq<Triple>) {
    forall i, j :: 0 <= i < j < |ts| ==> ShipLess(FarSource(ts[i]), FarSource(ts[j]))
  }

  predicate SortedByTarget(ts: seq<Triple>) {
    forall i, j :: 0 <= i < j < |ts| ==> ShipLess(FarTarget(ts[i]), FarTarget(ts[j]))
  }

  lemma {:induction false} InTriplesMembers(vertex: int, run: seq<Ship>, looped: bool)
    ensures forall t :: t in InTriples(vertex, run, looped) <==>
      t.target == vertex && FarSource(t) in run && !(t.source == vertex && looped)
  {
    if run != [] {
      var n := |run| - 1;
      InTriplesMembers(vertex, run[..n], looped);
      assert run == run[..n] + [run[n]];
    }
  }

  lemma {:induction false} InTriplesSorted(vertex: int, run: seq<Ship>, looped: bool)
    requires Sorted(run)
    ensures SortedBySource(InTriples(vertex, run, looped))
  {
    if run != [] {
      var n := |run| - 1;
      var before := InTriples(vertex, run[..n], looped);
      InTriplesSorted(vertex, run[..n], looped);
      InTriplesMembers(vertex, run[..n], looped);
      forall i | 0 <= i < |before| ensures ShipLess(FarSource(before[i]), run[n]) {
        assert before[i] in before;
        assert FarSource(before[i]) in run[..n];
      }
    }
  }

  /** Exactly the edges that start or end at a vertex. */
  ghost predicate Incident(index: Index, place: Place, t: Triple) {
    && (t.source == place.key || t.target == place.key)
    && HasEdge(index, Edge(place.collection, t.source, t.target, t.id))
  }

  lemma {:induction false} OutTriplesMembers(vertex: int, run: seq<Ship>)
    ensures forall t :: t in OutTriples(vertex, run) <==> t.source == vertex && FarTarget(t) in run
    ensures forall t :: t in OutTriples(vertex, run) && t.target == vertex ==> HasLoop(vertex, run)
  {
    var ts := OutTriples(vertex, run);
    forall t: Triple | t.source == vertex && FarTarget(t) in run ensures t in ts {
      var i :| 0 <= i < |run| && run[i] == FarTarget(t);
      assert ts[i] == t;
    }
    forall t | t in ts ensures FarTarget(t) in run && (t.target == vertex ==> HasLoop(vertex, run)) {
      var i :| 0 <= i < |ts| && ts[i] == t;
      assert FarTarget(t) == run[i];
    }
  }

  /**
  For a vertex in both roles the export lists every incident edge exactly once, self-loops and
  parallel edges included: first the outgoing ones by target, then the incoming ones by source.
  */
  lemma {:induction false} ListsIncidentOnce(index: Index, place: Place)
    requires ValidIndex(index) && Mirrored(index)
    ensures var ts := Triples(place.key, BlobAt(index, place), Either);
      var n := |Run(BlobAt(index, place), Source)|;
      && (forall t :: t in ts <==> Incident(index, place, t))
      && (forall i, j :: 0 <= i < j < |ts| ==> ts[i] != ts[j])
      && n <= |ts| && SortedByTarget(ts[..n]) && SortedBySource(ts[n..])
      && (forall i :: 0 <= i < n ==> ts[i].source == place.key)
      && (forall i :: n <= i < |ts| ==> ts[i].target == place.key)
  {
    var v, out, inc := place.key, Run(BlobAt(index, place), Source), Run(BlobAt(index, place), Target);
    var looped := HasLoop(v, out);
    var low, high := OutTriples(v, out), InTriples(v, inc, looped);
    var ts := Triples(v, BlobAt(index, place), Either);
    assert ts == low + high && ts[..|out|] == low && ts[|out|..] == high;
    assert WellFormed(BlobAt(index, place));
    assert SortedByTarget(low);
    InTriplesSorted(v, inc, looped);
    OutTriplesMembers(v, out);
    InTriplesMembers(v, inc, looped);
    hide Sorted, OutTriples, InTriples, HasLoop, Triples;
    forall t ensures t in ts <==> Incident(index, place, t) {
      var e := Edge(place.collection, t.source, t.target, t.id);
      assert HasEdge(index, e) <==> HasMirror(index, e);
      assert t in ts <==> t in low || t in high;
      assert t in low && t.target == v ==> looped;
    }
    Disjoint(low, high, v);
  }

  /** Asked for its outgoing edges, a vertex lists exactly the edges that start at it, once each, by target. */
  lemma {:induction false} ListsOutgoing(index: Index, place: Place)
    requires ValidIndex(index)
    ensures var ts := Triples(place.key, BlobAt(index, place), Sources);
      && SortedByTarget(ts)
      && forall t :: t in ts <==>
        t.source == place.key && HasEdge(index, Edge(place.collection, t.source, t.target, t.id))
  {
    var v, out := place.key, Run(BlobAt(index, place), Source);
    assert WellFormed(BlobAt(index, place));
    assert OutTriples(v, out) + [] == OutTriples(v, out);
    OutTriplesMembers(v, out);
  }

  /** Asked for its incoming edges, it lists exactly the edges that end at it, self-loops included, by source. */
  lemma {:induction false} ListsIncoming(index: Index, place: Place)
    requires ValidIndex(index) && Mirrored(index)
    ensures var ts := Triples(place.key, BlobAt(index, place), Targets);
      && SortedBySource(ts)
      && forall t :: t in ts <==>
        t.target == place.key && HasEdge(index, Edge(place.collection, t.source, t.target, t.id))
  {
    var v, inc := place.key, Run(BlobAt(index, place), Target);
    assert WellFormed(BlobAt(index, place));
    NoLoop(v);
    assert OutTriples(v, []) + InTriples(v, inc, false) == InTriples(v, inc, false);
    InTriplesSorted(v, inc, false);
    InTriplesMembers(v, inc, false);
    hide Sorted, OutTriples, InTriples;
    forall t: Triple | t.target == v
      ensures FarSource(t) in inc <==> HasEdge(index, Edge(place.collection, t.source, t.target, t.id))
    {
      var e := Edge(place.collection, t.source, t.target, t.id);
      assert HasEdge(index, e) <==> HasMirror(index, e);
    }
  }

  /** In no role there is nothing to list; in one role the query for degrees alone agrees with the tuples. */
  lemma {:induction false} OneRoleDegrees(vertex: int, blob: Blob)
    ensures Triples(vertex, blob, Neither) == [] && OnlyDegree(blob, Neither) == 0
    ensures OnlyDegree(blob, Sources) == |Triples(vertex, blob, Sources)| == |Run(blob, Source)|
    ensures OnlyDegree(blob, Targets) == |Triples(vertex, blob, Targets)| == |Run(blob, Target)|
  {
    NoLoop(vertex);
    SkippedLoops(vertex, Run(blob, Target), false);
  }

  lemma {:induction false} Disjoint(low: seq<Triple>, high: seq<Triple>, v: int)
    requires SortedByTarget(low) && SortedBySource(high)
    requires forall t :: t in low ==> t.source == v
    requires forall t :: t in high ==> t.target == v
    requires forall t :: t in low ==> t !in high
    ensures forall i, j :: 0 <= i < j < |low + high| ==> (low + high)[i] != (low + high)[j]
    ensures forall i :: 0 <= i < |low| ==> (low + high)[i].source == v
    ensures forall i :: |low| <= i < |low + high| ==> (low + high)[i].target == v
  {
    var ts := low + high;
    forall i, j | 0 <= i < j < |ts| ensures ts[i] != ts[j] {
      if j < |low| {
        assert ShipLess(FarTarget(low[i]), FarTarget(low[j]));
      } else if i < |low| {
        assert low[i] in low && high[j - |low|] in high;
      } else {
        assert ShipLess(FarSource(high[i - |low|]), FarSource(high[j - |low|]));
      }
    }
    forall i | |low| <= i < |ts| ensures ts[i].target == v {
      assert high[i - |low|] in high;
    }
  }

  // ---- Degrees without tuples ----

  /** The degree reported when only degrees are asked for: no tuple is compared, no loop noticed. */
  function OnlyDegree(blob: Blob, wanted: Wanted): nat {
    (if wanted.Outgoing() then |Run(blob, Source)| else 0) + (if wanted.Incoming() then |Run(blob, Target)| else 0)
  }

  lemma {:induction false} SkippedLoops(vertex: int, run: seq<Ship>, looped: bool)
    ensures |InTriples(vertex, run, looped)| == |run| <==> !(looped && HasLoop(vertex, run))
  {
    InTriplesFit(vertex, run, looped);
    if run != [] {
      var n := |run| - 1;
      InTriplesFit(vertex, run[..n], looped);
      SkippedLoops(vertex, run[..n], looped);
      LoopAppends(vertex, run, n);
      assert run[..n + 1] == run;
    }
  }

  /** The two forms of the query agree on a vertex exactly when it has no self-loop. */
  lemma {:induction false} DegreesAgree(index: Index, place: Place)
    requires Mirrored(index)
    ensures OnlyDegree(BlobAt(index, place), Either) == |Triples(place.key, BlobAt(index, place), Either)|
      <==> forall id :: !HasEdge(index, Edge(place.collection, place.key, place.key, id))
  {
    var v, out, inc := place.key, Run(BlobAt(index, place), Source), Run(BlobAt(index, place), Target);
    SkippedLoops(v, inc, HasLoop(v, out));
    if HasLoop(v, out) {
      var i :| 0 <= i < |out| && out[i].neighbor == v;
      var e := Edge(place.collection, v, v, out[i].edge);
      assert e.SourceShip() == out[i] && HasEdge(index, e) && HasMirror(index, e);
      var k :| 0 <= k < |inc| && inc[k] == e.TargetShip();
      assert inc[k].neighbor == v;
    } else {
      forall id ensures !HasEdge(index, Edge(place.collection, v, v, id)) {
        forall k | 0 <= k < |out| ensures out[k] != Ship(v, id) {
          assert out[k].neighbor != v;
        }
      }
    }
  }

  /** A vertex with one self-loop: the export has one tuple, the query for degrees alone says two. */
  lemma {:induction false} SelfLoopCountedTwice()
    ensures var blob := BlobAt(RunBatches([Batch([Edge(0, 1, 1, 5)], false)]), Place(0, 1));
      |Triples(1, blob, Either)| == 1 && OnlyDegree(blob, Either) == 2
  {
    var e, ship := Edge(0, 1, 1, 5), Ship(1, 5);
    var batches, tasks := [Batch([e], false)], [e];
    assert batches[..0] == [] && tasks[..0] == [];
    assert RunBatches([]) == map[] && RunBatches(batches) == ApplyBatch(RunBatches(batches[..0]), batches[0].tasks, false);
    assert ApplyTasks(map[], tasks, false) == ApplyTask(ApplyTasks(map[], tasks[..0], false), tasks[0], false);
    assert RunBatches(batches) == ApplyTask(map[], e, false);
    assert InsertRun([], ship) == [ship];
    var blob := BlobAt(RunBatches(batches), Place(0, 1));
    assert blob == Listed([ship], [ship]);
    assert [ship][..0] == [];
    assert [ship][0].neighbor == 1;
    assert HasLoop(1, [ship]);
  }

  /** The degree the header promises for a vertex that is not stored. */
  const DEGREE_MISSING := 0xFFFF_FFFF

  lemma {:induction false} BareHasNothing(vertex: int, wanted: Wanted)
    ensures |Triples(vertex, Bare, wanted)| == 0 == OnlyDegree(Bare, wanted)
  {
    InTriplesFit(vertex, [], false);
  }

  /**
  The export of stored vertices. Every degree is the number of tuples, so that one that is not stored
  reports degree zero, like one without edges, and never the promised marker.
  */
  method ExportVertices(index: Index, places: seq<Place>, wanted: seq<Wanted>)
    returns (degrees: array<int>, ids: array<int>, passed: nat)
    requires |places| == |wanted|
    ensures degrees.Length == |places|
    ensures forall i :: 0 <= i < |places| ==> degrees[i] == |Triples(places[i].key, BlobAt(index, places[i]), wanted[i])|
    ensures forall i :: 0 <= i < |places| && places[i] !in index ==> degrees[i] == 0 != DEGREE_MISSING
  {
    hide Triples, OnlyDegree;
    var vertices := seq(|places|, i requires 0 <= i < |places| => places[i].key);
    var blobs := seq(|places|, i requires 0 <= i < |places| => BlobAt(index, places[i]));
    degrees, ids, passed := ExportEdgeTuples(vertices, blobs, wanted);
    forall i | 0 <= i < |places| && places[i] !in index ensures degrees[i] == 0 {
      BareHasNothing(places[i].key, wanted[i]);
    }
  }
}
