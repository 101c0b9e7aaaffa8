/**
The path modality over the whole store: strings are hashed to bucket ids, colliding strings
share a bucket. A batch write refines a plain map from strings to values, whatever the hash.
*/
module PathStore {
  import opened Store
  import opened PathLayout
  import opened PathBucket
  import opened Sorting

  // ---- Decoding a whole bucket ----

  function Piece(blob: Bytes, at: nat, length: nat): Bytes {
    if at + length <= |blob| then blob[at..at + length] else []
  }

  function MemberAt(blob: Bytes, n: nat, i: nat): Member
    requires COUNTER * (1 + 2 * n) <= |blob| && i < n
  {
    var keysAt := COUNTER + 2 * COUNTER * n;
    var valsAt := keysAt + CounterSum(blob, 1, n);
    Member(
      Piece(blob, keysAt + CounterSum(blob, 1, i), Counter(blob, 1 + i)),
      Piece(blob, valsAt + CounterSum(blob, 1 + n, i), Counter(blob, 1 + n + i)))
  }

  function Decode(blob: Bytes): seq<Member> {
    var n := GetBucketSize(blob);
    if COUNTER * (1 + 2 * n) <= |blob| then seq(n, i requires 0 <= i < n => MemberAt(blob, n, i)) else []
  }

  /** Decoding a bucket gives back its members, in order. */
  lemma {:induction false} DecodeBucket(blob: Bytes, ms: seq<Member>)
    requires IsBucket(blob, ms)
    ensures Decode(blob) == ms
  {
    hide Keys, Vals, Counter, CounterSum, Encode, ReadU32;
    SizeOfBucket(blob, ms);
    if ms != [] {
      var n := |ms|;
      SumsAreRegions(blob, ms, n);
      assert ms[..n] == ms;
      forall i | 0 <= i < n ensures MemberAt(blob, n, i) == ms[i] {
        SumsAreRegions(blob, ms, i);
        MemberInBlob(blob, ms, i);
      }
    }
  }

  // ---- Paths, buckets and the map they stand for ----

  type Hash = Bytes -> int

  datatype Path = Path(collection: int, name: Bytes)

  /** A value to upsert, or nothing to remove the path. */
  datatype Task = Task(path: Path, content: Option<Bytes>)

  function PlaceOf(hash: Hash, path: Path): Place {
    Place(path.collection, hash(path.name))
  }

  /** A read joins the blobs on one tape, where a missing one has no bytes. */
  function Fetched(pairs: Pairs, place: Place): Bytes {
    if place in pairs then pairs[place] else []
  }

  predicate Distinct(ms: seq<Member>) {
    forall i, j :: 0 <= i < j < |ms| ==> ms[i].key != ms[j].key
  }

  ghost predicate GoodBucket(hash: Hash, place: Place, ms: seq<Member>) {
    Distinct(ms) && forall i :: 0 <= i < |ms| ==> hash(ms[i].key) == place.key
  }

  /** Every blob is a bucket of distinct keys that hash to its own id. */
  ghost predicate ValidStore(hash: Hash, pairs: Pairs) {
    forall place :: place in pairs ==>
      IsBucket(pairs[place], Decode(pairs[place])) && GoodBucket(hash, place, Decode(pairs[place]))
  }

  function LookupPath(hash: Hash, pairs: Pairs, path: Path): Option<Bytes> {
    Lookup(Decode(Fetched(pairs, PlaceOf(hash, path))), path.name)
  }

  type PathMap = map<Path, Bytes>

  function MapLookup(m: PathMap, path: Path): Option<Bytes> {
    if path in m then Some(m[path]) else None
  }

  /** The store stands for the map. */
  ghost predicate Represents(hash: Hash, pairs: Pairs, m: PathMap) {
    ValidStore(hash, pairs) && forall path :: LookupPath(hash, pairs, path) == MapLookup(m, path)
  }

  function ApplyToMap(m: PathMap, tasks: seq<Task>): PathMap {
    if tasks == [] then m else
    var before, last := ApplyToMap(m, tasks[..|tasks| - 1]), tasks[|tasks| - 1];
    match last.content
    case Some(val) => before[last.path := val]
    case None => before - {last.path}
  }

  // ---- What a batch leaves in one bucket ----

  function UpdateMembers(ms: seq<Member>, task: Task): seq<Member> {
    match task.content
    case Some(val) => Upsert(ms, task.path.name, val)
    case None => Delete(ms, task.path.name)
  }

  function FinalMembers(hash: Hash, pairs: Pairs, place: Place, tasks: seq<Task>): seq<Member> {
    if tasks == [] then Decode(Fetched(pairs, place)) else
    var before, last := FinalMembers(hash, pairs, place, tasks[..|tasks| - 1]), tasks[|tasks| - 1];
    if PlaceOf(hash, last.path) == place then UpdateMembers(before, last) else before
  }

  /** All lengths stay below the 32-bit limit of the layout throughout the batch. */
  ghost predicate FitsBatch(hash: Hash, pairs: Pairs, tasks: seq<Task>) {
    forall place, j :: 0 <= j <= |tasks| ==> Fits(FinalMembers(hash, pairs, place, tasks[..j]))
  }

  /** A bucket with members is written, one that lost its last member is erased. */
  function UpdateView(view: Option<Bytes>, before: seq<Member>, after: seq<Member>): Option<Bytes> {
    if after == before then view
    else if after == [] then None
    else if Small(after) then Some(Encode(after)) else view
  }

  /** The tape of a read is allocated with its first byte: without one the views point nowhere. */
  predicate TapeHasBytes(hash: Hash, pairs: Pairs, tasks: seq<Task>) {
    exists i :: 0 <= i < |tasks| && Fetched(pairs, PlaceOf(hash, tasks[i].path)) != []
  }

  /** What is written for a bucket: an untouched view, empty or not, unless it points nowhere. */
  function FinalView(hash: Hash, pairs: Pairs, place: Place, tasks: seq<Task>, tape: bool): Option<Bytes> {
    if tasks == [] then (if tape then Some(Fetched(pairs, place)) else None) else
    var n := |tasks| - 1;
    UpdateView(FinalView(hash, pairs, place, tasks[..n], tape),
               FinalMembers(hash, pairs, place, tasks[..n]), FinalMembers(hash, pairs, place, tasks))
  }

  function Bytes0(view: Option<Bytes>): Bytes {
    if view.Some? then view.value else []
  }

  predicate Mentioned(hash: Hash, tasks: seq<Task>, place: Place) {
    exists i :: 0 <= i < |tasks| && PlaceOf(hash, tasks[i].path) == place
  }

  ghost predicate Written(hash: Hash, pairs: Pairs, tasks: seq<Task>, after: Pairs) {
    forall place :: Find(after, place) ==
      if Mentioned(hash, tasks, place) then FinalView(hash, pairs, place, tasks, TapeHasBytes(hash, pairs, tasks))
      else Find(pairs, place)
  }

  // ---- Members under one task ----

  lemma {:induction false} LastIndexUnique(ms: seq<Member>, key: Bytes, i: nat)
    requires Distinct(ms) && i < |ms| && ms[i].key == key
    ensures LastIndex(ms, key) == Some(i)
  {
    if ms[|ms| - 1].key != key {
      LastIndexUnique(ms[..|ms| - 1], key, i);
    }
  }

  lemma {:induction false} LastIndexNone(ms: seq<Member>, key: Bytes)
    ensures LastIndex(ms, key) == None <==> forall i :: 0 <= i < |ms| ==> ms[i].key != key
  {
    if ms != [] {
      LastIndexNone(ms[..|ms| - 1], key);
    }
  }

  /** Lookup means membership. */
  lemma {:induction false} LookupMeans(ms: seq<Member>, key: Bytes, val: Bytes)
    requires Distinct(ms)
    ensures Lookup(ms, key) == Some(val) <==> Member(key, val) in ms
  {
    if Member(key, val) in ms {
      var i :| 0 <= i < |ms| && ms[i] == Member(key, val);
      LastIndexUnique(ms, key, i);
    } else {
      LastIndexNone(ms, key);
    }
  }

  lemma {:induction false} RemoveAtMembers(ms: seq<Member>, i: nat)
    requires Distinct(ms) && i < |ms|
    ensures Distinct(RemoveAt(ms, i))
    ensures forall m :: m in RemoveAt(ms, i) <==> m in ms && m.key != ms[i].key
  {
    var after := RemoveAt(ms, i);
    assert forall j :: 0 <= j < |after| ==> after[j] == ms[if j < i then j else j + 1];
    forall m | m in ms && m.key != ms[i].key ensures m in after {
      var j :| 0 <= j < |ms| && ms[j] == m;
      assert after[if j < i then j else j - 1] == m;
    }
  }

  lemma {:induction false} DeleteMembers(ms: seq<Member>, key: Bytes)
    requires Distinct(ms)
    ensures Distinct(Delete(ms, key))
    ensures forall m :: m in Delete(ms, key) <==> m in ms && m.key != key
  {
    hide Distinct, LastIndex, RemoveAt;
    LastIndexNone(ms, key);
    match LastIndex(ms, key)
    case None =>
    case Some(i) => RemoveAtMembers(ms, i);
  }

  lemma {:induction false} UpdateIsGood(hash: Hash, place: Place, ms: seq<Member>, task: Task)
    requires GoodBucket(hash, place, ms)
    requires PlaceOf(hash, task.path) == place
    ensures GoodBucket(hash, place, UpdateMembers(ms, task))
    ensures forall name ::
      Lookup(UpdateMembers(ms, task), name) == if name == task.path.name then task.content else Lookup(ms, name)
  {
    var key, after := task.path.name, UpdateMembers(ms, task);
    DeleteMembers(ms, key);
    hide Delete, Lookup, LastIndex;
    assert Distinct(after) && forall m :: m in after ==> hash(m.key) == place.key by {
      assert forall m :: m in after ==> m in Delete(ms, key) || m.key == key;
      assert forall i :: 0 <= i < |Delete(ms, key)| ==> Delete(ms, key)[i] in Delete(ms, key);
    }
    assert forall i :: 0 <= i < |after| ==> after[i] in after;
    forall name ensures Lookup(after, name) == if name == key then task.content else Lookup(ms, name) {
      SameLookup(after, name, if name == key then task.content else Lookup(ms, name), ms, key, task.content);
    }
  }

  lemma {:induction false} SameLookup(after: seq<Member>, name: Bytes, wanted: Option<Bytes>,
                                      ms: seq<Member>, key: Bytes, content: Option<Bytes>)
    requires Distinct(after) && Distinct(ms)
    requires after == Delete(ms, key) + if content.Some? then [Member(key, content.value)] else []
    requires forall m :: m in Delete(ms, key) <==> m in ms && m.key != key
    requires wanted == if name == key then content else Lookup(ms, name)
    ensures Lookup(after, name) == wanted
  {
    hide Delete, LastIndex, Lookup, Distinct;
    if wanted.Some? {
      LookupMeans(after, name, wanted.value);
      LookupMeans(ms, name, wanted.value);
    }
    if Lookup(after, name).Some? {
      var val := Lookup(after, name).value;
      LookupMeans(after, name, val);
      LookupMeans(ms, name, val);
    }
  }

  // ---- A batch refines the map ----

  lemma {:induction false} FetchedIsGood(hash: Hash, pairs: Pairs, place: Place)
    requires ValidStore(hash, pairs)
    ensures IsBucket(Fetched(pairs, place), Decode(Fetched(pairs, place)))
    ensures GoodBucket(hash, place, Decode(Fetched(pairs, place)))
  {
    if place !in pairs {
      DecodeBucket([], []);
    }
  }

  /** One bucket agrees with the map on every path that hashes to it. */
  lemma {:induction false} BucketRefines(hash: Hash, pairs: Pairs, m: PathMap, tasks: seq<Task>, place: Place)
    requires Represents(hash, pairs, m)
    ensures GoodBucket(hash, place, FinalMembers(hash, pairs, place, tasks))
    ensures forall path :: PlaceOf(hash, path) == place ==>
      Lookup(FinalMembers(hash, pairs, place, tasks), path.name) == MapLookup(ApplyToMap(m, tasks), path)
  {
    hide Lookup, UpdateMembers, GoodBucket, Decode, ValidStore;
    if tasks == [] {
      FetchedIsGood(hash, pairs, place);
      forall path | PlaceOf(hash, path) == place
        ensures Lookup(FinalMembers(hash, pairs, place, tasks), path.name) == MapLookup(m, path)
      {
        assert LookupPath(hash, pairs, path) == MapLookup(m, path);
      }
    } else {
      var n := |tasks| - 1;
      BucketRefines(hash, pairs, m, tasks[..n], place);
      if PlaceOf(hash, tasks[n].path) == place {
        UpdateIsGood(hash, place, FinalMembers(hash, pairs, place, tasks[..n]), tasks[n]);
      }
    }
  }

  lemma {:induction false} ViewStep(view: Option<Bytes>, before: seq<Member>, after: seq<Member>)
    requires IsBucket(Bytes0(view), before)
    requires Fits(after)
    ensures IsBucket(Bytes0(UpdateView(view, before, after)), after)
  {
    hide Encode;
  }

  /** What is written for a bucket decodes to its members. */
  lemma {:induction false} ViewIsBucket(hash: Hash, pairs: Pairs, place: Place, tasks: seq<Task>, tape: bool)
    requires ValidStore(hash, pairs) && FitsBatch(hash, pairs, tasks)
    requires tape || Fetched(pairs, place) == []
    ensures IsBucket(Bytes0(FinalView(hash, pairs, place, tasks, tape)), FinalMembers(hash, pairs, place, tasks))
  {
    hide IsBucket, UpdateView, UpdateMembers, Decode, Fits;
    if tasks == [] {
      FetchedIsGood(hash, pairs, place);
    } else {
      var n := |tasks| - 1;
      FitsPrefix(hash, pairs, tasks, n);
      ViewIsBucket(hash, pairs, place, tasks[..n], tape);
      assert tasks[..n + 1] == tasks;
      ViewStep(FinalView(hash, pairs, place, tasks[..n], tape), FinalMembers(hash, pairs, place, tasks[..n]),
               FinalMembers(hash, pairs, place, tasks));
    }
  }

  lemma {:induction false} FitsPrefix(hash: Hash, pairs: Pairs, tasks: seq<Task>, n: nat)
    requires FitsBatch(hash, pairs, tasks) && n <= |tasks|
    ensures FitsBatch(hash, pairs, tasks[..n])
  {
    hide Fits, FinalMembers;
    forall place, j | 0 <= j <= n ensures Fits(FinalMembers(hash, pairs, place, tasks[..n][..j])) {
      assert tasks[..n][..j] == tasks[..j];
    }
  }

  lemma {:induction false} Unmentioned(hash: Hash, pairs: Pairs, place: Place, tasks: seq<Task>)
    requires !Mentioned(hash, tasks, place)
    ensures FinalMembers(hash, pairs, place, tasks) == Decode(Fetched(pairs, place))
  {
    hide Decode, UpdateMembers;
    if tasks != [] {
      var n := |tasks| - 1;
      assert PlaceOf(hash, tasks[n].path) != place;
      forall i | 0 <= i < n ensures PlaceOf(hash, tasks[..n][i].path) != place {
        assert PlaceOf(hash, tasks[i].path) != place;
      }
      Unmentioned(hash, pairs, place, tasks[..n]);
    }
  }

  lemma {:induction false} NothingTouched(hash: Hash, pairs: Pairs, tasks: seq<Task>, place: Place)
    requires Mentioned(hash, tasks, place)
    ensures TapeHasBytes(hash, pairs, tasks) || Fetched(pairs, place) == []
  {
  }

  /** Refinement: a written batch is its tasks applied one by one to the map, for every hash. */
  lemma {:induction false} WriteRefinesMap(hash: Hash, pairs: Pairs, m: PathMap, tasks: seq<Task>, after: Pairs)
    requires Represents(hash, pairs, m) && FitsBatch(hash, pairs, tasks)
    requires Written(hash, pairs, tasks, after)
    ensures Represents(hash, after, ApplyToMap(m, tasks))
  {
    hide IsBucket, Lookup, GoodBucket, Decode, FinalMembers, FinalView, FitsBatch, ApplyToMap, Mentioned, TapeHasBytes;
    var tape := TapeHasBytes(hash, pairs, tasks);
    forall place
      ensures IsBucket(Fetched(after, place), FinalMembers(hash, pairs, place, tasks))
      ensures Decode(Fetched(after, place)) == FinalMembers(hash, pairs, place, tasks)
      ensures GoodBucket(hash, place, FinalMembers(hash, pairs, place, tasks))
    {
      assert Find(after, place) ==
        if Mentioned(hash, tasks, place) then FinalView(hash, pairs, place, tasks, tape) else Find(pairs, place);
      if Mentioned(hash, tasks, place) {
        NothingTouched(hash, pairs, tasks, place);
        ViewIsBucket(hash, pairs, place, tasks, tape);
        assert Fetched(after, place) == Bytes0(FinalView(hash, pairs, place, tasks, tape));
      } else {
        Unmentioned(hash, pairs, place, tasks);
        FetchedIsGood(hash, pairs, place);
        assert Fetched(after, place) == Fetched(pairs, place);
      }
      DecodeBucket(Fetched(after, place), FinalMembers(hash, pairs, place, tasks));
      BucketRefines(hash, pairs, m, tasks, place);
    }
    forall place | place in after
      ensures IsBucket(after[place], Decode(after[place])) && GoodBucket(hash, place, Decode(after[place]))
    {
      assert Fetched(after, place) == after[place];
    }
    forall path ensures LookupPath(hash, after, path) == MapLookup(ApplyToMap(m, tasks), path) {
      assert Decode(Fetched(after, PlaceOf(hash, path))) == FinalMembers(hash, pairs, PlaceOf(hash, path), tasks);
      BucketRefines(hash, pairs, m, tasks, PlaceOf(hash, path));
    }
  }

  // ---- The batched write itself ----

  /** One task on the view of its bucket; every view owns its bytes. */
  method UpdateOne(view: Option<Bytes>, task: Task, ghost ms: seq<Member>) returns (view': Option<Bytes>)
    requires IsBucket(Bytes0(view), ms)
    requires Fits(UpdateMembers(ms, task))
    ensures view' == UpdateView(view, ms, UpdateMembers(ms, task))
  {
    hide Encode, LastIndex, RemoveAt, IsBucket, UpdateView, Fits;
    var key := task.path.name;
    match task.content
    case Some(val) =>
      var bytes := UpsertInBucket(Bytes0(view), key, val, ms);
      view' := Some(bytes);
      WrittenView(view, ms, Upsert(ms, key, val), bytes);
    case None =>
      view' := RemoveOne(view, key, ms);
  }

  /** A removal; a view is written back only when the key was found. */
  method RemoveOne(view: Option<Bytes>, key: Bytes, ghost ms: seq<Member>) returns (view': Option<Bytes>)
    requires IsBucket(Bytes0(view), ms)
    ensures view' == UpdateView(view, ms, Delete(ms, key))
  {
    hide Encode, LastIndex, RemoveAt, IsBucket, UpdateView;
    var blob := Bytes0(view);
    var found, _ := FindInBucket(blob, key, ms);
    if found.None? {
      SameView(view, ms);
      return view;
    }
    ShorterByOne(ms, found.value);
    var buffer := new byte[|blob|](i requires 0 <= i < |blob| => blob[i]);
    assert buffer[..] == blob && buffer[..|blob|] == blob;
    var size := RemoveFromBucket(buffer, |blob|, key, ms);
    view' := if size == 0 then None else Some(buffer[..size]);
    WrittenView(view, ms, Delete(ms, key), buffer[..size]);
  }

  lemma {:induction false} SameView(view: Option<Bytes>, ms: seq<Member>)
    ensures UpdateView(view, ms, ms) == view
  {
  }

  lemma {:induction false} WrittenView(view: Option<Bytes>, before: seq<Member>, after: seq<Member>, bytes: Bytes)
    requires IsBucket(Bytes0(view), before) && IsBucket(bytes, after)
    requires after != before || after != []
    ensures UpdateView(view, before, after) == if bytes == [] then None else Some(bytes)
    ensures bytes == [] <==> after == []
  {
    hide Encode;
  }

  lemma {:induction false} ShorterByOne(ms: seq<Member>, i: nat)
    requires i < |ms|
    ensures |RemoveAt(ms, i)| == |ms| - 1
  {
  }

  lemma {:induction false} ViewsStep(hash: Hash, pairs: Pairs, place: Place, tasks: seq<Task>, i: nat, tape: bool)
    requires i < |tasks|
    ensures FinalView(hash, pairs, place, tasks[..i + 1], tape) ==
      (if PlaceOf(hash, tasks[i].path) == place
       then UpdateView(FinalView(hash, pairs, place, tasks[..i], tape), FinalMembers(hash, pairs, place, tasks[..i]),
                       UpdateMembers(FinalMembers(hash, pairs, place, tasks[..i]), tasks[i]))
       else FinalView(hash, pairs, place, tasks[..i], tape))
    ensures PlaceOf(hash, tasks[i].path) == place ==>
      FinalMembers(hash, pairs, place, tasks[..i + 1]) ==
        UpdateMembers(FinalMembers(hash, pairs, place, tasks[..i]), tasks[i])
  {
    hide UpdateMembers, Decode;
    assert tasks[..i + 1][..i] == tasks[..i];
  }

  method PathsWrite(hash: Hash, pairs: Pairs, tasks: seq<Task>) returns (after: Pairs)
    requires ValidStore(hash, pairs) && FitsBatch(hash, pairs, tasks)
    ensures Written(hash, pairs, tasks, after)
  {
    hide FinalMembers, FinalView, UpdateView, UpdateMembers, Decode, Fits, IsBucket, Mentioned;
    var touched := seq(|tasks|, i requires 0 <= i < |tasks| => PlaceOf(hash, tasks[i].path));
    SortedAndDeduplicated(touched);
    var places := SortAndDeduplicate(touched);
    MentionedIs(hash, tasks, touched, places);
    var tape := exists k :: 0 <= k < |places| && Fetched(pairs, places[k]) != [];
    TapeIs(hash, pairs, tasks, touched, places);
    var views := seq(|places|, k requires 0 <= k < |places| => if tape then Some(Fetched(pairs, places[k])) else None);
    forall k | 0 <= k < |places| ensures views[k] == FinalView(hash, pairs, places[k], tasks[..0], tape) {
      NoTasksYet(hash, pairs, places[k], tasks[..0], tape);
    }
    for i := 0 to |tasks|
      invariant ViewsAre(hash, pairs, tasks[..i], places, views, tape)
    {
      assert touched[i] == PlaceOf(hash, tasks[i].path);
      views := ApplyTask(hash, pairs, tasks, i, places, views, tape);
    }
    assert tasks[..|tasks|] == tasks;
    after := WriteViews(pairs, places, views);
  }

  ghost predicate ViewsAre(hash: Hash, pairs: Pairs, tasks: seq<Task>, places: seq<Place>, views: seq<Option<Bytes>>, tape: bool) {
    && |views| == |places|
    && forall k :: 0 <= k < |places| ==> views[k] == FinalView(hash, pairs, places[k], tasks, tape)
  }

  /** One task updates the view of its own bucket and no other. */
  method ApplyTask(hash: Hash, pairs: Pairs, tasks: seq<Task>, i: nat, places: seq<Place>, views: seq<Option<Bytes>>, tape: bool)
    returns (views': seq<Option<Bytes>>)
    requires ValidStore(hash, pairs) && FitsBatch(hash, pairs, tasks)
    requires i < |tasks| && Ascending(places) && PlaceOf(hash, tasks[i].path) in places
    requires tape || forall k :: 0 <= k < |places| ==> Fetched(pairs, places[k]) == []
    requires ViewsAre(hash, pairs, tasks[..i], places, views, tape)
    ensures ViewsAre(hash, pairs, tasks[..i + 1], places, views', tape)
  {
    hide FinalMembers, FinalView, UpdateView, UpdateMembers, Decode, Fits, IsBucket;
    var k := OffsetInSorted(places, PlaceOf(hash, tasks[i].path));
    FitsPrefix(hash, pairs, tasks, i);
    ViewIsBucket(hash, pairs, places[k], tasks[..i], tape);
    ViewsStep(hash, pairs, places[k], tasks, i, tape);
    assert Fits(FinalMembers(hash, pairs, places[k], tasks[..i + 1]));
    var view := UpdateOne(views[k], tasks[i], FinalMembers(hash, pairs, places[k], tasks[..i]));
    views' := views[k := view];
    forall j | 0 <= j < |places| ensures views'[j] == FinalView(hash, pairs, places[j], tasks[..i + 1], tape) {
      ViewsStep(hash, pairs, places[j], tasks, i, tape);
      assert j != k ==> views'[j] == views[j] && places[j] != places[k];
    }
  }

  lemma {:induction false} MentionedIs(hash: Hash, tasks: seq<Task>, touched: seq<Place>, places: seq<Place>)
    requires |touched| == |tasks| && forall i :: 0 <= i < |tasks| ==> touched[i] == PlaceOf(hash, tasks[i].path)
    requires forall place :: place in places <==> place in touched
    ensures forall place :: Mentioned(hash, tasks, place) <==> place in places
  {
  }

  lemma {:induction false} TapeIs(hash: Hash, pairs: Pairs, tasks: seq<Task>, touched: seq<Place>, places: seq<Place>)
    requires |touched| == |tasks| && forall i :: 0 <= i < |tasks| ==> touched[i] == PlaceOf(hash, tasks[i].path)
    requires forall place :: place in places <==> place in touched
    ensures TapeHasBytes(hash, pairs, tasks) <==> exists k :: 0 <= k < |places| && Fetched(pairs, places[k]) != []
  {
    if TapeHasBytes(hash, pairs, tasks) {
      var i :| 0 <= i < |tasks| && Fetched(pairs, PlaceOf(hash, tasks[i].path)) != [];
      assert touched[i] in places;
    }
    if k :| 0 <= k < |places| && Fetched(pairs, places[k]) != [] {
      assert places[k] in touched;
    }
  }

  lemma {:induction false} NoTasksYet(hash: Hash, pairs: Pairs, place: Place, tasks: seq<Task>, tape: bool)
    requires tasks == []
    ensures FinalView(hash, pairs, place, tasks, tape) == if tape then Some(Fetched(pairs, place)) else None
  {
  }

  method WriteViews(pairs: Pairs, places: seq<Place>, views: seq<Option<Bytes>>) returns (after: Pairs)
    requires |places| == |views| && Ascending(places)
    ensures forall k :: 0 <= k < |places| ==> Find(after, places[k]) == views[k]
    ensures forall place :: place !in places ==> Find(after, place) == Find(pairs, place)
  {
    after := pairs;
    for i := 0 to |places|
      invariant forall k :: 0 <= k < i ==> Find(after, places[k]) == views[k]
      invariant forall place :: place !in places[..i] ==> Find(after, place) == Find(pairs, place)
    {
      ghost var before := after;
      after := Put(after, places[i], views[i]);
      assert forall place :: place != places[i] ==> Find(after, place) == Find(before, place);
      assert places[..i + 1] == places[..i] + [places[i]];
    }
    assert places[..|places|] == places;
  }

  // ---- Emptied buckets ----

  /** The bucket had a member before, during or after the batch. */
  ghost predicate Lived(hash: Hash, pairs: Pairs, place: Place, tasks: seq<Task>) {
    exists j :: 0 <= j <= |tasks| && FinalMembers(hash, pairs, place, tasks[..j]) != []
  }

  lemma {:induction false} LivedStep(hash: Hash, pairs: Pairs, place: Place, tasks: seq<Task>)
    requires tasks != []
    ensures Lived(hash, pairs, place, tasks) <==>
      Lived(hash, pairs, place, tasks[..|tasks| - 1]) || FinalMembers(hash, pairs, place, tasks) != []
  {
    hide FinalMembers;
    var n := |tasks| - 1;
    var before := tasks[..n];
    assert tasks[..n + 1] == tasks;
    if Lived(hash, pairs, place, before) {
      var j :| 0 <= j <= n && FinalMembers(hash, pairs, place, before[..j]) != [];
      assert tasks[..j] == before[..j];
    }
    if Lived(hash, pairs, place, tasks) && FinalMembers(hash, pairs, place, tasks) == [] {
      var j :| 0 <= j <= n + 1 && FinalMembers(hash, pairs, place, tasks[..j]) != [];
      assert tasks[..j] == before[..j];
    }
  }

  /**
  A bucket left without members is erased exactly when it had one at some point of the batch, or
  when no bucket of the batch has any stored bytes. Otherwise an empty blob is written for it.
  */
  lemma {:induction false} EmptiedBucketDisappears(
    hash: Hash, pairs: Pairs, place: Place, tasks: seq<Task>, after: Pairs)
    requires FitsBatch(hash, pairs, tasks) && Written(hash, pairs, tasks, after) && Mentioned(hash, tasks, place)
    ensures place !in after <==>
      && FinalMembers(hash, pairs, place, tasks) == []
      && (Lived(hash, pairs, place, tasks) || !TapeHasBytes(hash, pairs, tasks))
    ensures FinalMembers(hash, pairs, place, tasks) == [] && !Lived(hash, pairs, place, tasks) && place in after ==>
      after[place] == Fetched(pairs, place)
  {
    hide FinalView, FinalMembers, TapeHasBytes, Mentioned, Lived;
    NothingTouched(hash, pairs, tasks, place);
    EmptiedView(hash, pairs, place, tasks, TapeHasBytes(hash, pairs, tasks));
    assert Find(after, place) == FinalView(hash, pairs, place, tasks, TapeHasBytes(hash, pairs, tasks));
  }

  lemma {:induction false} EmptiedView(hash: Hash, pairs: Pairs, place: Place, tasks: seq<Task>, tape: bool)
    requires FitsBatch(hash, pairs, tasks) && (tape || Fetched(pairs, place) == [])
    ensures FinalView(hash, pairs, place, tasks, tape) == None <==>
      FinalMembers(hash, pairs, place, tasks) == [] && (Lived(hash, pairs, place, tasks) || !tape)
    ensures !Lived(hash, pairs, place, tasks) ==>
      FinalView(hash, pairs, place, tasks, tape) == if tape then Some(Fetched(pairs, place)) else None
  {
    hide UpdateMembers, Decode, Encode, Lived, FinalMembers;
    if tasks == [] {
      LivedAtOnce(hash, pairs, place, tasks);
      if !tape {
        NothingFetched(hash, pairs, place);
      }
    } else {
      var n := |tasks| - 1;
      FitsPrefix(hash, pairs, tasks, n);
      EmptiedView(hash, pairs, place, tasks[..n], tape);
      LivedStep(hash, pairs, place, tasks);
      if FinalMembers(hash, pairs, place, tasks[..n]) != [] {
        LivedNow(hash, pairs, place, tasks[..n]);
      }
      assert tasks[..n + 1] == tasks;
      assert Fits(FinalMembers(hash, pairs, place, tasks[..n + 1]));
    }
  }

  lemma {:induction false} NothingFetched(hash: Hash, pairs: Pairs, place: Place)
    requires Fetched(pairs, place) == []
    ensures FinalMembers(hash, pairs, place, []) == []
  {
    DecodeBucket([], []);
  }

  lemma {:induction false} LivedAtOnce(hash: Hash, pairs: Pairs, place: Place, tasks: seq<Task>)
    requires tasks == []
    ensures Lived(hash, pairs, place, tasks) <==> FinalMembers(hash, pairs, place, tasks) != []
  {
    assert tasks[..0] == tasks;
  }

  lemma {:induction false} LivedNow(hash: Hash, pairs: Pairs, place: Place, tasks: seq<Task>)
    requires FinalMembers(hash, pairs, place, tasks) != []
    ensures Lived(hash, pairs, place, tasks)
  {
    assert tasks[..|tasks|] == tasks;
  }

  /** Removing one path whose bucket has no bytes erases the bucket, even one stored as an empty blob. */
  lemma {:induction false} LoneRemovalErases(hash: Hash, pairs: Pairs, path: Path, after: Pairs)
    requires Fetched(pairs, PlaceOf(hash, path)) == [] && Written(hash, pairs, [Task(path, None)], after)
    ensures PlaceOf(hash, path) !in after
  {
    var place, tasks := PlaceOf(hash, path), [Task(path, None)];
    assert tasks[0].path == path && tasks[..0] == [];
    assert Mentioned(hash, tasks, place) && !TapeHasBytes(hash, pairs, tasks);
    NothingFetched(hash, pairs, place);
    assert FinalMembers(hash, pairs, place, tasks) == [];
    assert Find(after, place) == FinalView(hash, pairs, place, tasks, false) == None;
  }

  /** Beside a bucket that has bytes, the same removal leaves an empty blob where there was none. */
  lemma {:induction false} RemovalBesideBytesCreates(hash: Hash, pairs: Pairs, path: Path, other: Path, after: Pairs)
    requires PlaceOf(hash, path) !in pairs && Fetched(pairs, PlaceOf(hash, other)) != []
    requires Written(hash, pairs, [Task(path, None), Task(other, None)], after)
    ensures PlaceOf(hash, path) in after && after[PlaceOf(hash, path)] == []
  {
    hide Decode;
    var place, tasks := PlaceOf(hash, path), [Task(path, None), Task(other, None)];
    assert tasks[0].path == path && tasks[1].path == other;
    assert tasks[..1] == [tasks[0]] && tasks[..1][..0] == [];
    assert Mentioned(hash, tasks, place) && TapeHasBytes(hash, pairs, tasks);
    NothingFetched(hash, pairs, place);
    assert FinalMembers(hash, pairs, place, tasks[..1]) == FinalMembers(hash, pairs, place, []) == [];
    assert FinalMembers(hash, pairs, place, tasks) == [];
    assert FinalView(hash, pairs, place, tasks[..1], true) == FinalView(hash, pairs, place, [], true) == Some([]);
    assert Find(after, place) == FinalView(hash, pairs, place, tasks, true);
  }

  // ---- Whole runs ----

  ghost predicate Runs(hash: Hash, batches: seq<seq<Task>>, states: seq<Pairs>) {
    && |states| == |batches| + 1 && states[0] == map[]
    && forall i :: 0 <= i < |batches| ==>
         FitsBatch(hash, states[i], batches[i]) && Written(hash, states[i], batches[i], states[i + 1])
  }

  function RunOnMap(batches: seq<seq<Task>>): PathMap {
    if batches == [] then map[] else ApplyToMap(RunOnMap(batches[..|batches| - 1]), batches[|batches| - 1])
  }

  lemma {:induction false} RunsRefineMap(hash: Hash, batches: seq<seq<Task>>, states: seq<Pairs>)
    requires Runs(hash, batches, states)
    ensures Represents(hash, states[|batches|], RunOnMap(batches))
  {
    hide FitsBatch, Written, ApplyToMap;
    if batches == [] {
      DecodeBucket([], []);
    } else {
      var n := |batches| - 1;
      RunsRefineMap(hash, batches[..n], states[..n + 1]);
      assert batches == batches[..n] + [batches[n]];
      WriteRefinesMap(hash, states[n], RunOnMap(batches[..n]), batches[n], states[n + 1]);
    }
  }
}
