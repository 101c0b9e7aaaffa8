/**
Batches of document reads and modifications (`src/modality_docs.cpp`). A batch is read once,
over its distinct places in ascending order, and joined back to the tasks by binary search; a
modifying batch writes only after every document was modified.

Parsing, printing and extracting a field belong to foreign libraries and are parameters.
*/
module DocBatch {
  import opened Store
  import opened Sorting
  import opened Numbers
  import opened Documents
  import opened DocPatch
  import opened Conformance

  datatype Task = Task(place: Place, field: Option<string>)

  function PlacesOf(tasks: seq<Task>): (places: seq<Place>)
    ensures |places| == |tasks| && forall i :: 0 <= i < |tasks| ==> places[i] == tasks[i].place
  {
    seq(|tasks|, i requires 0 <= i < |tasks| => tasks[i].place)
  }

  /** The extracted field of a document, or an error. */
  type Extract = (Option<string>, Bytes) -> Option<Bytes>

  /** A missing document gives empty bytes whatever the field is. */
  function Exported(extract: Extract, field: Option<string>, found: Option<Bytes>): Option<Bytes> {
    var bytes := if found.Some? then found.value else [];
    if bytes == [] then Some([]) else extract(field, bytes)
  }

  // ---- Reading ----

  /** What a read of this one task alone gives. */
  function Lone(pairs: Pairs, extract: Extract, task: Task): Option<Bytes> {
    Exported(extract, task.field, Find(pairs, task.place))
  }

  /** Only the keys are compared; ascending keys make the places distinct in any collections. */
  method AllAscending(places: seq<Place>) returns (ascending: bool)
    requires places != []
    ensures ascending <==> forall i :: 0 < i < |places| ==> places[i - 1].key < places[i].key
  {
    for i := 1 to |places|
      invariant forall j :: 0 < j < i ==> places[j - 1].key < places[j].key
    {
      if places[i].key <= places[i - 1].key {
        return false;
      }
    }
    return true;
  }

  /** The documents of distinct places, in the order of the tasks. */
  method ReadUnique(pairs: Pairs, extract: Extract, tasks: seq<Task>) returns (exported: seq<Option<Bytes>>)
    ensures |exported| == |tasks| && forall i :: 0 <= i < |tasks| ==> exported[i] == Lone(pairs, extract, tasks[i])
  {
    var found := FindAll(pairs, PlacesOf(tasks));
    var allMissing := forall i :: 0 <= i < |found| ==> found[i].None?;
    exported := [];
    for i := 0 to |tasks|
      invariant |exported| == i && forall j :: 0 <= j < i ==> exported[j] == Lone(pairs, extract, tasks[j])
    {
      exported := exported + [Exported(extract, if allMissing then None else tasks[i].field, found[i])];
    }
  }

  /** Any order and any repetition of keys gives each task what a lone read would give. */
  method ReadDocs(pairs: Pairs, extract: Extract, tasks: seq<Task>) returns (exported: seq<Option<Bytes>>)
    requires tasks != []
    ensures |exported| == |tasks| && forall i :: 0 <= i < |tasks| ==> exported[i] == Lone(pairs, extract, tasks[i])
    ensures forall i :: 0 <= i < |tasks| ==>
      exported[i] ==
        if tasks[i].place !in pairs || pairs[tasks[i].place] == [] then Some([])
        else extract(tasks[i].field, pairs[tasks[i].place])
  {
    var places := PlacesOf(tasks);
    var ascending := AllAscending(places);
    if ascending {
      exported := ReadUnique(pairs, extract, tasks);
      return;
    }
    var unique := SortAndDeduplicate(places);
    if |unique| == |places| {
      exported := ReadUnique(pairs, extract, tasks);
      return;
    }
    SortedAndDeduplicated(places);
    var found := FindAll(pairs, unique);
    exported := [];
    for i := 0 to |tasks|
      invariant |exported| == i && forall j :: 0 <= j < i ==> exported[j] == Lone(pairs, extract, tasks[j])
    {
      assert places[i] in unique;
      var parsed := OffsetInSorted(unique, places[i]);
      exported := exported + [Exported(extract, tasks[i].field, found[parsed])];
    }
  }

  // ---- Modifying ----

  datatype DocMode = InsertDoc | UpdateDoc | UpsertDoc | PatchDoc

  /** Reading and printing documents, and reading the operations of a patch. */
  datatype Codec = Codec(parse: Bytes -> Option<Doc>, dump: Doc -> Bytes, ops: Doc -> Option<seq<Op>>)

  function ModeOf(mode: DocMode): Mode {
    match mode
    case InsertDoc => Insert
    case UpdateDoc => Update
    case UpsertDoc => Upsert
    case PatchDoc => Insert
  }

  predicate DefinedFor(codec: Codec, field: Option<string>, content: Doc) {
    codec.ops(content).Some? ==> forall i :: 0 <= i < |codec.ops(content).value| ==> Defined(field, codec.ops(content).value[i])
  }

  /** A missing document becomes the modifier itself; without a field the modifier replaces the root. */
  function Modified(codec: Codec, doc: Option<Doc>, content: Doc, field: Option<string>, mode: DocMode): Option<Doc>
    requires DefinedFor(codec, field, content)
  {
    if doc.None? then Some(content)
    else if mode == PatchDoc then
      if codec.ops(content).None? then None else
        var r := Patched(doc, field, codec.ops(content).value);
        if r.Failed? then None else r.root
    else if field.Some? then ModifiedField(doc.value, content, field.value, ModeOf(mode))
    else Some(content)
  }

  /** Whether the stored bytes are looked at; otherwise only whether there are any. */
  predicate NeedsValues(mode: DocMode, hasFields: bool) {
    hasFields || mode == PatchDoc
  }

  /** A missing modifier keeps the document, which then has to be there; an empty one is not a document. */
  predicate Callable(
    codec: Codec, found: Option<Bytes>, content: Option<Bytes>, field: Option<string>, mode: DocMode, needed: bool)
  {
    if content.None? then needed && found.Some? && found.value != []
    else content.value != [] && (codec.parse(content.value).Some? ==>
      DefinedFor(codec, field, codec.parse(content.value).value))
  }

  /** One document of the batch: its bytes after the modification, or an error. */
  function Rewritten(
    codec: Codec, found: Option<Bytes>, content: Option<Bytes>, field: Option<string>, mode: DocMode, needed: bool):
    Option<Bytes>
    requires Callable(codec, found, content, field, mode, needed)
  {
    if !needed && mode == InsertDoc && found.Some? then None else
      var bytes := if needed && found.Some? then found.value else [];
      var doc := if bytes == [] then None else codec.parse(bytes);
      if bytes != [] && doc.None? then None
      else if content.None? then Some(codec.dump(doc.value))
      else
        var modifier := codec.parse(content.value);
        if modifier.None? then None else
          var r := Modified(codec, doc, modifier.value, field, mode);
          if r.None? then None else Some(codec.dump(r.value))
  }

  // ---- What one modification means ----

  /** Every document reads back from its own print. */
  ghost predicate Lossless(codec: Codec) {
    forall doc :: codec.parse(codec.dump(doc)) == Some(doc)
  }

  /** The stored bytes do not matter: they are not looked at, or there are none. */
  predicate Unread(found: Option<Bytes>, needed: bool) {
    !needed || found.None? || found.value == []
  }

  /** A modification of a document that is there fails. */
  predicate Refused(codec: Codec, doc: Doc, content: Doc, field: Option<string>, mode: DocMode)
    requires DefinedFor(codec, field, content)
  {
    match mode
    case InsertDoc => field.Some? && Fails(doc, field.value, Insert)
    case UpdateDoc => field.Some? && Fails(doc, field.value, Update)
    case UpsertDoc => field.Some? && Fails(doc, field.value, Upsert)
    case PatchDoc =>
      var ops := codec.ops(content);
      ops.None? || (var r := Patched(Some(doc), field, ops.value); r.Failed? || r.root.None?)
  }

  /** A task fails on bytes that are no document, on a plain insert over a stored key, or when it is refused. */
  predicate Rejected(
    codec: Codec, found: Option<Bytes>, content: Option<Bytes>, field: Option<string>, mode: DocMode, needed: bool)
    requires Callable(codec, found, content, field, mode, needed)
  {
    || (!needed && mode == InsertDoc && found.Some?)
    || (!Unread(found, needed) && codec.parse(found.value).None?)
    || (content.Some? && codec.parse(content.value).None?)
    || (content.Some? && !Unread(found, needed)
        && Refused(codec, codec.parse(found.value).value, codec.parse(content.value).value, field, mode))
  }

  /** The parent of a field and the token below it. */
  ghost predicate Names(doc: Doc, field: string, path: seq<string>, parent: Doc, key: string) {
    var pos := LastSlash(field);
    pos >= 0 && ParentPath(doc, field, pos) == Some(path) && Resolve(doc, path) == Some(parent) && key == field[pos + 1..]
  }

  /** After an upsert or update: the field is the content wherever its token lands, and all else is as before. */
  ghost predicate IsPut(doc: Doc, after: Doc, field: string, content: Doc) {
    forall path, parent, key :: Names(doc, field, path, parent, key) && Short(parent) ==>
      && Resolve(after, path + [key]) == (if Lands(parent, key) then Some(content) else None)
      && (Lands(parent, key) ==> forall other :: Unrelated(path + [key], other) ==> Resolve(after, other) == Resolve(doc, other))
      && (IsPointer(field) && '~' !in key ==> LookUp(after, field) == if Lands(parent, key) then Some(content) else None)
  }

  /** After an insert: a new member is found and hides none, an element stands at its index or at the end. */
  ghost predicate IsInserted(doc: Doc, after: Doc, field: string, content: Doc) {
    forall path, parent, key :: Names(doc, field, path, parent, key) ==>
      match parent
      case Obj(members) =>
        && (forall u :: Resolve(after, path + [u]) ==
             if u == key && Named(members, key).None? then Some(content) else Named(members, u))
        && (IsPointer(field) && '~' !in key && Named(members, key).None? ==> LookUp(after, field) == Some(content))
      case Arr(items) =>
        var k := if AllDigits(key, 10) then FromChars(key) else |items|;
        k <= |items| && Resolve(after, path) == Some(Arr(items[..k] + [content] + items[k..]))
      case Scalar(_) => after == doc
  }

  /** A patch at the root whose operations meet their conditions gives what RFC 6902 asks for. */
  ghost predicate IsPatched(codec: Codec, doc: Doc, after: Doc, content: Doc, field: Option<string>)
    requires DefinedFor(codec, field, content)
  {
    var ops := codec.ops(content);
    && ops.Some? && Patched(Some(doc), field, ops.value) == Done(Some(after))
    && (field.None? && AllAgree(doc, ops.value) ==> RfcPatched(doc, ops.value) == Done(Some(after)))
  }

  /** What the stored document has become. */
  ghost predicate Became(
    codec: Codec, found: Option<Bytes>, after: Doc, content: Option<Bytes>, field: Option<string>, mode: DocMode, needed: bool)
    requires Callable(codec, found, content, field, mode, needed)
  {
    if content.None? then codec.parse(found.value) == Some(after)
    else
      && codec.parse(content.value).Some?
      && var c := codec.parse(content.value).value;
      if Unread(found, needed) then after == c
      else
        && codec.parse(found.value).Some?
        && var doc := codec.parse(found.value).value;
        if mode == PatchDoc then IsPatched(codec, doc, after, c, field)
        else if field.None? then after == c
        else if mode == InsertDoc then IsInserted(doc, after, field.value, c)
        else IsPut(doc, after, field.value, c)
  }

  lemma {:induction false} NamesModified(doc: Doc, content: Doc, field: string, mode: Mode, path: seq<string>, parent: Doc, key: string)
    requires Names(doc, field, path, parent, key) && ModifiedField(doc, content, field, mode).Some?
    ensures var edited := Edited(parent, key, content, mode);
      edited.Some? && ModifiedField(doc, content, field, mode) == Some(WithValue(doc, path, edited.value))
  {
    hide Edited, Resolve, WithValue, ParsePointer;
  }

  /** The last token of a pointer that has no tilde is the last name of its path. */
  lemma {:induction false} PointerNames(doc: Doc, after: Doc, field: string, path: seq<string>, parent: Doc, key: string)
    requires Names(doc, field, path, parent, key) && IsPointer(field) && '~' !in key
    ensures LookUp(after, field) == Resolve(after, path + [key])
  {
    hide Resolve, Tokens, UnescapeAll, Unescape;
    PointerSplits(field);
    UnescapeChanges(key);
  }

  lemma {:induction false} PutMeans(doc: Doc, content: Doc, field: string, mode: Mode)
    requires mode == Update || mode == Upsert
    requires ModifiedField(doc, content, field, mode).Some?
    ensures IsPut(doc, ModifiedField(doc, content, field, mode).value, field, content)
  {
    hide Edited, Child, Lands, ModifiedField, Resolve, WithValue, Names, Short, LookUp;
    var after := ModifiedField(doc, content, field, mode).value;
    forall path, parent, key | Names(doc, field, path, parent, key) && Short(parent)
      ensures Resolve(after, path + [key]) == (if Lands(parent, key) then Some(content) else None)
      ensures Lands(parent, key) ==> forall other :: Unrelated(path + [key], other) ==> Resolve(after, other) == Resolve(doc, other)
      ensures IsPointer(field) && '~' !in key ==> LookUp(after, field) == if Lands(parent, key) then Some(content) else None
    {
      NamesModified(doc, content, field, mode, path, parent, key);
      NamesResolve(doc, field, path, parent, key);
      if mode == Update {
        UpdateIsUpsert(parent, key, content);
      }
      PutAtMeans(doc, path, parent, key, content);
      if IsPointer(field) && '~' !in key {
        PointerNames(doc, after, field, path, parent, key);
      }
    }
  }

  lemma {:induction false} NamesResolve(doc: Doc, field: string, path: seq<string>, parent: Doc, key: string)
    requires Names(doc, field, path, parent, key)
    ensures Resolve(doc, path) == Some(parent)
  {
  }

  lemma {:induction false} PutAtMeans(doc: Doc, path: seq<string>, parent: Doc, key: string, content: Doc)
    requires Resolve(doc, path) == Some(parent) && Short(parent) && Edited(parent, key, content, Upsert).Some?
    ensures var after := WithValue(doc, path, Edited(parent, key, content, Upsert).value);
      && Resolve(after, path + [key]) == (if Lands(parent, key) then Some(content) else None)
      && (Lands(parent, key) ==> forall other :: Unrelated(path + [key], other) ==> Resolve(after, other) == Resolve(doc, other))
  {
    hide Edited, Child, Lands, Resolve, WithValue, Short, Unrelated;
    var edited := Edited(parent, key, content, Upsert).value;
    ResolveBelow(doc, path, edited, [key]);
    OneStep(edited, key);
    if Lands(parent, key) {
      UpsertedChild(parent, key, content, key);
      forall other | Unrelated(path + [key], other)
        ensures Resolve(WithValue(doc, path, edited), other) == Resolve(doc, other)
      {
        PutFrame(doc, path, key, content, other);
      }
    } else {
      MissedChild(parent, key, content);
    }
  }

  lemma {:induction false} InsertMeans(doc: Doc, content: Doc, field: string)
    requires ModifiedField(doc, content, field, Insert).Some?
    ensures IsInserted(doc, ModifiedField(doc, content, field, Insert).value, field, content)
  {
    hide Edited, Child, ModifiedField, Resolve, WithValue, Names, LookUp, FromChars, AllDigits, Named;
    var after := ModifiedField(doc, content, field, Insert).value;
    forall path, parent, key | Names(doc, field, path, parent, key)
      ensures match parent
        case Obj(members) =>
          && (forall u :: Resolve(after, path + [u]) ==
               if u == key && Named(members, key).None? then Some(content) else Named(members, u))
          && (IsPointer(field) && '~' !in key && Named(members, key).None? ==> LookUp(after, field) == Some(content))
        case Arr(items) =>
          var k := if AllDigits(key, 10) then FromChars(key) else |items|;
          k <= |items| && Resolve(after, path) == Some(Arr(items[..k] + [content] + items[k..]))
        case Scalar(_) => after == doc
    {
      NamesModified(doc, content, field, Insert, path, parent, key);
      NamesResolve(doc, field, path, parent, key);
      var edited := Edited(parent, key, content, Insert).value;
      match parent {
        case Obj(members) =>
          forall u ensures Resolve(after, path + [u]) ==
            if u == key && Named(members, key).None? then Some(content) else Named(members, u)
          {
            ResolveBelow(doc, path, edited, [u]);
            OneStep(edited, u);
            InsertedNamed(members, key, content, u);
          }
          if IsPointer(field) && '~' !in key {
            PointerNames(doc, after, field, path, parent, key);
          }
        case Arr(items) =>
          InsertedElement(items, key, content);
          ResolveBelow(doc, path, edited, []);
          assert path + [] == path;
          ResolvedHere(edited, []);
        case Scalar(_) =>
          ScalarStays(doc, path, parent, key, content);
      }
    }
  }

  lemma {:induction false} InsertedNamed(members: seq<Member>, key: string, content: Doc, u: string)
    ensures var r := Edited(Obj(members), key, content, Insert);
      r.Some? && Child(r.value, u) == if u == key && Named(members, key).None? then Some(content) else Named(members, u)
  {
    InsertedChild(members, key, content, u);
  }

  lemma {:induction false} InsertedElement(items: seq<Doc>, key: string, content: Doc)
    requires Edited(Arr(items), key, content, Insert).Some?
    ensures var k := if AllDigits(key, 10) then FromChars(key) else |items|;
      k <= |items| && Edited(Arr(items), key, content, Insert) == Some(Arr(items[..k] + [content] + items[k..]))
  {
    hide AllDigits, FromChars;
    assert items[..|items|] + [content] + items[|items|..] == items + [content];
  }

  lemma {:induction false} ScalarStays(doc: Doc, path: seq<string>, parent: Doc, key: string, content: Doc)
    requires Resolve(doc, path) == Some(parent) && parent.Scalar?
    ensures Edited(parent, key, content, Insert) == Some(parent) && WithValue(doc, path, parent) == doc
  {
    SameValue(doc, path);
  }

  lemma {:induction false} SameValue(doc: Doc, path: seq<string>)
    requires Resolve(doc, path).Some?
    ensures WithValue(doc, path, Resolve(doc, path).value) == doc
    decreases |path|
  {
    if path != [] {
      var child := Child(doc, path[0]).value;
      SameValue(child, path[1..]);
      SameChild(doc, path[0]);
    }
  }

  lemma {:induction false} SameChild(doc: Doc, t: string)
    requires Child(doc, t).Some?
    ensures WithChild(doc, t, Child(doc, t).value) == doc
  {
  }

  lemma {:induction false} RefusedIsNone(codec: Codec, doc: Doc, content: Doc, field: Option<string>, mode: DocMode)
    requires DefinedFor(codec, field, content)
    ensures Modified(codec, Some(doc), content, field, mode).None? <==> Refused(codec, doc, content, field, mode)
  {
    hide ModifiedField, Fails, Patched, Defined;
    if field.Some? && mode != PatchDoc {
      FieldFails(doc, content, field.value, ModeOf(mode));
    }
  }

  lemma {:induction false} FieldFails(doc: Doc, content: Doc, field: string, mode: Mode)
    ensures ModifiedField(doc, content, field, mode).None? <==> Fails(doc, field, mode)
  {
    if field != "" {
      FailsIsNone(doc, content, field, mode);
    }
  }

  lemma {:induction false} ModifiedMeans(codec: Codec, doc: Doc, content: Doc, field: Option<string>, mode: DocMode)
    requires DefinedFor(codec, field, content) && Modified(codec, Some(doc), content, field, mode).Some?
    ensures var after := Modified(codec, Some(doc), content, field, mode).value;
      if mode == PatchDoc then IsPatched(codec, doc, after, content, field)
      else if field.None? then after == content
      else if mode == InsertDoc then IsInserted(doc, after, field.value, content)
      else IsPut(doc, after, field.value, content)
  {
    hide ModifiedField, IsInserted, IsPut, Patched, RfcPatched, AllAgree, Defined;
    if mode == PatchDoc {
      var ops := codec.ops(content).value;
      if field.None? && AllAgree(doc, ops) {
        PatchAgrees(doc, ops);
      }
    } else if field.Some? {
      if mode == InsertDoc {
        InsertMeans(doc, content, field.value);
      } else {
        PutMeans(doc, content, field.value, ModeOf(mode));
      }
    }
  }

  /** One task fails exactly when it is rejected, and otherwise its document has become what it should. */
  lemma {:induction false} RewrittenMeans(
    codec: Codec, found: Option<Bytes>, content: Option<Bytes>, field: Option<string>, mode: DocMode, needed: bool)
    requires Callable(codec, found, content, field, mode, needed)
    ensures var r := Rewritten(codec, found, content, field, mode, needed);
      && (r.None? <==> Rejected(codec, found, content, field, mode, needed))
      && (Lossless(codec) && r.Some? ==>
            codec.parse(r.value).Some? && Became(codec, found, codec.parse(r.value).value, content, field, mode, needed))
  {
    hide Modified, Refused, IsPut, IsInserted, IsPatched, DefinedFor;
    if content.Some? && codec.parse(content.value).Some? && !Unread(found, needed) && codec.parse(found.value).Some? {
      var doc, c := codec.parse(found.value).value, codec.parse(content.value).value;
      RefusedIsNone(codec, doc, c, field, mode);
      if Modified(codec, Some(doc), c, field, mode).Some? {
        ModifiedMeans(codec, doc, c, field, mode);
      }
    }
    if content.Some? && codec.parse(content.value).Some? && Unread(found, needed) {
      NewIsContent(codec, codec.parse(content.value).value, field, mode);
    }
  }

  lemma {:induction false} NewIsContent(codec: Codec, content: Doc, field: Option<string>, mode: DocMode)
    requires DefinedFor(codec, field, content)
    ensures Modified(codec, None, content, field, mode) == Some(content)
  {
  }

  /** With repeated keys the stored bytes are always looked at, and an insert is not refused. */
  ghost predicate Needed(tasks: seq<Task>, mode: DocMode, hasFields: bool) {
    NeedsValues(mode, hasFields) || !DistinctPlaces(PlacesOf(tasks))
  }

  ghost predicate AllCallable(
    codec: Codec, pairs: Pairs, tasks: seq<Task>, contents: seq<Option<Bytes>>, mode: DocMode, hasFields: bool)
  {
    |contents| == |tasks| && forall i :: 0 <= i < |tasks| ==>
      Callable(codec, Find(pairs, tasks[i].place), contents[i], tasks[i].field, mode, Needed(tasks, mode, hasFields))
  }

  /** The result of each task, from the stored documents. */
  ghost function Results(
    codec: Codec, pairs: Pairs, tasks: seq<Task>, contents: seq<Option<Bytes>>, mode: DocMode, hasFields: bool):
    (results: seq<Option<Bytes>>)
    requires AllCallable(codec, pairs, tasks, contents, mode, hasFields)
    ensures |results| == |tasks|
  {
    seq(|tasks|, i requires 0 <= i < |tasks| =>
      Rewritten(codec, Find(pairs, tasks[i].place), contents[i], tasks[i].field, mode, Needed(tasks, mode, hasFields)))
  }

  /** The places that are written, in order: those of the tasks, or without repetitions, sorted. */
  ghost function WrittenPlaces(tasks: seq<Task>): seq<Place> {
    if DistinctPlaces(PlacesOf(tasks)) then PlacesOf(tasks) else SortAndDeduplicate(PlacesOf(tasks))
  }

  lemma {:induction false} WrittenPlacesAre(tasks: seq<Task>)
    ensures DistinctPlaces(WrittenPlaces(tasks)) && |WrittenPlaces(tasks)| <= |tasks|
    ensures forall place :: place in WrittenPlaces(tasks) <==> place in PlacesOf(tasks)
  {
    var places := PlacesOf(tasks);
    DeduplicatedSize(places);
    SortedAndDeduplicated(places);
    AscendingIsDistinct(SortAndDeduplicate(places));
  }

  lemma {:induction false} AscendingKeys(places: seq<Place>)
    requires forall i :: 0 < i < |places| ==> places[i - 1].key < places[i].key
    ensures DistinctPlaces(places)
  {
    forall i, j | 0 <= i < j < |places| ensures places[i] != places[j] {
      KeysGrow(places, i, j);
    }
  }

  lemma {:induction false} KeysGrow(places: seq<Place>, i: nat, j: nat)
    requires forall i :: 0 < i < |places| ==> places[i - 1].key < places[i].key
    requires i < j < |places|
    ensures places[i].key < places[j].key
  {
    if i + 1 < j {
      KeysGrow(places, i, j - 1);
    }
  }

  /** Ascending or distinct places are written as they are, others sorted and without repetitions. */
  method ChoosePlaces(tasks: seq<Task>, mode: DocMode, hasFields: bool) returns (written: seq<Place>, needed: bool)
    ensures written == WrittenPlaces(tasks) && needed == Needed(tasks, mode, hasFields)
  {
    hide DistinctPlaces;
    var places := PlacesOf(tasks);
    written, needed := places, NeedsValues(mode, hasFields);
    DeduplicatedSize(places);
    if places == [] {
      return;
    }
    var ascending := AllAscending(places);
    if ascending {
      AscendingKeys(places);
    } else {
      var unique := SortAndDeduplicate(places);
      if |unique| != |places| {
        written, needed := unique, true;
      }
    }
  }

  ghost predicate NoneRejected(
    codec: Codec, pairs: Pairs, tasks: seq<Task>, contents: seq<Option<Bytes>>, mode: DocMode, hasFields: bool)
    requires AllCallable(codec, pairs, tasks, contents, mode, hasFields)
  {
    var looked := hasFields || mode == PatchDoc || !DistinctPlaces(PlacesOf(tasks));
    forall i :: 0 <= i < |tasks| ==>
      !Rejected(codec, Find(pairs, tasks[i].place), contents[i], tasks[i].field, mode, looked)
  }

  /** Under every place the stored bytes are the document its task should leave. */
  ghost predicate AllBecame(
    codec: Codec, pairs: Pairs, after: Pairs, tasks: seq<Task>, contents: seq<Option<Bytes>>, mode: DocMode, hasFields: bool)
    requires AllCallable(codec, pairs, tasks, contents, mode, hasFields)
  {
    var looked := hasFields || mode == PatchDoc || !DistinctPlaces(PlacesOf(tasks));
    forall i :: 0 <= i < |tasks| ==>
      && Find(after, tasks[i].place).Some?
      && var doc := codec.parse(Find(after, tasks[i].place).value);
      doc.Some? && Became(codec, Find(pairs, tasks[i].place), doc.value, contents[i], tasks[i].field, mode, looked)
  }

  /** A batch fails exactly when a task is rejected, changes no other place, and leaves what its tasks should. */
  lemma {:induction false} BatchMeans(
    codec: Codec, pairs: Pairs, tasks: seq<Task>, contents: seq<Option<Bytes>>, mode: DocMode, hasFields: bool)
    requires AllCallable(codec, pairs, tasks, contents, mode, hasFields)
    ensures |WrittenPlaces(tasks)| <= |tasks|
    ensures var results := Results(codec, pairs, tasks, contents, mode, hasFields);
      var after := PutAll(pairs, WrittenPlaces(tasks), results[..|WrittenPlaces(tasks)|]);
      var ok := forall i :: 0 <= i < |tasks| ==> results[i].Some?;
      && (ok <==> NoneRejected(codec, pairs, tasks, contents, mode, hasFields))
      && (forall place :: place !in PlacesOf(tasks) ==> Find(after, place) == Find(pairs, place))
      && (ok && Lossless(codec) && DistinctPlaces(PlacesOf(tasks)) ==>
            AllBecame(codec, pairs, after, tasks, contents, mode, hasFields))
  {
    hide NoneRejected, AllBecame, Results, AllCallable, WrittenPlaces, Lossless, DistinctPlaces;
    WrittenPlacesAre(tasks);
    BatchRejects(codec, pairs, tasks, contents, mode, hasFields);
    var results, written := Results(codec, pairs, tasks, contents, mode, hasFields), WrittenPlaces(tasks);
    forall place | place !in PlacesOf(tasks)
      ensures Find(PutAll(pairs, written, results[..|written|]), place) == Find(pairs, place)
    {
      WrittenElsewhere(pairs, written, results[..|written|], place);
    }
    if Lossless(codec) && DistinctPlaces(PlacesOf(tasks)) && forall i :: 0 <= i < |tasks| ==> results[i].Some? {
      BatchBecame(codec, pairs, tasks, contents, mode, hasFields);
    }
  }

  lemma {:induction false} ResultIs(
    codec: Codec, pairs: Pairs, tasks: seq<Task>, contents: seq<Option<Bytes>>, mode: DocMode, hasFields: bool, i: nat)
    requires AllCallable(codec, pairs, tasks, contents, mode, hasFields) && i < |tasks|
    ensures var found, needed := Find(pairs, tasks[i].place), Needed(tasks, mode, hasFields);
      var r := Results(codec, pairs, tasks, contents, mode, hasFields)[i];
      && Callable(codec, found, contents[i], tasks[i].field, mode, needed)
      && r == Rewritten(codec, found, contents[i], tasks[i].field, mode, needed)
  {
    hide Rewritten, Callable, Needed;
  }

  lemma {:induction false} BatchRejects(
    codec: Codec, pairs: Pairs, tasks: seq<Task>, contents: seq<Option<Bytes>>, mode: DocMode, hasFields: bool)
    requires AllCallable(codec, pairs, tasks, contents, mode, hasFields)
    ensures (forall i :: 0 <= i < |tasks| ==> Results(codec, pairs, tasks, contents, mode, hasFields)[i].Some?) <==>
      NoneRejected(codec, pairs, tasks, contents, mode, hasFields)
  {
    var results, needed := Results(codec, pairs, tasks, contents, mode, hasFields), Needed(tasks, mode, hasFields);
    hide Rewritten, Rejected, Became, Callable, Results, DistinctPlaces;
    forall i | 0 <= i < |tasks|
      ensures results[i].None? <==> Rejected(codec, Find(pairs, tasks[i].place), contents[i], tasks[i].field, mode, needed)
    {
      ResultIs(codec, pairs, tasks, contents, mode, hasFields, i);
      RewrittenMeans(codec, Find(pairs, tasks[i].place), contents[i], tasks[i].field, mode, needed);
    }
  }

  lemma {:induction false} BatchBecame(
    codec: Codec, pairs: Pairs, tasks: seq<Task>, contents: seq<Option<Bytes>>, mode: DocMode, hasFields: bool)
    requires AllCallable(codec, pairs, tasks, contents, mode, hasFields) && Lossless(codec)
    requires DistinctPlaces(PlacesOf(tasks)) && |WrittenPlaces(tasks)| <= |tasks|
    requires forall i :: 0 <= i < |tasks| ==> Results(codec, pairs, tasks, contents, mode, hasFields)[i].Some?
    ensures var results, written := Results(codec, pairs, tasks, contents, mode, hasFields), WrittenPlaces(tasks);
      AllBecame(codec, pairs, PutAll(pairs, written, results[..|written|]), tasks, contents, mode, hasFields)
  {
    var results, needed := Results(codec, pairs, tasks, contents, mode, hasFields), Needed(tasks, mode, hasFields);
    DistinctKeysLand(pairs, tasks, results);
    var after := PutAll(pairs, WrittenPlaces(tasks), results[..|WrittenPlaces(tasks)|]);
    hide Rewritten, Rejected, Became, Callable, Results, WrittenPlaces, DistinctPlaces, Lossless;
    forall i | 0 <= i < |tasks|
      ensures Find(after, tasks[i].place).Some?
      ensures var doc := codec.parse(Find(after, tasks[i].place).value);
        doc.Some? && Became(codec, Find(pairs, tasks[i].place), doc.value, contents[i], tasks[i].field, mode, needed)
    {
      ResultIs(codec, pairs, tasks, contents, mode, hasFields, i);
      RewrittenMeans(codec, Find(pairs, tasks[i].place), contents[i], tasks[i].field, mode, needed);
    }
  }

  class DocCollection {
    var pairs: Pairs

    constructor (initial: Pairs)
      ensures pairs == initial
    {
      pairs := initial;
    }

    /** The results of the tasks on one tape, up to the first error. */
    method ModifyTape(
      codec: Codec, tasks: seq<Task>, contents: seq<Option<Bytes>>, mode: DocMode, hasFields: bool, needed: bool)
      returns (ok: bool, tape: seq<Option<Bytes>>)
      requires AllCallable(codec, pairs, tasks, contents, mode, hasFields) && needed == Needed(tasks, mode, hasFields)
      ensures ok <==> forall i :: 0 <= i < |tasks| ==> Results(codec, pairs, tasks, contents, mode, hasFields)[i].Some?
      ensures ok ==> tape == Results(codec, pairs, tasks, contents, mode, hasFields)
    {
      var found := FindAll(pairs, PlacesOf(tasks));
      ghost var results := Results(codec, pairs, tasks, contents, mode, hasFields);
      tape := [];
      for i := 0 to |tasks|
        invariant tape == results[..i]
        invariant forall j :: 0 <= j < i ==> results[j].Some?
      {
        var one := Rewritten(codec, found[i], contents[i], tasks[i].field, mode, needed);
        assert one == results[i];
        if one.None? {
          return false, [];
        }
        tape := tape + [one];
      }
      ok := true;
    }

    /**
    A modifying batch. If any document cannot be modified nothing changes; otherwise the tape of
    results is written, task after task, under the written places.
    */
    method ModifyDocs(codec: Codec, tasks: seq<Task>, contents: seq<Option<Bytes>>, mode: DocMode, hasFields: bool)
      returns (ok: bool)
      requires AllCallable(codec, pairs, tasks, contents, mode, hasFields)
      modifies this
      ensures ok <==> forall i :: 0 <= i < |tasks| ==> Results(codec, old(pairs), tasks, contents, mode, hasFields)[i].Some?
      ensures |WrittenPlaces(tasks)| <= |tasks|
      ensures pairs ==
        if ok then PutAll(old(pairs), WrittenPlaces(tasks),
                          Results(codec, old(pairs), tasks, contents, mode, hasFields)[..|WrittenPlaces(tasks)|])
        else old(pairs)
      ensures ok <==> NoneRejected(codec, old(pairs), tasks, contents, mode, hasFields)
      ensures ok && Lossless(codec) && DistinctPlaces(PlacesOf(tasks)) ==>
        AllBecame(codec, old(pairs), pairs, tasks, contents, mode, hasFields)
      ensures forall place :: place !in PlacesOf(tasks) ==> Find(pairs, place) == Find(old(pairs), place)
    {
      hide Results, AllCallable, WrittenPlaces, Needed, NoneRejected, AllBecame, Lossless;
      WrittenPlacesAre(tasks);
      BatchMeans(codec, pairs, tasks, contents, mode, hasFields);
      var written, needed := ChoosePlaces(tasks, mode, hasFields);
      var tape;
      ok, tape := ModifyTape(codec, tasks, contents, mode, hasFields, needed);
      if ok {
        pairs := PutAll(pairs, written, tape[..|written|]);
      }
    }
  }

  // ---- Where the results end up ----

  /** Over distinct places each place holds its own document, and no other place changes. */
  lemma {:induction false} DistinctKeysLand(pairs: Pairs, tasks: seq<Task>, results: seq<Option<Bytes>>)
    requires DistinctPlaces(PlacesOf(tasks)) && |results| == |tasks|
    ensures var after := PutAll(pairs, WrittenPlaces(tasks), results[..|WrittenPlaces(tasks)|]);
      && (forall i :: 0 <= i < |tasks| ==> Find(after, tasks[i].place) == results[i])
      && (forall place :: place !in PlacesOf(tasks) ==> Find(after, place) == Find(pairs, place))
  {
    var places := PlacesOf(tasks);
    assert results[..|tasks|] == results;
    forall i | 0 <= i < |tasks| ensures Find(PutAll(pairs, places, results), tasks[i].place) == results[i] {
      WrittenAt(pairs, places, results, i);
    }
    forall place | place !in places ensures Find(PutAll(pairs, places, results), place) == Find(pairs, place) {
      WrittenElsewhere(pairs, places, results, place);
    }
  }

  ghost predicate HoldsOwn(tasks: seq<Task>, results: seq<Option<Bytes>>, after: Pairs, place: Place)
    requires |results| == |tasks|
  {
    exists j :: 0 <= j < |tasks| && tasks[j].place == place && Find(after, place) == results[j]
  }

  /** Every written place holds a result of one of its own tasks. */
  ghost predicate AllHoldOwn(pairs: Pairs, tasks: seq<Task>, results: seq<Option<Bytes>>)
    requires |results| == |tasks| && |WrittenPlaces(tasks)| <= |tasks|
  {
    var written := WrittenPlaces(tasks);
    forall k :: 0 <= k < |written| ==> HoldsOwn(tasks, results, PutAll(pairs, written, results[..|written|]), written[k])
  }

  lemma {:induction false} HeldAt(pairs: Pairs, tasks: seq<Task>, results: seq<Option<Bytes>>, k: nat)
    requires |results| == |tasks| && |WrittenPlaces(tasks)| <= |tasks| && k < |WrittenPlaces(tasks)|
    ensures var written := WrittenPlaces(tasks);
      Find(PutAll(pairs, written, results[..|written|]), written[k]) == results[k]
  {
    hide WrittenPlaces;
    WrittenPlacesAre(tasks);
    WrittenAt(pairs, WrittenPlaces(tasks), results[..|WrittenPlaces(tasks)|], k);
  }

  /** Results that can be told apart: the one of task `i` has `i` bytes. */
  ghost function Marked(n: nat): (results: seq<Option<Bytes>>)
    ensures |results| == n && forall i :: 0 <= i < n ==> results[i].Some? && |results[i].value| == i
  {
    if n == 0 then [] else Marked(n - 1) + [Some(seq(n - 1, _ => 0))]
  }

  /**
  Whatever the documents are, a batch leaves every place with a result of its own exactly when its
  leading tasks name the written places in order: with repeated keys others end up under wrong keys.
  */
  lemma {:induction false} RepeatedKeysLand(pairs: Pairs, tasks: seq<Task>)
    ensures |WrittenPlaces(tasks)| <= |tasks|
    ensures (forall results: seq<Option<Bytes>> :: |results| == |tasks| ==> AllHoldOwn(pairs, tasks, results)) <==>
      PlacesOf(tasks)[..|WrittenPlaces(tasks)|] == WrittenPlaces(tasks)
  {
    hide WrittenPlaces, AllHoldOwn;
    WrittenPlacesAre(tasks);
    var written := WrittenPlaces(tasks);
    if PlacesOf(tasks)[..|written|] == written {
      forall results: seq<Option<Bytes>> | |results| == |tasks| ensures AllHoldOwn(pairs, tasks, results) {
        OwnInOrder(pairs, tasks, results);
      }
    }
    if AllHoldOwn(pairs, tasks, Marked(|tasks|)) {
      InOrder(pairs, tasks);
    }
  }

  lemma {:induction false} OwnInOrder(pairs: Pairs, tasks: seq<Task>, results: seq<Option<Bytes>>)
    requires |results| == |tasks| && |WrittenPlaces(tasks)| <= |tasks|
    requires PlacesOf(tasks)[..|WrittenPlaces(tasks)|] == WrittenPlaces(tasks)
    ensures AllHoldOwn(pairs, tasks, results)
  {
    hide WrittenPlaces;
    var written := WrittenPlaces(tasks);
    forall k | 0 <= k < |written|
      ensures HoldsOwn(tasks, results, PutAll(pairs, written, results[..|written|]), written[k])
    {
      HeldAt(pairs, tasks, results, k);
      assert tasks[k].place == PlacesOf(tasks)[..|written|][k];
    }
  }

  lemma {:induction false} InOrder(pairs: Pairs, tasks: seq<Task>)
    requires |WrittenPlaces(tasks)| <= |tasks| && AllHoldOwn(pairs, tasks, Marked(|tasks|))
    ensures PlacesOf(tasks)[..|WrittenPlaces(tasks)|] == WrittenPlaces(tasks)
  {
    hide WrittenPlaces, Marked;
    var written, results := WrittenPlaces(tasks), Marked(|tasks|);
    forall k | 0 <= k < |written| ensures PlacesOf(tasks)[k] == written[k] {
      HeldAt(pairs, tasks, results, k);
      assert HoldsOwn(tasks, results, PutAll(pairs, written, results[..|written|]), written[k]);
    }
  }

  /** With keys 2, 1 and 1 the document of key 2 is written under key 1, and one of key 1 under key 2. */
  lemma {:induction false} RepeatedKeysMisplace(pairs: Pairs, results: seq<Option<Bytes>>)
    requires |results| == 3
    ensures var one, two := Place(0, 1), Place(0, 2);
      var tasks := [Task(two, None), Task(one, None), Task(one, None)];
      var after := PutAll(pairs, [one, two], results[..2]);
      && WrittenPlaces(tasks) == [one, two] != PlacesOf(tasks)[..2]
      && Find(after, one) == results[0] && Find(after, two) == results[1]
  {
    var one, two := Place(0, 1), Place(0, 2);
    var tasks := [Task(two, None), Task(one, None), Task(one, None)];
    var places := PlacesOf(tasks);
    assert places == [two, one, one] && places[1] == places[2];
    assert places[1..] == [one, one] && [one, one][1..] == [one] && [one][1..] == [];
    assert SortAndDeduplicate([one]) == InsertPlace([], one) == [one];
    assert SortAndDeduplicate([one, one]) == InsertPlace([one], one) == [one];
    assert InsertPlace([one], two) == [one] + InsertPlace([one][1..], two) == [one, two];
    HeldAt(pairs, tasks, results, 0);
    HeldAt(pairs, tasks, results, 1);
  }
}
