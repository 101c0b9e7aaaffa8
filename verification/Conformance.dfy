/**
Where JSON Patch operations (`src/modality_docs.cpp`) do what RFC 6902 asks: for every operation the
source defines, and every document, the exact condition, and inputs on which the two differ.
*/
module Conformance {
  import opened Store
  import opened Numbers
  import opened Documents
  import opened DocPatch

  // ---- What the source refuses ----

  /** The parent the source edits; a field without a leading slash names a member of the root. */
  function SourceParent(doc: Doc, field: string): Option<Doc> {
    var pos := LastSlash(field);
    if pos == -1 then None
    else if IsPointer(field) then ParentOf(doc, field)
    else if doc.Obj? then Named(doc.members, field[..pos])
    else None
  }

  predicate Refuses(parent: Doc, key: string, mode: Mode) {
    match parent
    case Scalar(_) => false
    case Obj(members) => (mode == Remove || mode == Update) && Named(members, key).None?
    case Arr(items) =>
      || (!AllDigits(key, 10) && key != "-")
      || (mode == Insert && AllDigits(key, 10) && FromChars(key) > |items|)
      || ((mode == Remove || mode == Update) && FromChars(key) >= |items|)
  }

  predicate Fails(doc: Doc, field: string, mode: Mode) {
    var parent := SourceParent(doc, field);
    parent.None? || Refuses(parent.value, field[LastSlash(field) + 1..], mode)
  }

  lemma {:induction false} RefusedIsNone(parent: Doc, key: string, value: Doc, mode: Mode)
    ensures Edited(parent, key, value, mode).None? <==> Refuses(parent, key, mode)
  {
    hide AllDigits, FromChars, Without;
  }

  lemma {:induction false} PointerHasSlash(field: string)
    requires IsPointer(field)
    ensures LastSlash(field) >= 0
  {
    assert field[0..] == field;
  }

  lemma {:induction false} FailsIsNone(doc: Doc, value: Doc, field: string, mode: Mode)
    requires field != ""
    ensures ModifiedRoot(Some(doc), value, field, mode).Failed? <==> Fails(doc, field, mode)
  {
    hide Edited, Refuses, ParsePointer, WithValue;
    var pos := LastSlash(field);
    if pos >= 0 {
      if field[0] != '/' && doc.Obj? {
        OneStep(doc, field[..pos]);
      }
      if SourceParent(doc, field).Some? {
        RefusedIsNone(SourceParent(doc, field).value, field[pos + 1..], value, mode);
      }
    }
  }

  // ---- What the standard refuses ----

  /** The parent can take a new child under the token. */
  predicate Takes(parent: Doc, t: string) {
    match parent
    case Scalar(_) => false
    case Obj(_) => true
    case Arr(items) => t == "-" || (IsIndex(t) && Value(t, 10) <= |items|)
  }

  predicate RfcAccepts(doc: Doc, path: string) {
    && IsPointer(path)
    && var parent, u := ParentOf(doc, path), Unescape(path[LastSlash(path) + 1..]);
    parent.Some? && u.Some? && Takes(parent.value, u.value)
  }

  lemma {:induction false} TakesIsSome(parent: Doc, t: string, value: Doc)
    ensures RfcHere(parent, t, AddEdit(value)).Some? <==> Takes(parent, t)
  {
    hide IsIndex, Value;
  }

  lemma {:induction false} RfcAcceptsIsDone(doc: Doc, path: string, value: Doc)
    requires path != ""
    ensures RfcAt(doc, path, AddEdit(value)).Done? <==> RfcAccepts(doc, path)
  {
    hide Unescape, Tokens, UnescapeAll, RfcHere, Takes, Resolve, WithValue, RfcEdit;
    if IsPointer(path) {
      var pos := LastSlash(path);
      PointerSplits(path);
      var parents, last := ParsePointer(path[..pos]), Unescape(path[pos + 1..]);
      if parents.Some? && last.Some? {
        RfcIsLocal(doc, parents.value, last.value, AddEdit(value));
        if Resolve(doc, parents.value).Some? {
          TakesIsSome(Resolve(doc, parents.value).value, last.value, value);
        }
      }
    }
  }

  // ---- One field ----

  /** The exact condition on a field: a text that is no pointer must fail. */
  predicate FieldMeets(doc: Doc, field: string, value: Doc, mode: Mode) {
    if IsPointer(field) then FieldAgrees(doc, field, value, mode) else Fails(doc, field, mode)
  }

  predicate Bounded(doc: Doc, field: string) {
    IsPointer(field) ==> ParentShort(doc, field)
  }

  lemma {:induction false} FieldMeetsIff(doc: Doc, value: Doc, field: string, mode: Mode)
    requires field != "" && Bounded(doc, field)
    ensures ModifiedRoot(Some(doc), value, field, mode) == RfcAt(doc, field, EditOf(mode, value)) <==>
      FieldMeets(doc, field, value, mode)
  {
    hide ModifiedRoot, ParentShort, FieldAgrees, Fails, RfcEdit;
    if IsPointer(field) {
      FieldIff(doc, value, field, mode);
    } else {
      FailsIsNone(doc, value, field, mode);
    }
  }

  // ---- Copying the whole document ----

  lemma {:induction false} ChildIsSmaller(doc: Doc, t: string)
    requires Child(doc, t).Some?
    ensures (doc decreases to Child(doc, t).value)
  {
    hide FirstOf, Value, IsIndex;
  }

  lemma {:induction false} ResolvedIsSmaller(doc: Doc, path: seq<string>)
    requires Resolve(doc, path).Some?
    ensures path != [] ==> (doc decreases to Resolve(doc, path).value)
    decreases |path|
  {
    hide Child;
    if path != [] {
      ChildIsSmaller(doc, path[0]);
      ResolvedIsSmaller(Child(doc, path[0]).value, path[1..]);
    }
  }

  lemma {:induction false} AddedToObject(members: seq<Member>, t: string, value: Doc, u: string)
    ensures var r := RfcHere(Obj(members), t, AddEdit(value));
      r.Some? && r.value.Obj? && Child(r.value, u) == if u == t then Some(value) else Child(Obj(members), u)
  {
    var k := FirstOf(members, t);
    if k < |members| {
      FirstAfter(members, k, Member(t, value), u);
    } else {
      FirstInLonger(members, Member(t, value), u);
    }
  }

  lemma {:induction false} ItemIsSmaller(parent: Doc, i: nat)
    requires parent.Arr? && i < |parent.items|
    ensures (parent decreases to parent.items[i])
  {
  }

  /** A part of a document, put anywhere in it, is not the whole of it put there. */
  lemma {:induction false} PartIsNotWhole(doc: Doc, path: seq<string>, key: string, u: string, part: Doc)
    requires Resolve(doc, path).Some? && (doc decreases to part)
    ensures var parent := Resolve(doc, path).value;
      RfcHere(parent, u, AddEdit(doc)).Some? ==> Edited(parent, key, part, Upsert) != RfcHere(parent, u, AddEdit(doc))
  {
    hide FromChars, Value, AllDigits, IsIndex, Resolve;
    var parent := Resolve(doc, path).value;
    ResolvedIsSmaller(doc, path);
    if path == [] {
      assert parent == doc by { ResolvedHere(doc, path); }
    }
    match parent {
      case Scalar(_) =>
      case Obj(members) =>
        AddedToObject(members, u, doc, u);
        UpsertedChild(parent, key, part, u);
        if Child(parent, u).Some? { ChildIsSmaller(parent, u); }
      case Arr(items) =>
        forall i | 0 <= i < |items| ensures (doc decreases to items[i]) { ItemIsSmaller(parent, i); }
        ArrayHoldsPart(items, key, u, part, doc);
    }
  }

  lemma {:induction false} ResolvedHere(doc: Doc, path: seq<string>)
    requires path == []
    ensures Resolve(doc, path) == Some(doc)
  {
  }

  lemma {:induction false} ArrayHoldsPart(items: seq<Doc>, key: string, u: string, part: Doc, whole: Doc)
    requires part != whole && forall i :: 0 <= i < |items| ==> items[i] != whole
    ensures var r := RfcHere(Arr(items), u, AddEdit(whole)); r.Some? ==> EditedArray(items, key, part, Upsert) != r
  {
    hide FromChars, Value, AllDigits, IsIndex;
    var r, s := RfcHere(Arr(items), u, AddEdit(whole)), EditedArray(items, key, part, Upsert);
    if r.Some? && s.Some? {
      assert whole !in s.value.items;
      var at := if u == "-" then |items| else Value(u, 10);
      assert r.value.items[at] == whole;
    }
  }

  /** Copying a member called "" is never copying the whole document, unless both fail. */
  lemma {:induction false} EmptyNameDiffers(doc: Doc, part: Doc, path: string)
    requires (doc decreases to part) && path != ""
    ensures ModifiedRoot(Some(doc), part, path, Upsert) == RfcAt(doc, path, AddEdit(doc)) ==> Fails(doc, path, Upsert)
  {
    hide Unescape, Tokens, UnescapeAll, RfcHere, Edited, Resolve, WithValue, RfcEdit, Fails;
    FailsIsNone(doc, part, path, Upsert);
    if IsPointer(path) {
      var pos := LastSlash(path);
      PointerSplits(path);
      var parents, last := ParsePointer(path[..pos]), Unescape(path[pos + 1..]);
      if parents.Some? && last.Some? && Resolve(doc, parents.value).Some? {
        RfcIsLocal(doc, parents.value, last.value, AddEdit(doc));
        PartIsNotWhole(doc, parents.value, path[pos + 1..], last.value, part);
        var parent := Resolve(doc, parents.value).value;
        var a, b := Edited(parent, path[pos + 1..], part, Upsert), RfcHere(parent, last.value, AddEdit(doc));
        if a.Some? && b.Some? && WithValue(doc, parents.value, a.value) == WithValue(doc, parents.value, b.value) {
          ValueIsKept(doc, parents.value, a.value, b.value);
        }
      }
    }
  }

  // ---- Moving from a token with a tilde ----

  /** The members of an object without the one or without the other of two names it has. */
  ghost predicate Lost(x: Doc, y: Doc, key: string, u: string) {
    && x.Obj? && y.Obj? && key != u
    && Named(x.members, key).None? && Named(x.members, u).Some?
    && Named(y.members, u).None? && Named(y.members, key).Some?
  }

  /** The source puts a value under the token as it is spelled. */
  function PutAt(doc: Doc, parents: seq<string>, key: string, value: Doc): Option<Doc> {
    var parent := Resolve(doc, parents);
    if parent.None? then None else
      var edited := Edited(parent.value, key, value, Upsert);
      if edited.None? then None else Some(WithValue(doc, parents, edited.value))
  }

  /**
  Two documents that differ only in what they hold at `place` become equal when a value is put over
  the difference: into an object above it, on the way to it. If the two spellings of the token
  differ, each must also find there what the other puts.
  */
  predicate Overwrites(a: Doc, b: Doc, place: seq<string>, parents: seq<string>, key: string, u: string, value: Doc) {
    && parents < place
    && var here, there := Resolve(a, parents), Resolve(b, parents);
    && here.Some? && here.value.Obj? && there.Some? && there.value.Obj?
    && var next := place[|parents|];
    if key == u then key == next
    else (next == key || next == u) && Named(there.value.members, key) == Some(value) && Named(here.value.members, u) == Some(value)
  }

  lemma {:induction false} LostAtOnce(x: Doc, y: Doc, key: string, u: string, k: string, w: string, value: Doc)
    requires Lost(x, y, key, u)
    ensures Edited(x, k, value, Upsert) != RfcHere(y, w, AddEdit(value))
  {
    hide FirstOf;
    UpsertedChild(x, k, value, key);
    UpsertedChild(x, k, value, u);
    AddedToObject(y.members, w, value, key);
    AddedToObject(y.members, w, value, u);
    if k == key && w == u {
      assert (x.members + [Member(k, value)])[|x.members|] == Member(k, value);
      assert (y.members + [Member(w, value)])[|y.members|] == Member(w, value);
    }
  }

  lemma {:induction false} LostBelow(x: Doc, y: Doc, key: string, u: string, t: string, s: Doc, r: Doc)
    requires Lost(x, y, key, u) && Child(x, t).Some? && Child(y, t).Some?
    ensures WithChild(x, t, s) != WithChild(y, t, r)
  {
    ChildAfter(x, t, s, key);
    ChildAfter(y, t, r, key);
  }

  lemma {:induction false} SameChildTwice(doc: Doc, t: string, a: Doc, b: Doc)
    requires Child(doc, t).Some?
    ensures Child(WithChild(doc, t, a), t) == Some(a)
    ensures WithChild(WithChild(doc, t, a), t, b) == WithChild(doc, t, b)
  {
    ChildAfter(doc, t, a, t);
    if doc.Obj? {
      FirstAfter(doc.members, FirstOf(doc.members, t), Member(t, a), t);
    }
  }

  lemma {:induction false} AboveInArray(doc: Doc, p: string, a: Doc, b: Doc, k: string, u: string, value: Doc)
    requires doc.Arr? && Short(doc) && Child(doc, p).Some? && a != b
    requires Unescape(k) == Some(u)
    ensures var s, r := Edited(WithChild(doc, p, a), k, value, Upsert), RfcHere(WithChild(doc, p, b), u, AddEdit(value));
      s.Some? && r.Some? ==> s != r
  {
    hide Value, AllDigits, Unescape;
    var i := Value(p, 10);
    var xs, ys := doc.items[i := a], doc.items[i := b];
    UnescapeChanges(k);
    if '~' in k {
      NotDigits(k, '~');
    } else {
      Dash();
      var r := RfcHere(WithChild(doc, p, b), u, AddEdit(value));
      if r.Some? {
        assert |r.value.items| == |ys| + 1;
        assert (xs + [value])[i] == a;
        assert ys[..|ys|] + [value] + ys[|ys|..] == ys + [value] && (ys + [value])[i] == b;
      }
    }
  }

  /** A member is replaced where it is, or added at the end. */
  function Placed(members: seq<Member>, key: string, value: Doc): seq<Member> {
    var k := FirstOf(members, key);
    if k < |members| then members[k := Member(key, value)] else members + [Member(key, value)]
  }

  lemma {:induction false} BothPlace(members: seq<Member>, key: string, value: Doc)
    ensures Edited(Obj(members), key, value, Upsert) == Some(Obj(Placed(members, key, value)))
    ensures RfcHere(Obj(members), key, AddEdit(value)) == Some(Obj(Placed(members, key, value)))
  {
  }

  lemma {:induction false} OneSpelling(ms: seq<Member>, i: nat, a: Member, b: Member, k: string, value: Doc)
    requires i == FirstOf(ms, a.key) < |ms| && a.key == b.key && a != b
    ensures Placed(ms[i := a], k, value) == Placed(ms[i := b], k, value) <==> k == a.key
  {
    FirstAfter(ms, i, a, k);
    FirstAfter(ms, i, b, k);
    hide FirstOf;
    var j, m := FirstOf(ms, k), Member(k, value);
    if j == |ms| {
      assert (ms[i := a] + [m])[i] == a && (ms[i := b] + [m])[i] == b;
    } else if j == i {
      assert ms[i := a][i := m] == ms[i := b][i := m];
    } else {
      assert ms[i := a][j := m][i] == a && ms[i := b][j := m][i] == b;
    }
  }

  lemma {:induction false} TwoSpellings(ms: seq<Member>, i: nat, a: Member, b: Member, k: string, u: string, value: Doc)
    requires i == FirstOf(ms, a.key) < |ms| && a.key == b.key && a != b && k != u
    ensures Placed(ms[i := a], k, value) == Placed(ms[i := b], u, value) <==>
      (a.key == k || a.key == u) && Named(ms[i := b], k) == Some(value) && Named(ms[i := a], u) == Some(value)
  {
    FirstAfter(ms, i, a, k);
    FirstAfter(ms, i, a, u);
    FirstAfter(ms, i, b, k);
    FirstAfter(ms, i, b, u);
    hide FirstOf;
    var j, l := FirstOf(ms, k), FirstOf(ms, u);
    if j == |ms| && l == |ms| {
      assert (ms[i := a] + [Member(k, value)])[|ms|] != (ms[i := b] + [Member(u, value)])[|ms|];
    } else if j < |ms| && l < |ms| {
      var s, r := ms[i := a][j := Member(k, value)], ms[i := b][l := Member(u, value)];
      assert s == r ==> s[j] == r[j] && s[l] == r[l] && s[i] == r[i];
    }
  }

  lemma {:induction false} AboveInObject(doc: Doc, p: string, a: Doc, b: Doc, k: string, u: string, value: Doc)
    requires doc.Obj? && Child(doc, p).Some? && a != b
    ensures var x, y := WithChild(doc, p, a), WithChild(doc, p, b);
      Edited(x, k, value, Upsert) == RfcHere(y, u, AddEdit(value)) <==>
        if k == u then k == p
        else (p == k || p == u) && Named(y.members, k) == Some(value) && Named(x.members, u) == Some(value)
  {
    hide FirstOf, Placed, RfcHere, Edited;
    var i := FirstOf(doc.members, p);
    BothPlace(WithChild(doc, p, a).members, k, value);
    BothPlace(WithChild(doc, p, b).members, u, value);
    if k == u {
      OneSpelling(doc.members, i, Member(p, a), Member(p, b), k, value);
    } else {
      TwoSpellings(doc.members, i, Member(p, a), Member(p, b), k, u, value);
    }
  }

  lemma {:induction false} WithValueStep(doc: Doc, place: seq<string>, x: Doc)
    requires place != [] && Resolve(doc, place).Some?
    ensures Child(doc, place[0]).Some? && Resolve(Child(doc, place[0]).value, place[1..]).Some?
    ensures var child := Child(doc, place[0]).value;
      WithValue(doc, place, x) == WithChild(doc, place[0], WithValue(child, place[1..], x))
      && Child(WithValue(doc, place, x), place[0]) == Some(WithValue(child, place[1..], x))
  {
    hide Child, WithChild;
    ChildAfter(doc, place[0], WithValue(Child(doc, place[0]).value, place[1..], x), place[0]);
  }

  lemma {:induction false} PutStep(doc: Doc, parents: seq<string>, key: string, u: string, value: Doc)
    requires parents != []
    ensures PutAt(doc, parents, key, value).Some? ==>
      && Child(doc, parents[0]).Some?
      && PutAt(Child(doc, parents[0]).value, parents[1..], key, value).Some?
      && PutAt(doc, parents, key, value).value ==
         WithChild(doc, parents[0], PutAt(Child(doc, parents[0]).value, parents[1..], key, value).value)
    ensures RfcEdit(doc, parents + [u], AddEdit(value)).Some? ==>
      && Child(doc, parents[0]).Some?
      && RfcEdit(Child(doc, parents[0]).value, parents[1..] + [u], AddEdit(value)).Some?
      && RfcEdit(doc, parents + [u], AddEdit(value)).value ==
         WithChild(doc, parents[0], RfcEdit(Child(doc, parents[0]).value, parents[1..] + [u], AddEdit(value)).value)
  {
    hide Child, WithChild, Edited, RfcHere;
    assert (parents + [u])[0] == parents[0] && (parents + [u])[1..] == parents[1..] + [u];
  }

  lemma {:induction false} PutHere(doc: Doc, parents: seq<string>, key: string, u: string, value: Doc)
    requires parents == []
    ensures Resolve(doc, parents) == Some(doc)
    ensures PutAt(doc, parents, key, value) == Edited(doc, key, value, Upsert)
    ensures RfcEdit(doc, parents + [u], AddEdit(value)) == RfcHere(doc, u, AddEdit(value))
  {
    hide Edited, RfcHere;
    assert parents + [u] == [u];
  }

  lemma {:induction false} KindStays(doc: Doc, t: string, child: Doc)
    requires Child(doc, t).Some?
    ensures var after := WithChild(doc, t, child);
      (doc.Obj? || doc.Arr?) && (after.Obj? <==> doc.Obj?) && (Short(after) <==> Short(doc))
  {
  }

  predicate ShortAt(doc: Doc, parents: seq<string>) {
    var parent := Resolve(doc, parents);
    parent.None? || Short(parent.value)
  }

  /** Puts that succeed in two documents that differ at one place make them equal exactly by overwriting it. */
  lemma {:induction false} PutsMeet(doc: Doc, place: seq<string>, x: Doc, y: Doc, lost: string, kept: string,
                                    parents: seq<string>, key: string, u: string, value: Doc)
    requires Resolve(doc, place).Some? && Lost(x, y, lost, kept)
    requires Unescape(key) == Some(u)
    requires var a, b := WithValue(doc, place, x), WithValue(doc, place, y);
      ShortAt(a, parents) && PutAt(a, parents, key, value).Some? && RfcEdit(b, parents + [u], AddEdit(value)).Some?
    ensures var a, b := WithValue(doc, place, x), WithValue(doc, place, y);
      PutAt(a, parents, key, value) == RfcEdit(b, parents + [u], AddEdit(value)) <==>
        Overwrites(a, b, place, parents, key, u, value)
    decreases |place|
  {
    hide Child, WithChild, Edited, RfcHere, Lost, Unescape, Short;
    var a, b := WithValue(doc, place, x), WithValue(doc, place, y);
    if place == [] {
      if parents == [] {
        LostAtOnce(x, y, lost, kept, key, u, value);
        PutHere(x, parents, key, u, value);
        PutHere(y, parents, key, u, value);
      } else {
        PutStep(x, parents, key, u, value);
        PutStep(y, parents, key, u, value);
        LostBelow(x, y, lost, kept, parents[0], PutAt(Child(x, parents[0]).value, parents[1..], key, value).value,
                  RfcEdit(Child(y, parents[0]).value, parents[1..] + [u], AddEdit(value)).value);
      }
    } else {
      WithValueStep(doc, place, x);
      WithValueStep(doc, place, y);
      var p, child := place[0], Child(doc, place[0]).value;
      var a', b' := WithValue(child, place[1..], x), WithValue(child, place[1..], y);
      assert a' != b' by {
        assert x != y by { LostDiffer(x, y, lost, kept); }
        if a' == b' { ValueIsKept(child, place[1..], x, y); }
      }
      if parents == [] {
        PutHere(a, parents, key, u, value);
        PutHere(b, parents, key, u, value);
        KindStays(doc, p, a');
        KindStays(doc, p, b');
        if doc.Obj? {
          AboveInObject(doc, p, a', b', key, u, value);
        } else {
          AboveInArray(doc, p, a', b', key, u, value);
        }
      } else {
        PutStep(a, parents, key, u, value);
        PutStep(b, parents, key, u, value);
        var q := parents[0];
        var s := PutAt(Child(a, q).value, parents[1..], key, value).value;
        var r := RfcEdit(Child(b, q).value, parents[1..] + [u], AddEdit(value)).value;
        if p == q {
          PutsMeet(child, place[1..], x, y, lost, kept, parents[1..], key, u, value);
          OverwritesBelow(a, b, place, parents, key, u, value);
          SameChildTwice(doc, p, a', s);
          SameChildTwice(doc, p, b', r);
          SameChildTwice(doc, p, s, s);
          SameChildTwice(doc, p, r, r);
        } else {
          ChildAfter(a, q, s, p);
          ChildAfter(b, q, r, p);
        }
      }
    }
  }

  lemma {:induction false} OverwritesBelow(a: Doc, b: Doc, place: seq<string>, parents: seq<string>, key: string, u: string, value: Doc)
    requires place != [] && parents != [] && place[0] == parents[0]
    requires Child(a, place[0]).Some? && Child(b, place[0]).Some?
    ensures Overwrites(a, b, place, parents, key, u, value) <==>
      Overwrites(Child(a, place[0]).value, Child(b, place[0]).value, place[1..], parents[1..], key, u, value)
  {
    hide Child, Named;
    if parents < place {
      assert place[..|parents|] == parents && place[1..][..|parents| - 1] == parents[1..];
    }
    if parents[1..] < place[1..] {
      assert place[1..][..|parents| - 1] == parents[1..];
      assert place == [place[0]] + place[1..] && parents == [parents[0]] + parents[1..];
    }
  }

  lemma {:induction false} LostDiffer(x: Doc, y: Doc, lost: string, kept: string)
    requires Lost(x, y, lost, kept)
    ensures x != y
  {
  }

  /** The document after the source's half of a move that removes. */
  function AfterRemoval(doc: Doc, from: string): Option<Doc> {
    ModifiedField(doc, Scalar(0), from, Remove)
  }

  /** The same half as the standard has it. */
  function RfcRemoval(doc: Doc, from: string): Option<Doc> {
    var r := RfcAt(doc, from, RemoveEdit);
    if r.Done? then r.root else None
  }

  /** One half of the move fails in the source. */
  predicate Stuck(doc: Doc, from: string, path: string) {
    var middle := AfterRemoval(doc, from);
    middle.None? || Fails(middle.value, path, Upsert)
  }

  /** The target covers up that the halves removed different members. */
  predicate CoversUp(doc: Doc, from: string, path: string, value: Doc) {
    && IsPointer(from) && IsPointer(path) && LastSlash(from) >= 0 && LastSlash(path) >= 0
    && var a, b := AfterRemoval(doc, from), RfcRemoval(doc, from);
    var place, parents := ParsePointer(from[..LastSlash(from)]), ParsePointer(path[..LastSlash(path)]);
    var key := path[LastSlash(path) + 1..];
    && a.Some? && b.Some? && place.Some? && parents.Some? && Unescape(key).Some?
    && Overwrites(a.value, b.value, place.value, parents.value, key, Unescape(key).value, value)
  }

  lemma {:induction false} ObjectParent(doc: Doc, from: string)
    requires IsPointer(from) && LookUp(doc, from).Some? && '~' in from[LastSlash(from) + 1..]
    ensures var place, key := ParsePointer(from[..LastSlash(from)]), from[LastSlash(from) + 1..];
      && place.Some? && Unescape(key).Some? && key != Unescape(key).value
      && Resolve(doc, place.value).Some? && Resolve(doc, place.value).value.Obj?
      && Named(Resolve(doc, place.value).value.members, Unescape(key).value).Some?
  {
    hide Unescape, Tokens, UnescapeAll, Value, Resolve;
    var pos := LastSlash(from);
    var key := from[pos + 1..];
    PointerSplits(from);
    UnescapeChanges(key);
    UnescapedKeepsMark(key);
    var u := Unescape(key).value;
    NotDigits(u, if '~' in u then '~' else '/');
    var place := ParsePointer(from[..pos]).value;
    ResolveAppend(doc, place, [u]);
    OneStep(Resolve(doc, place).value, u);
  }

  /** The source takes away the member as it is spelled, the standard the unescaped one. */
  lemma {:induction false} TwoRemovals(doc: Doc, from: string)
    requires IsPointer(from) && LookUp(doc, from).Some? && '~' in from[LastSlash(from) + 1..]
    ensures ParsePointer(from[..LastSlash(from)]).Some? && RfcRemoval(doc, from).Some?
    ensures var place, key := ParsePointer(from[..LastSlash(from)]).value, from[LastSlash(from) + 1..];
      && Resolve(doc, place).Some? && Resolve(doc, place).value.Obj? && Unescape(key).Some?
      && var members, u := Resolve(doc, place).value.members, Unescape(key).value;
      var x, y := Obj(Without(members, key)), Obj(Without(members, u));
      && RfcRemoval(doc, from) == Some(WithValue(doc, place, y))
      && AfterRemoval(doc, from) == (if Named(members, key).None? then None else Some(WithValue(doc, place, x)))
      && (Named(members, key).Some? ==> Lost(x, y, key, u))
  {
    hide Unescape, Tokens, UnescapeAll, Resolve, WithValue, Without, RfcEdit, FirstOf, LookUp;
    ObjectParent(doc, from);
    var pos := LastSlash(from);
    var place, key := ParsePointer(from[..pos]).value, from[pos + 1..];
    var members, u := Resolve(doc, place).value.members, Unescape(key).value;
    PointerSplits(from);
    RfcIsLocal(doc, place, u, RemoveEdit);
    NamedWithout(members, key, key);
    NamedWithout(members, key, u);
    NamedWithout(members, u, key);
    NamedWithout(members, u, u);
    PointerHasSlash(from);
  }

  /** Both halves succeed both ways: the results are equal exactly if the target covers up. */
  lemma {:induction false} TildeMoveDone(doc: Doc, from: string, path: string, value: Doc)
    requires IsPointer(from) && LookUp(doc, from).Some? && '~' in from[LastSlash(from) + 1..]
    requires AfterRemoval(doc, from).Some? && RfcRemoval(doc, from).Some? && Bounded(AfterRemoval(doc, from).value, path)
    requires !Fails(AfterRemoval(doc, from).value, path, Upsert) && RfcAccepts(RfcRemoval(doc, from).value, path)
    ensures var r := RfcAt(RfcRemoval(doc, from).value, path, AddEdit(value));
      ModifiedRoot(AfterRemoval(doc, from), value, path, Upsert) == r <==> CoversUp(doc, from, path, value)
  {
    hide LookUp, ParsePointer, Unescape, Fails, Takes, Resolve, WithValue, RfcEdit, Lost, Overwrites, Edited, Without,
      ModifiedField, AfterRemoval, RfcRemoval, Named, Short;
    var a, b := AfterRemoval(doc, from).value, RfcRemoval(doc, from).value;
    FailsIsNone(a, value, path, Upsert);
    RfcAcceptsIsDone(b, path, value);
    TwoRemovals(doc, from);
    PutIsModified(a, path, value);
    AddIsEdit(b, path, value);
    var place, lost := ParsePointer(from[..LastSlash(from)]).value, from[LastSlash(from) + 1..];
    var members, kept := Resolve(doc, place).value.members, Unescape(lost).value;
    var parents, key := ParsePointer(path[..LastSlash(path)]).value, path[LastSlash(path) + 1..];
    PointerHasSlash(path);
    PointerHasSlash(from);
    PutsMeet(doc, place, Obj(Without(members, lost)), Obj(Without(members, kept)), lost, kept,
             parents, key, Unescape(key).value, value);
  }

  lemma {:induction false} PutIsModified(doc: Doc, path: string, value: Doc)
    requires IsPointer(path) && ParsePointer(path[..LastSlash(path)]).Some?
    ensures ModifiedField(doc, value, path, Upsert) ==
      PutAt(doc, ParsePointer(path[..LastSlash(path)]).value, path[LastSlash(path) + 1..], value)
  {
    hide ParsePointer, Edited, Resolve, WithValue;
    PointerHasSlash(path);
  }

  lemma {:induction false} AddIsEdit(doc: Doc, path: string, value: Doc)
    requires RfcAccepts(doc, path)
    ensures var parents, u := ParsePointer(path[..LastSlash(path)]), Unescape(path[LastSlash(path) + 1..]);
      && parents.Some? && u.Some?
      && var r := RfcEdit(doc, parents.value + [u.value], AddEdit(value));
      RfcAt(doc, path, AddEdit(value)) == if r.None? then Failed else Done(r)
  {
    hide Unescape, Tokens, UnescapeAll, Resolve, RfcEdit, Takes;
    PointerSplits(path);
  }

  // ---- Whole operations ----

  /** Arrays that an operation indexes are shorter than the largest index. */
  predicate ShortFor(doc: Doc, op: Op) {
    match op
    case Add(path, _) => Bounded(doc, path)
    case Delete(path) => Bounded(doc, path)
    case Replace(path, _) => Bounded(doc, path)
    case Copy(_, path) => Bounded(doc, path)
    case Move(from, path) =>
      Bounded(doc, from) && (AfterRemoval(doc, from).Some? ==> Bounded(AfterRemoval(doc, from).value, path))
    case _ => true
  }

  /** Copying from "" takes a member of that name, where the standard takes the whole document. */
  predicate CopyAgrees(doc: Doc, from: string, path: string) {
    if IsPointer(from) then LookUp(doc, from).None? || FieldMeets(doc, path, LookUp(doc, from).value, Upsert)
    else (FoundAt(Some(doc), from).None? || Fails(doc, path, Upsert)) && (from == "" ==> !RfcAccepts(doc, path))
  }

  predicate MoveAgrees(doc: Doc, from: string, path: string) {
    if !IsPointer(from) then FoundAt(Some(doc), from).None? || Stuck(doc, from, path)
    else if LookUp(doc, from).None? then true
    else if ProperPrefix(from, path) then Stuck(doc, from, path)
    else if '~' !in from[LastSlash(from) + 1..] then
      var middle := AfterRemoval(doc, from);
      middle.None? || FieldMeets(middle.value, path, LookUp(doc, from).value, Upsert)
    else
      var accepted := RfcRemoval(doc, from).Some? && RfcAccepts(RfcRemoval(doc, from).value, path);
      if Stuck(doc, from, path) then !accepted else accepted && CoversUp(doc, from, path, LookUp(doc, from).value)
  }

  /** The exact condition under which one operation does what the standard asks. */
  predicate Agrees(doc: Doc, op: Op) {
    match op
    case Add(path, value) => path == "" || FieldMeets(doc, path, value, Insert)
    case Delete(path) => path == "" || FieldMeets(doc, path, Scalar(0), Remove)
    case Replace(path, value) => path == "" || FieldMeets(doc, path, value, Update)
    case Copy(from, path) => CopyAgrees(doc, from, path)
    case Move(from, path) => MoveAgrees(doc, from, path)
    case Test(path, value) => LookUp(doc, path) == Some(value)
    case Unrecognised => false
    case Malformed => true
  }

  lemma {:induction false} NoPrefix(path: string)
    ensures FieldConcat(None, path) == if path == "" then None else Some(path)
  {
    assert "" + path == path;
  }

  /** What can be looked up is removed as the standard asks. */
  lemma {:induction false} FoundIsRemovable(doc: Doc, from: string)
    requires IsPointer(from) && ParentShort(doc, from) && LookUp(doc, from).Some?
    requires '~' !in from[LastSlash(from) + 1..]
    ensures FieldAgrees(doc, from, Scalar(0), Remove) && AfterRemoval(doc, from).Some?
  {
    hide Unescape, Tokens, UnescapeAll, Value, AllDigits;
    var pos := LastSlash(from);
    var key := from[pos + 1..];
    PointerSplits(from);
    UnescapeChanges(key);
    var path := ParsePointer(from[..pos]).value;
    ResolveAppend(doc, path, [key]);
    OneStep(Resolve(doc, path).value, key);
  }

  lemma {:induction false} PointersMeet(root: Option<Doc>, path: string)
    requires IsPointer(path)
    ensures FieldConcat(None, path) == Some(path)
    ensures root.Some? ==> FoundAt(root, path) == LookUp(root.value, path)
  {
    assert "" + path == path;
  }

  lemma {:induction false} CopyIff(doc: Doc, from: string, path: string)
    requires path != "" && Bounded(doc, path) && Defined(None, Copy(from, path))
    ensures Stepped(Some(doc), None, Copy(from, path)) == RfcStep(doc, Copy(from, path)) <==> CopyAgrees(doc, from, path)
  {
    hide ModifiedRoot, RfcAt, LookUp, FieldMeets, Bounded, Fails, RfcAccepts, FieldConcat, FoundAt;
    NoPrefix(path);
    var found := FoundAt(Some(doc), from);
    if IsPointer(from) {
      PointersMeet(Some(doc), from);
      if found.Some? {
        FieldMeetsIff(doc, found.value, path, Upsert);
      }
    } else {
      NoPointer(doc, from);
      RfcAcceptsIsDone(doc, path, doc);
      if found.Some? {
        FailsIsNone(doc, found.value, path, Upsert);
        EmptyNameDiffers(doc, found.value, path);
      }
    }
  }

  /** A text that is no pointer names a part of the document, and looks up nothing unless it is empty. */
  lemma {:induction false} NoPointer(doc: Doc, from: string)
    requires !IsPointer(from)
    ensures LookUp(doc, from) == if from == "" then Some(doc) else None
    ensures FoundAt(Some(doc), from).Some? ==> (doc decreases to FoundAt(Some(doc), from).value)
  {
    if FoundAt(Some(doc), from).Some? {
      ChildIsSmaller(doc, from);
    }
  }

  lemma {:induction false} StuckIsAfter(doc: Doc, from: string, path: string, value: Doc)
    requires path != ""
    ensures var after := AfterRemoval(doc, from);
      Stuck(doc, from, path) <==> after.None? || ModifiedRoot(after, value, path, Upsert).Failed?
  {
    hide ModifiedField, ModifiedRoot, Fails;
    if AfterRemoval(doc, from).Some? {
      FailsIsNone(AfterRemoval(doc, from).value, value, path, Upsert);
    }
  }

  lemma {:induction false} PlainMove(doc: Doc, from: string, path: string)
    requires path != "" && IsPointer(from) && LookUp(doc, from).Some? && '~' !in from[LastSlash(from) + 1..]
    requires ShortFor(doc, Move(from, path))
    ensures AfterRemoval(doc, from).Some? && RfcRemoval(doc, from) == AfterRemoval(doc, from)
    ensures var middle, value := AfterRemoval(doc, from).value, LookUp(doc, from).value;
      ModifiedRoot(Some(middle), value, path, Upsert) == RfcAt(middle, path, AddEdit(value)) <==>
      FieldMeets(middle, path, value, Upsert)
  {
    hide ModifiedField, RfcAt, LookUp, FieldMeets, FieldAgrees, ParentShort;
    FoundIsRemovable(doc, from);
    FieldIff(doc, Scalar(0), from, Remove);
    FieldMeetsIff(AfterRemoval(doc, from).value, LookUp(doc, from).value, path, Upsert);
  }

  lemma {:induction false} TildeMove(doc: Doc, from: string, path: string)
    requires path != "" && IsPointer(from) && LookUp(doc, from).Some? && '~' in from[LastSlash(from) + 1..]
    requires ShortFor(doc, Move(from, path))
    ensures RfcRemoval(doc, from).Some?
    ensures var value, after := LookUp(doc, from).value, AfterRemoval(doc, from);
      var accepted := RfcAccepts(RfcRemoval(doc, from).value, path);
      (if after.None? then Failed else ModifiedRoot(after, value, path, Upsert)) ==
        RfcAt(RfcRemoval(doc, from).value, path, AddEdit(value)) <==>
      if Stuck(doc, from, path) then !accepted else accepted && CoversUp(doc, from, path, value)
  {
    hide ModifiedRoot, RfcAt, LookUp, Fails, RfcAccepts, CoversUp, Bounded, AfterRemoval, RfcRemoval;
    TwoRemovals(doc, from);
    var value, after := LookUp(doc, from).value, AfterRemoval(doc, from);
    RfcAcceptsIsDone(RfcRemoval(doc, from).value, path, value);
    if after.Some? {
      FailsIsNone(after.value, value, path, Upsert);
      if !Fails(after.value, path, Upsert) && RfcAccepts(RfcRemoval(doc, from).value, path) {
        TildeMoveDone(doc, from, path, value);
      }
    }
  }

  /** The halves of a move, as the source and as the standard put them together. */
  lemma {:induction false} MoveHalves(doc: Doc, from: string, path: string)
    requires from != "" && path != ""
    ensures Defined(None, Move(from, path))
    ensures var found, after := FoundAt(Some(doc), from), AfterRemoval(doc, from);
      Stepped(Some(doc), None, Move(from, path)) ==
        if found.None? || after.None? then Failed else ModifiedRoot(after, found.value, path, Upsert)
    ensures RfcStep(doc, Move(from, path)) ==
      if LookUp(doc, from).None? || ProperPrefix(from, path) || RfcRemoval(doc, from).None? then Failed
      else RfcAt(RfcRemoval(doc, from).value, path, AddEdit(LookUp(doc, from).value))
  {
    hide ModifiedField, RfcAt, LookUp, ProperPrefix, FieldConcat, FoundAt;
    NoPrefix(path);
    NoPrefix(from);
  }

  lemma {:induction false} MoveIff(doc: Doc, from: string, path: string)
    requires from != "" && path != "" && ShortFor(doc, Move(from, path))
    ensures Defined(None, Move(from, path))
    ensures Stepped(Some(doc), None, Move(from, path)) == RfcStep(doc, Move(from, path)) <==> MoveAgrees(doc, from, path)
  {
    hide ModifiedRoot, ModifiedField, RfcAt, LookUp, FieldMeets, Fails, RfcAccepts, CoversUp, ProperPrefix, FoundAt,
      AfterRemoval, RfcRemoval, Stepped, RfcStep, Defined, Stuck, ShortFor;
    MoveHalves(doc, from, path);
    var found := FoundAt(Some(doc), from);
    if found.Some? {
      StuckIsAfter(doc, from, path, found.value);
    }
    if IsPointer(from) {
      PointersMeet(Some(doc), from);
      if found.Some? {
        if '~' in from[LastSlash(from) + 1..] {
          TildeMove(doc, from, path);
        } else {
          PlainMove(doc, from, path);
        }
      }
    } else {
      NoPointer(doc, from);
    }
  }

  /** One operation at the root does what the standard asks exactly under the condition. */
  lemma {:induction false} OpIff(doc: Doc, op: Op)
    requires Defined(None, op) && ShortFor(doc, op)
    ensures Stepped(Some(doc), None, op) == RfcStep(doc, op) <==> Agrees(doc, op)
  {
    hide ModifiedRoot, RfcEdit, LookUp, FieldMeets, Bounded, FoundAt, Resolve, Tokens, CopyAgrees, MoveAgrees, FieldConcat;
    match op {
      case Add(path, value) =>
        NoPrefix(path);
        if path != "" { FieldMeetsIff(doc, value, path, Insert); }
      case Delete(path) =>
        NoPrefix(path);
        if path != "" { FieldMeetsIff(doc, Scalar(0), path, Remove); }
      case Replace(path, value) =>
        NoPrefix(path);
        if path != "" { FieldMeetsIff(doc, value, path, Update); }
      case Copy(from, path) =>
        NoPrefix(path);
        CopyIff(doc, from, path);
      case Move(from, path) =>
        NoPrefix(path);
        NoPrefix(from);
        MoveIff(doc, from, path);
      case Test(_, _) =>
      case Unrecognised =>
      case Malformed =>
    }
  }

  /** Every operation meets its condition in the document it is applied to. */
  predicate AllAgree(doc: Doc, ops: seq<Op>)
    decreases ops
  {
    ops == [] || (
      && Defined(None, ops[0]) && ShortFor(doc, ops[0]) && Agrees(doc, ops[0])
      && var r := RfcStep(doc, ops[0]);
      (r.Done? && r.root.Some? ==> AllAgree(r.root.value, ops[1..]))
      && (r.Done? && r.root.None? ==> |ops| == 1))
  }

  /** A root-level patch whose operations meet their conditions gives the result of RFC 6902, or its failure. */
  lemma {:induction false} PatchAgrees(doc: Doc, ops: seq<Op>)
    requires AllAgree(doc, ops) && forall i :: 0 <= i < |ops| ==> Defined(None, ops[i])
    ensures Patched(Some(doc), None, ops) == RfcPatched(doc, ops)
    decreases ops
  {
    hide Stepped, RfcStep, Agrees, ShortFor, Defined;
    if ops != [] {
      OpIff(doc, ops[0]);
      var r := RfcStep(doc, ops[0]);
      if r.Done? {
        if r.root.Some? {
          PatchAgrees(r.root.value, ops[1..]);
        } else {
          assert ops[1..] == [];
        }
      }
    }
  }

  // ---- What a copy, a move and a skipped operation leave ----

  /** The value a text names: a pointer leads to it, anything else is the name of a member of the root. */
  function SourceOf(doc: Doc, from: string): Option<Doc> {
    if IsPointer(from) then LookUp(doc, from) else if doc.Obj? then Named(doc.members, from) else None
  }

  /** The last token of the target has no tilde and names a place where the document can hold a value. */
  ghost predicate Receives(doc: Doc, path: string) {
    && IsPointer(path) && '~' !in path[LastSlash(path) + 1..]
    && ParentOf(doc, path).Some? && Short(ParentOf(doc, path).value)
    && Lands(ParentOf(doc, path).value, path[LastSlash(path) + 1..])
  }

  lemma {:induction false} PutIsFound(doc: Doc, value: Doc, path: string)
    requires Receives(doc, path)
    ensures var r := ModifiedRoot(Some(doc), value, path, Upsert);
      r.Done? && r.root.Some? && LookUp(r.root.value, path) == Some(value)
  {
    hide Resolve, WithValue, ParsePointer, LookUp, Edited, Lands, Short;
    PointerHasSlash(path);
    UpsertedChild(ParentOf(doc, path).value, path[LastSlash(path) + 1..], value, "");
    UpsertThenLookUp(doc, value, path, Upsert);
  }

  /** After a copy the target holds the value of the source; without one the copy fails. */
  lemma {:induction false} CopyLands(doc: Doc, from: string, path: string)
    requires Receives(doc, path)
    ensures Defined(None, Copy(from, path))
    ensures var r := Stepped(Some(doc), None, Copy(from, path));
      if SourceOf(doc, from).None? then r.Failed?
      else r.Done? && r.root.Some? && LookUp(r.root.value, path) == SourceOf(doc, from)
  {
    hide ModifiedRoot, LookUp, Receives;
    assert path != "" by { ReceivesPointer(doc, path); }
    NoPrefix(path);
    if SourceOf(doc, from).Some? {
      PutIsFound(doc, SourceOf(doc, from).value, path);
    }
  }

  lemma {:induction false} ReceivesPointer(doc: Doc, path: string)
    requires Receives(doc, path)
    ensures IsPointer(path)
  {
  }

  /** After a move the target holds the value of the source. */
  lemma {:induction false} MoveLands(doc: Doc, from: string, path: string)
    requires from != "" && AfterRemoval(doc, from).Some? && Receives(AfterRemoval(doc, from).value, path)
    ensures Defined(None, Move(from, path))
    ensures var r := Stepped(Some(doc), None, Move(from, path));
      if SourceOf(doc, from).None? then r.Failed?
      else r.Done? && r.root.Some? && LookUp(r.root.value, path) == SourceOf(doc, from)
  {
    hide ModifiedRoot, LookUp, Receives, AfterRemoval;
    assert path != "" by { ReceivesPointer(AfterRemoval(doc, from).value, path); }
    MoveHalves(doc, from, path);
    if SourceOf(doc, from).Some? {
      PutIsFound(AfterRemoval(doc, from).value, SourceOf(doc, from).value, path);
    }
  }

  /** Once the whole document is removed, every operation at a place in it fails. */
  lemma {:induction false} NothingLeft(op: Op)
    requires Defined(None, op) && (op.Add? || op.Delete? || op.Replace? || op.Copy? || op.Move?) && op.path != ""
    ensures Patched(Some(Scalar(0)), None, [Delete(""), op]) == Failed
  {
    var ops := [Delete(""), op];
    assert ops[1..] == [op] && [op][1..] == [];
    NoPrefix("");
    NoPrefix(op.path);
  }

  /** Tests and operations that are not recognised leave the document alone, whether a test holds or not. */
  lemma {:induction false} SkippedOperations(root: Option<Doc>, field: Option<string>, ops: seq<Op>)
    requires forall i :: 0 <= i < |ops| ==> ops[i].Test? || ops[i].Unrecognised?
    ensures forall i :: 0 <= i < |ops| ==> Defined(field, ops[i])
    ensures Patched(root, field, ops) == Done(root)
    decreases ops
  {
    if ops != [] {
      SkippedOperations(root, field, ops[1..]);
    }
  }

  // ---- Inputs on which they differ ----

  lemma {:induction false} OneToken(doc: Doc, key: string)
    requires '/' !in key
    ensures var field := "/" + key;
      IsPointer(field) && LastSlash(field) == 0 && field[1..] == key && ParentOf(doc, field) == Some(doc)
  {
    var field := "/" + key;
    assert field[1..] == key;
    assert forall i :: 0 < i < |field| ==> field[i] == key[i - 1];
  }

  lemma {:induction false} OneTokenEdit(doc: Doc, key: string, value: Doc, mode: Mode)
    requires '/' !in key
    ensures FieldConcat(None, "/" + key) == Some("/" + key)
    ensures var r := Edited(doc, key, value, mode);
      ModifiedRoot(Some(doc), value, "/" + key, mode) == if r.None? then Failed else Done(r)
  {
    hide Edited;
    OneToken(doc, key);
    PointersMeet(None, "/" + key);
  }

  /** Adding a member that exists doubles it, instead of replacing its value (section 4.1). */
  lemma {:induction false} AddDoublesMember()
    ensures var doc, op := Obj([Member("a", Scalar(1))]), Add("/a", Scalar(2));
      && Stepped(Some(doc), None, op) == Done(Some(Obj([Member("a", Scalar(1)), Member("a", Scalar(2))])))
      && Stepped(Some(doc), None, op) != RfcStep(doc, op)
  {
    hide ModifiedRoot, RfcStep, FieldConcat, ParentOf, LastSlash, IsPointer;
    var doc := Obj([Member("a", Scalar(1))]);
    assert "/a" == "/" + "a";
    OneToken(doc, "a");
    OneTokenEdit(doc, "a", Scalar(2), Insert);
    assert doc.members + [Member("a", Scalar(2))] == [Member("a", Scalar(1)), Member("a", Scalar(2))];
    assert !FieldAgrees(doc, "/a", Scalar(2), Insert);
    OpIff(doc, Add("/a", Scalar(2)));
  }

  /** Copying onto an element overwrites it, instead of inserting before it (section 4.5). */
  lemma {:induction false} CopyOverwritesElement()
    ensures var doc, op := Arr([Scalar(1), Scalar(2)]), Copy("/0", "/1");
      Defined(None, op) && Stepped(Some(doc), None, op) != RfcStep(doc, op)
  {
    var doc := Arr([Scalar(1), Scalar(2)]);
    assert "/0" == "/" + "0" && "/1" == "/" + "1" && "/0"[1..] == "0" && "/1"[1..] == "1";
    OneToken(doc, "0");
    OneToken(doc, "1");
    DigitTokens();
    PointerSplits("/0");
    UnescapeChanges("0");
    assert [] + ["0"] == ["0"];
    OneStep(doc, "0");
    assert LookUp(doc, "/0") == Some(Scalar(1));
    assert !Agrees(doc, Copy("/0", "/1"));
    OpIff(doc, Copy("/0", "/1"));
  }

  /** Copying the whole document below itself copies the member called "" (section 4.5). */
  lemma {:induction false} CopyTakesEmptyName()
    ensures var doc, op := Obj([Member("", Scalar(1))]), Copy("", "/a");
      && Defined(None, op)
      && Stepped(Some(doc), None, op) == Done(Some(Obj([Member("", Scalar(1)), Member("a", Scalar(1))])))
      && RfcStep(doc, op) == Done(Some(Obj([Member("", Scalar(1)), Member("a", doc)])))
  {
    hide ModifiedRoot, RfcAt, FieldConcat, Unescape;
    var doc := Obj([Member("", Scalar(1))]);
    assert "/a" == "/" + "a" && '/' !in "a" && "" != "a";
    NoPrefix("/a");
    UnescapeChanges("a");
    OneTokenEdit(doc, "a", Scalar(1), Upsert);
    OneTokenRfc(doc, "a", "a", AddEdit(doc));
    NoPointer(doc, "");
    assert doc.members[1..] == [];
    assert doc.members + [Member("a", Scalar(1))] == [Member("", Scalar(1)), Member("a", Scalar(1))];
    assert doc.members + [Member("a", doc)] == [Member("", Scalar(1)), Member("a", doc)];
  }

  lemma {:induction false} DigitTokens()
    ensures IsIndex("0") && Value("0", 10) == 0 && AllDigits("1", 10) && Value("1", 10) == 1
  {
    assert "0"[..0] == "" && "1"[..0] == "";
    assert Value("", 10) == 0;
  }

  /** Removing the position past the end removes the first element, instead of failing (section 4.2). */
  lemma {:induction false} DashRemovesFirst()
    ensures var doc, op := Arr([Scalar(1), Scalar(2)]), Delete("/-");
      && Stepped(Some(doc), None, op) == Done(Some(Arr([Scalar(2)])))
      && Stepped(Some(doc), None, op) != RfcStep(doc, op)
  {
    hide ModifiedRoot, RfcStep, FieldConcat, ParentOf, LastSlash, IsPointer, AllDigits;
    var doc := Arr([Scalar(1), Scalar(2)]);
    assert "/-" == "/" + "-";
    OneToken(doc, "-");
    OneTokenEdit(doc, "-", Scalar(0), Remove);
    Dash();
    assert doc.items[..0] + doc.items[1..] == [Scalar(2)];
    assert !FieldAgrees(doc, "/-", Scalar(0), Remove);
    OpIff(doc, Delete("/-"));
  }

  lemma {:induction false} OneTokenRfc(doc: Doc, key: string, u: string, e: Edit)
    requires '/' !in key && Unescape(key) == Some(u)
    ensures LookUp(doc, "/" + key) == Child(doc, u)
    ensures var r := RfcHere(doc, u, e); RfcAt(doc, "/" + key, e) == if r.None? then Failed else Done(r)
  {
    hide RfcHere, Child, Unescape;
    var field := "/" + key;
    OneToken(doc, key);
    PointerSplits(field);
    assert field[..0] == "" && [] + [u] == [u];
    OneStep(doc, u);
    RfcIsLocal(doc, [], u, e);
  }

  /** Moving `a~1b` copies the member `a/b` but removes the one spelled `a~1b`. */
  lemma {:induction false} MoveRemovesAnother()
    ensures var doc, op := Obj([Member("a/b", Scalar(1)), Member("a~1b", Scalar(2))]), Move("/a~1b", "/c");
      && Defined(None, op)
      && Stepped(Some(doc), None, op) == Done(Some(Obj([Member("a/b", Scalar(1)), Member("c", Scalar(1))])))
      && RfcStep(doc, op) == Done(Some(Obj([Member("a~1b", Scalar(2)), Member("c", Scalar(1))])))
  {
    hide ModifiedRoot, RfcAt, FieldConcat, LookUp, Unescape, FoundAt, ParsePointer;
    var a, b, c := Member("a/b", Scalar(1)), Member("a~1b", Scalar(2)), Member("c", Scalar(1));
    var doc := Obj([a, b]);
    Spellings();
    UnescapeTilde();
    UnescapeChanges("c");
    PointersMeet(Some(doc), "/a~1b");
    PointersMeet(Some(doc), "/c");
    OneTokenRfc(doc, "a~1b", "a/b", RemoveEdit);
    OneTokenRfc(Obj([b]), "c", "c", AddEdit(Scalar(1)));
    OneTokenEdit(doc, "a~1b", Scalar(0), Remove);
    OneTokenEdit(Obj([a]), "c", Scalar(1), Upsert);
    TwoMembers(a, b);
    assert [a] + [c] == [a, c] && [b] + [c] == [b, c];
    NotAbove();
  }

  lemma {:induction false} Spellings()
    ensures "/a~1b" == "/" + "a~1b" && "/c" == "/" + "c" && '/' !in "a~1b" && '/' !in "c"
    ensures "a/b" != "a~1b" && "c" != "a/b" && "c" != "a~1b" && '~' !in "c"
    ensures IsPointer("/a~1b") && IsPointer("/c")
  {
    assert |"a/b"| == 3 && |"a~1b"| == 4 && |"c"| == 1;
  }

  lemma {:induction false} TwoMembers(a: Member, b: Member)
    requires a.key != b.key
    ensures Without([a, b], a.key) == [b] && Without([a, b], b.key) == [a]
    ensures Named([a, b], a.key) == Some(a.value) && FirstOf([a, b], b.key) == 1
  {
    assert [a, b][1..] == [b] && [b][1..] == [];
    assert [] + [b] == [b] && [a] + [] == [a];
    assert Without([b], a.key) == [b] && Without([b], b.key) == [];
  }

  lemma {:induction false} NotAbove()
    ensures !ProperPrefix("/a~1b", "/c")
  {
    Spellings();
    UnescapeTilde();
    UnescapeChanges("c");
    OneToken(Obj([]), "a~1b");
    OneToken(Obj([]), "c");
    PointerSplits("/a~1b");
    PointerSplits("/c");
    assert [] + ["a/b"] == ["a/b"] && [] + ["c"] == ["c"];
  }
}
