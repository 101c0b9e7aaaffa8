/**
JSON Patch over one document (`src/modality_docs.cpp`) against RFC 6902, operation by
operation and as a whole. Operations are taken after their members were read: one whose
members are missing or too many is malformed, one with another name is unrecognised.
*/
module DocPatch {
  import opened Store
  import opened Numbers
  import opened Documents

  datatype Op =
    | Add(path: string, value: Doc)
    | Delete(path: string)
    | Replace(path: string, value: Doc)
    | Copy(from: string, path: string)
    | Move(from: string, path: string)
    | Test(path: string, value: Doc)
    | Unrecognised
    | Malformed

  /** A failed patch leaves no document; removing the root leaves an absent one. */
  datatype Outcome = Failed | Done(root: Option<Doc>)

  // ---- What the source does ----

  /** The prefix and the path of an operation; nothing when both are empty. */
  function FieldConcat(field: Option<string>, suffix: string): Option<string> {
    var whole := (if field.Some? then field.value else "") + suffix;
    if whole == "" then None else Some(whole)
  }

  function ModifiedRoot(root: Option<Doc>, value: Doc, field: string, mode: Mode): Outcome {
    if root.None? then Failed else
      var r := ModifiedField(root.value, value, field, mode);
      if r.None? then Failed else Done(r)
  }

  /** A text that does not start with a slash is the name of a member. */
  function FoundAt(root: Option<Doc>, field: string): Option<Doc> {
    if root.None? then None
    else if field != "" && field[0] == '/' then LookUp(root.value, field)
    else if root.value.Obj? then Named(root.value.members, field)
    else None
  }

  /** Copying to and moving from or to the whole document is not defined in the source. */
  predicate Defined(field: Option<string>, op: Op) {
    match op
    case Copy(_, path) => FieldConcat(field, path).Some?
    case Move(from, path) => FieldConcat(field, path).Some? && FieldConcat(field, from).Some?
    case _ => true
  }

  function Stepped(root: Option<Doc>, field: Option<string>, op: Op): Outcome
    requires Defined(field, op)
  {
    match op
    case Add(path, value) =>
      var nested := FieldConcat(field, path);
      if nested.None? then Done(Some(value)) else ModifiedRoot(root, value, nested.value, Insert)
    case Delete(path) =>
      var nested := FieldConcat(field, path);
      if nested.None? then Done(None) else ModifiedRoot(root, Scalar(0), nested.value, Remove)
    case Replace(path, value) =>
      var nested := FieldConcat(field, path);
      if nested.None? then Done(Some(value)) else ModifiedRoot(root, value, nested.value, Update)
    case Copy(from, path) =>
      var value := FoundAt(root, from);
      if value.None? then Failed else ModifiedRoot(root, value.value, FieldConcat(field, path).value, Upsert)
    case Move(from, path) =>
      var value := FoundAt(root, from);
      if value.None? then Failed else
        var removed := ModifiedRoot(root, Scalar(0), FieldConcat(field, from).value, Remove);
        if removed.Failed? then Failed
        else ModifiedRoot(removed.root, value.value, FieldConcat(field, path).value, Upsert)
    case Test(_, _) => Done(root)
    case Unrecognised => Done(root)
    case Malformed => Failed
  }

  function Patched(root: Option<Doc>, field: Option<string>, ops: seq<Op>): Outcome
    requires forall i :: 0 <= i < |ops| ==> Defined(field, ops[i])
    decreases ops
  {
    if ops == [] then Done(root) else
      var r := Stepped(root, field, ops[0]);
      if r.Failed? then Failed else Patched(r.root, field, ops[1..])
  }

  class EditedDocument {
    var root: Option<Doc>
    var failed: bool

    constructor (doc: Option<Doc>)
      ensures root == doc && !failed
    {
      root, failed := doc, false;
    }

    ghost function Outcome(): Outcome
      reads this
    {
      if failed then Failed else Done(root)
    }

    /** Edits the parent of the field in place; an error leaves the document alone. */
    method ModifyField(value: Doc, field: string, mode: Mode)
      requires !failed
      modifies this
      ensures Outcome() == ModifiedRoot(old(root), value, field, mode)
    {
      var pos := LastSlash(field);
      if root.None? || pos == -1 {
        failed := true;
        return;
      }
      var path := ParentPath(root.value, field, pos);
      if path.None? || Resolve(root.value, path.value).None? {
        failed := true;
        return;
      }
      var edited := Edited(Resolve(root.value, path.value).value, field[pos + 1..], value, mode);
      if edited.None? {
        failed := true;
        return;
      }
      root := Some(WithValue(root.value, path.value, edited.value));
    }

    method ModifyOrSet(value: Option<Doc>, nested: Option<string>, mode: Mode)
      requires !failed
      modifies this
      ensures Outcome() ==
        if nested.None? then Done(value)
        else ModifiedRoot(old(root), if value.Some? then value.value else Scalar(0), nested.value, mode)
    {
      if nested.None? {
        root := value;
      } else {
        ModifyField(if value.Some? then value.value else Scalar(0), nested.value, mode);
      }
    }

    /** One operation; one that comes after an error changes nothing. */
    method ApplyOp(field: Option<string>, op: Op)
      requires Defined(field, op)
      modifies this
      ensures old(failed) ==> failed && root == old(root)
      ensures !old(failed) ==> Outcome() == Stepped(old(root), field, op)
    {
      if failed {
        return;
      }
      match op {
        case Add(path, value) => ModifyOrSet(Some(value), FieldConcat(field, path), Insert);
        case Delete(path) => ModifyOrSet(None, FieldConcat(field, path), Remove);
        case Replace(path, value) => ModifyOrSet(Some(value), FieldConcat(field, path), Update);
        case Copy(from, path) =>
          var value := FoundAt(root, from);
          if value.None? {
            failed := true;
          } else {
            ModifyField(value.value, FieldConcat(field, path).value, Upsert);
          }
        case Move(from, path) =>
          var value := FoundAt(root, from);
          if value.None? {
            failed := true;
            return;
          }
          ModifyField(Scalar(0), FieldConcat(field, from).value, Remove);
          if !failed {
            ModifyField(value.value, FieldConcat(field, path).value, Upsert);
          }
        case Test(_, _) =>
        case Unrecognised =>
        case Malformed => failed := true;
      }
    }

    /** Applies the operations in order; the first error decides the outcome. */
    method Patch(field: Option<string>, ops: seq<Op>)
      requires !failed && forall i :: 0 <= i < |ops| ==> Defined(field, ops[i])
      modifies this
      ensures Outcome() == Patched(old(root), field, ops)
    {
      ghost var start := root;
      for i := 0 to |ops|
        invariant (if failed then Failed else Patched(root, field, ops[i..])) == Patched(start, field, ops)
      {
        assert ops[i..][0] == ops[i] && ops[i..][1..] == ops[i + 1..];
        ApplyOp(field, ops[i]);
      }
    }
  }

  // ---- What RFC 6902 asks for ----

  datatype Edit = AddEdit(value: Doc) | RemoveEdit | ReplaceEdit(value: Doc)

  /** The operation at its own location. */
  function RfcHere(parent: Doc, t: string, e: Edit): Option<Doc> {
    match e
    case AddEdit(value) =>
      (match parent
       case Obj(members) =>
         if Named(members, t).Some? then Some(WithChild(parent, t, value)) else Some(Obj(members + [Member(t, value)]))
       case Arr(items) =>
         if t == "-" then Some(Arr(items + [value]))
         else if IsIndex(t) && Value(t, 10) <= |items| then
           Some(Arr(items[..Value(t, 10)] + [value] + items[Value(t, 10)..]))
         else None
       case Scalar(_) => None)
    case RemoveEdit =>
      if Child(parent, t).None? then None
      else if parent.Obj? then Some(Obj(Without(parent.members, t)))
      else if parent.Arr? then Some(Arr(parent.items[..Value(t, 10)] + parent.items[Value(t, 10) + 1..]))
      else None
    case ReplaceEdit(value) => if Child(parent, t).None? then None else Some(WithChild(parent, t, value))
  }

  /** The operation at the end of a path, rebuilding the document on the way back. */
  function RfcEdit(doc: Doc, path: seq<string>, e: Edit): Option<Doc>
    requires path != []
    decreases |path|
  {
    if |path| == 1 then RfcHere(doc, path[0], e) else
      var child := Child(doc, path[0]);
      if child.None? then None else
        var edited := RfcEdit(child.value, path[1..], e);
        if edited.None? then None else Some(WithChild(doc, path[0], edited.value))
  }

  function RfcAt(doc: Doc, pointer: string, e: Edit): Outcome {
    var path := ParsePointer(pointer);
    if path.None? then Failed
    else if path.value == [] then
      (match e case AddEdit(v) => Done(Some(v)) case RemoveEdit => Done(None) case ReplaceEdit(v) => Done(Some(v)))
    else
      var r := RfcEdit(doc, path.value, e);
      if r.None? then Failed else Done(r)
  }

  /** Sections 4.1 to 4.6; section 4 makes any other operation an error. */
  function RfcStep(doc: Doc, op: Op): Outcome {
    match op
    case Add(path, value) => RfcAt(doc, path, AddEdit(value))
    case Delete(path) => RfcAt(doc, path, RemoveEdit)
    case Replace(path, value) => RfcAt(doc, path, ReplaceEdit(value))
    case Copy(from, path) =>
      var value := LookUp(doc, from);
      if value.None? then Failed else RfcAt(doc, path, AddEdit(value.value))
    case Move(from, path) =>
      var value := LookUp(doc, from);
      if value.None? || ProperPrefix(from, path) then Failed else
        var removed := RfcAt(doc, from, RemoveEdit);
        if removed.Failed? || removed.root.None? then Failed
        else RfcAt(removed.root.value, path, AddEdit(value.value))
    case Test(path, value) => if LookUp(doc, path) == Some(value) then Done(Some(doc)) else Failed
    case Unrecognised => Failed
    case Malformed => Failed
  }

  /** Section 4.4: the source of a move may not lie above its target. */
  predicate ProperPrefix(from: string, path: string) {
    var f, p := ParsePointer(from), ParsePointer(path);
    f.Some? && p.Some? && f.value < p.value
  }

  function RfcPatched(doc: Doc, ops: seq<Op>): Outcome
    decreases ops
  {
    if ops == [] then Done(Some(doc)) else
      var r := RfcStep(doc, ops[0]);
      if r.Failed? then Failed
      else if r.root.None? then (if |ops| == 1 then r else Failed)
      else RfcPatched(r.root.value, ops[1..])
  }

  // ---- Where the two agree ----

  /** The exact condition on one parent and a last token that needs no unescaping. */
  predicate AgreesPlain(parent: Doc, key: string, mode: Mode) {
    match parent
    case Scalar(_) => false
    case Obj(members) => mode == Insert ==> Named(members, key).None?
    case Arr(items) =>
      var fits := IsIndex(key) && Value(key, 10) < U64;
      var nothing := !AllDigits(key, 10) && key != "-";
      match mode
      case Insert => fits || key == "-" || nothing || FromChars(key) > |items|
      case Remove => fits || nothing || FromChars(key) >= |items|
      case Update => fits || nothing || FromChars(key) >= |items|
      case Upsert => nothing || (IsIndex(key) && Value(key, 10) == |items|) || (key == "-" && items == [])
  }

  /**
  The exact condition for a last token with a tilde, which the source takes as it is spelled:
  neither spelling names a member, or both already hold the value.
  */
  predicate AgreesTilde(parent: Doc, key: string, value: Doc, mode: Mode) {
    match parent
    case Scalar(_) => false
    case Arr(_) => true
    case Obj(members) =>
      var u := Unescape(key);
      var neither := Named(members, key).None? && (u.None? || Named(members, u.value).None?);
      var both := u.Some? && Named(members, key) == Some(value) && Named(members, u.value) == Some(value);
      match mode
      case Insert => false
      case Remove => neither
      case Update => neither || both
      case Upsert => both
  }

  predicate AgreesHere(parent: Doc, key: string, value: Doc, mode: Mode) {
    if '~' in key then AgreesTilde(parent, key, value, mode) else AgreesPlain(parent, key, mode)
  }

  /** The standard unescapes the token, and fails on a wrong escape. */
  function RfcToken(parent: Doc, key: string, e: Edit): Option<Doc> {
    if Unescape(key).None? then None else RfcHere(parent, Unescape(key).value, e)
  }

  function EditOf(mode: Mode, value: Doc): Edit {
    match mode
    case Insert => AddEdit(value)
    case Remove => RemoveEdit
    case Update => ReplaceEdit(value)
    case Upsert => AddEdit(value)
  }

  lemma {:induction false} ArraysAgree(items: seq<Doc>, key: string, value: Doc, mode: Mode)
    requires |items| < U64
    ensures EditedArray(items, key, value, mode) == RfcHere(Arr(items), key, EditOf(mode, value)) <==>
      AgreesPlain(Arr(items), key, mode)
  {
    hide Value, AllDigits;
    assert !AllDigits("-", 10) by { Dash(); }
    if mode == Insert || mode == Upsert {
      assert items[..|items|] + [value] + items[|items|..] == items + [value];
    }
  }

  lemma {:induction false} Dash()
    ensures !AllDigits("-", 10)
  {
    assert DigitOf("-"[0]) == 16;
  }

  lemma {:induction false} ObjectsAgree(members: seq<Member>, key: string, value: Doc, mode: Mode)
    ensures EditedObject(members, key, value, mode) == RfcHere(Obj(members), key, EditOf(mode, value)) <==>
      AgreesPlain(Obj(members), key, mode)
  {
    hide Without;
    var k := FirstOf(members, key);
    if mode == Insert && k < |members| {
      assert |members + [Member(key, value)]| != |members[k := Member(key, value)]|;
      assert WithChild(Obj(members), key, value).members == members[k := Member(key, value)];
    }
  }

  lemma {:induction false} UnescapedKeepsMark(t: string)
    requires '~' in t && Unescape(t).Some?
    ensures '~' in Unescape(t).value || '/' in Unescape(t).value
  {
    if t[0] != '~' {
      assert t == [t[0]] + t[1..];
      UnescapedKeepsMark(t[1..]);
    }
  }

  lemma {:induction false} TildeInArray(items: seq<Doc>, key: string, value: Doc, mode: Mode)
    requires '~' in key
    ensures EditedArray(items, key, value, mode) == None && RfcToken(Arr(items), key, EditOf(mode, value)) == None
  {
    NotDigits(key, '~');
    if Unescape(key).Some? {
      UnescapedKeepsMark(key);
      NotDigits(Unescape(key).value, if '~' in Unescape(key).value then '~' else '/');
    }
  }

  lemma {:induction false} NotDigits(t: string, c: char)
    requires c in t && (c == '~' || c == '/')
    ensures !AllDigits(t, 10) && t != "-"
  {
    var i :| 0 <= i < |t| && t[i] == c;
    assert DigitOf(t[i]) == 16;
  }

  lemma {:induction false} TwoReplacements(members: seq<Member>, j: nat, k: nat, a: Member, b: Member)
    requires j < |members| && k < |members| && j != k
    ensures members[j := a] == members[k := b] <==> members[j] == a && members[k] == b
  {
    if members[j := a] == members[k := b] {
      assert members[j := a][j] == members[k := b][j] && members[j := a][k] == members[k := b][k];
    }
  }

  lemma {:induction false} RemovedStays(members: seq<Member>, key: string, other: string)
    requires key != other && Named(members, key).Some?
    ensures Without(members, key) != Without(members, other)
  {
    NamedWithout(members, key, key);
    NamedWithout(members, other, key);
  }

  lemma {:induction false} TildeInObject(members: seq<Member>, key: string, value: Doc, mode: Mode)
    requires '~' in key
    ensures EditedObject(members, key, value, mode) == RfcToken(Obj(members), key, EditOf(mode, value)) <==>
      AgreesTilde(Obj(members), key, value, mode)
  {
    hide Without, Unescape;
    UnescapeChanges(key);
    if Unescape(key).Some? {
      var u := Unescape(key).value;
      var j, k := FirstOf(members, key), FirstOf(members, u);
      if j < |members| && k < |members| {
        TwoReplacements(members, j, k, Member(key, value), Member(u, value));
        RemovedStays(members, key, u);
      }
      assert (members + [Member(key, value)])[|members|] != (members + [Member(u, value)])[|members|];
    }
  }

  /** At one location the source does what the standard asks exactly under the condition. */
  lemma {:induction false} HereAgrees(parent: Doc, key: string, value: Doc, mode: Mode)
    requires Short(parent)
    ensures Edited(parent, key, value, mode) == RfcToken(parent, key, EditOf(mode, value)) <==>
      AgreesHere(parent, key, value, mode)
  {
    hide EditedArray, EditedObject, RfcHere, AgreesPlain, AgreesTilde, Unescape;
    UnescapeChanges(key);
    match parent {
      case Arr(items) =>
        if '~' in key { TildeInArray(items, key, value, mode); ArrayWithTilde(items, key, value, mode); }
        else { ArraysAgree(items, key, value, mode); }
      case Obj(members) =>
        if '~' in key { TildeInObject(members, key, value, mode); } else { ObjectsAgree(members, key, value, mode); }
      case Scalar(_) => ScalarsDiffer(parent, key, value, mode);
    }
  }

  lemma {:induction false} ArrayWithTilde(items: seq<Doc>, key: string, value: Doc, mode: Mode)
    ensures AgreesTilde(Arr(items), key, value, mode)
  {
  }

  lemma {:induction false} ScalarsDiffer(parent: Doc, key: string, value: Doc, mode: Mode)
    requires parent.Scalar?
    ensures RfcToken(parent, key, EditOf(mode, value)) == None && !AgreesHere(parent, key, value, mode)
  {
    hide Unescape;
  }

  /** Editing at the end of a path is editing the parent, wherever it is. */
  lemma {:induction false} RfcIsLocal(doc: Doc, path: seq<string>, t: string, e: Edit)
    ensures RfcEdit(doc, path + [t], e) ==
      if Resolve(doc, path).None? || RfcHere(Resolve(doc, path).value, t, e).None? then None
      else Some(WithValue(doc, path, RfcHere(Resolve(doc, path).value, t, e).value))
    decreases |path|
  {
    hide RfcHere, Child, WithChild;
    if path == [] {
      assert path + [t] == [t];
    } else {
      assert (path + [t])[1..] == path[1..] + [t] && (path + [t])[0] == path[0];
      var child := Child(doc, path[0]);
      if child.Some? {
        RfcIsLocal(child.value, path[1..], t, e);
      }
    }
  }

  lemma {:induction false} ValueIsKept(doc: Doc, path: seq<string>, a: Doc, b: Doc)
    requires Resolve(doc, path).Some? && WithValue(doc, path, a) == WithValue(doc, path, b)
    ensures a == b
  {
    ResolveBelow(doc, path, a, []);
    ResolveBelow(doc, path, b, []);
    assert Resolve(a, []) == Some(a) && Resolve(b, []) == Some(b);
  }

  predicate IsPointer(s: string) {
    s != "" && s[0] == '/'
  }

  function ParentOf(doc: Doc, field: string): Option<Doc>
    requires IsPointer(field)
  {
    var path := ParsePointer(field[..LastSlash(field)]);
    if path.None? then None else Resolve(doc, path.value)
  }

  /** The exact condition on a document and a pointer. */
  predicate FieldAgrees(doc: Doc, field: string, value: Doc, mode: Mode)
    requires IsPointer(field)
  {
    var parent := ParentOf(doc, field);
    parent.None? || AgreesHere(parent.value, field[LastSlash(field) + 1..], value, mode)
  }

  predicate ParentShort(doc: Doc, field: string)
    requires IsPointer(field)
  {
    var parent := ParentOf(doc, field);
    parent.None? || Short(parent.value)
  }

  /** At the end of a pointer the source does what the standard asks exactly under the condition. */
  lemma {:induction false} FieldIff(doc: Doc, value: Doc, field: string, mode: Mode)
    requires IsPointer(field) && ParentShort(doc, field)
    ensures ModifiedRoot(Some(doc), value, field, mode) == RfcAt(doc, field, EditOf(mode, value)) <==>
      FieldAgrees(doc, field, value, mode)
  {
    hide AgreesHere, Edited, RfcHere, Unescape, Tokens, UnescapeAll, Resolve, WithValue, RfcEdit;
    var pos := LastSlash(field);
    var key := field[pos + 1..];
    PointerSplits(field);
    var path, last := ParsePointer(field[..pos]), Unescape(key);
    if path.Some? {
      if last.Some? {
        RfcIsLocal(doc, path.value, last.value, EditOf(mode, value));
      }
      var parent := Resolve(doc, path.value);
      if parent.Some? {
        HereAgrees(parent.value, key, value, mode);
        var a, b := Edited(parent.value, key, value, mode), RfcToken(parent.value, key, EditOf(mode, value));
        if a.Some? && b.Some? && WithValue(doc, path.value, a.value) == WithValue(doc, path.value, b.value) {
          ValueIsKept(doc, path.value, a.value, b.value);
        }
      }
    }
  }
}
