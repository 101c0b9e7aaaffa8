/**
Patches below a field (`src/modality_docs.cpp`): an operation whose path is prefixed with a pointer
does to the document below that pointer what it does to a whole document.
*/
module Prefixes {
  import opened Store
  import opened Documents
  import opened DocPatch
  import opened Conformance

  // ---- Pointers, one after another ----

  lemma {:induction false} TokensConcat(a: string, b: string)
    ensures Tokens(a + "/" + b) == Tokens(a) + Tokens(b)
    decreases |a|
  {
    hide Slash;
    var s, k := a + "/" + b, Slash(a);
    assert s[..k] == a[..k] && s[k] == '/';
    SlashIs(s, k);
    if k == |a| {
      assert s[k + 1..] == b && a[..k] == a;
    } else {
      assert s[k + 1..] == a[k + 1..] + "/" + b;
      TokensConcat(a[k + 1..], b);
    }
  }

  lemma {:induction false} UnescapeConcat(ts: seq<string>, us: seq<string>)
    ensures UnescapeAll(ts + us) ==
      if UnescapeAll(ts).None? || UnescapeAll(us).None? then None else Some(UnescapeAll(ts).value + UnescapeAll(us).value)
    decreases |us|
  {
    hide Unescape, UnescapeAll;
    if us == [] {
      assert ts + us == ts;
      NothingEscaped(us);
      assert UnescapeAll(ts).Some? ==> UnescapeAll(ts).value + [] == UnescapeAll(ts).value;
    } else {
      var low, last := us[..|us| - 1], us[|us| - 1];
      UnescapeConcat(ts, low);
      UnescapeLast(low, last);
      UnescapeLast(ts + low, last);
      assert us == low + [last] && ts + us == ts + low + [last];
      if UnescapeAll(ts).Some? && UnescapeAll(low).Some? && Unescape(last).Some? {
        var a, b, c := UnescapeAll(ts).value, UnescapeAll(low).value, [Unescape(last).value];
        assert a + b + c == a + (b + c);
      }
    }
  }

  lemma {:induction false} NothingEscaped(ts: seq<string>)
    requires ts == []
    ensures UnescapeAll(ts) == Some([])
  {
  }

  /** The path of a prefixed pointer is the path of the prefix and the path of the pointer. */
  lemma {:induction false} PointerConcat(f: string, p: string)
    requires IsPointer(f) && (p == "" || IsPointer(p))
    ensures ParsePointer(f + p) ==
      if ParsePointer(f).None? || ParsePointer(p).None? then None else Some(ParsePointer(f).value + ParsePointer(p).value)
  {
    hide Tokens, UnescapeAll;
    if p == "" {
      assert f + p == f;
      assert ParsePointer(f).Some? ==> ParsePointer(f).value + [] == ParsePointer(f).value;
    } else {
      assert (f + p)[1..] == f[1..] + "/" + p[1..];
      TokensConcat(f[1..], p[1..]);
      UnescapeConcat(Tokens(f[1..]), Tokens(p[1..]));
    }
  }

  lemma {:induction false} LastSlashConcat(f: string, p: string)
    requires IsPointer(p)
    ensures LastSlash(p) >= 0 && LastSlash(f + p) == |f| + LastSlash(p)
    ensures (f + p)[..LastSlash(f + p)] == f + p[..LastSlash(p)]
    ensures (f + p)[LastSlash(f + p) + 1..] == p[LastSlash(p) + 1..]
  {
    hide LastSlash;
    PointerHasSlash(p);
    var q, pos := LastSlash(p), LastSlash(f + p);
    assert (f + p)[|f| + q] == '/';
    assert forall i :: |f| + q < i < |f + p| ==> (f + p)[i] == p[i - |f|];
  }

  lemma {:induction false} WithValueConcat(doc: Doc, path: seq<string>, more: seq<string>, value: Doc)
    requires Resolve(doc, path).Some? && Resolve(Resolve(doc, path).value, more).Some?
    ensures Resolve(doc, path + more).Some?
    ensures WithValue(doc, path + more, value) == WithValue(doc, path, WithValue(Resolve(doc, path).value, more, value))
    decreases |path|
  {
    hide Child, WithChild;
    ResolveAppend(doc, path, more);
    if path == [] {
      assert path + more == more;
    } else {
      assert (path + more)[0] == path[0] && (path + more)[1..] == path[1..] + more;
      WithValueConcat(Child(doc, path[0]).value, path[1..], more, value);
    }
  }

  // ---- Edits and operations below a field ----

  /** A result below a pointer, put back into the whole document. */
  function Lifted(doc: Doc, field: string, inner: Outcome): Outcome
    requires LookUp(doc, field).Some?
  {
    if inner.Failed? || inner.root.None? then Failed
    else Done(Some(WithValue(doc, ParsePointer(field).value, inner.root.value)))
  }

  /** Editing at a prefixed pointer is editing the document below the prefix. */
  lemma {:induction false} EditBelow(doc: Doc, value: Doc, field: string, path: string, mode: Mode)
    requires IsPointer(field) && IsPointer(path)
    ensures ModifiedRoot(Some(doc), value, field + path, mode) ==
      if LookUp(doc, field).None? then Failed
      else Lifted(doc, field, ModifiedRoot(LookUp(doc, field), value, path, mode))
  {
    hide ParsePointer, Edited, Resolve, WithValue;
    LastSlashConcat(field, path);
    var q := LastSlash(path);
    assert path[..q] == "" || IsPointer(path[..q]);
    PointerConcat(field, path[..q]);
    var outer, inner := ParsePointer(field), ParsePointer(path[..q]);
    if outer.Some? && inner.Some? {
      ResolveAppend(doc, outer.value, inner.value);
      if Resolve(doc, outer.value).Some? {
        var sub := Resolve(doc, outer.value).value;
        var parent := Resolve(sub, inner.value);
        if parent.Some? {
          var edited := Edited(parent.value, path[q + 1..], value, mode);
          if edited.Some? {
            WithValueConcat(doc, outer.value, inner.value, edited.value);
          }
        }
      }
    }
  }

  /** Operations that name one place; a copy or a move looks its source up from the root, prefix or not. */
  predicate OnePlace(op: Op) {
    (op.Add? || op.Delete? || op.Replace?) && IsPointer(op.path)
  }

  /** Such an operation below a field is the operation at the root of the document found there. */
  lemma {:induction false} OperationBelow(doc: Doc, field: string, op: Op)
    requires IsPointer(field) && OnePlace(op)
    ensures Stepped(Some(doc), Some(field), op) ==
      if LookUp(doc, field).None? then Failed else Lifted(doc, field, Stepped(LookUp(doc, field), None, op))
  {
    hide ModifiedRoot, LookUp, Lifted;
    assert FieldConcat(Some(field), op.path) == Some(field + op.path);
    NoPrefix(op.path);
    match op {
      case Add(path, value) => EditBelow(doc, value, field, path, Insert);
      case Delete(path) => EditBelow(doc, Scalar(0), field, path, Remove);
      case Replace(path, value) => EditBelow(doc, value, field, path, Update);
    }
  }

  /** With an empty path the operation is at the field itself. */
  lemma {:induction false} OperationAt(doc: Doc, field: string, value: Doc)
    requires IsPointer(field)
    ensures Stepped(Some(doc), Some(field), Add("", value)) == Stepped(Some(doc), None, Add(field, value))
    ensures Stepped(Some(doc), Some(field), Delete("")) == Stepped(Some(doc), None, Delete(field))
    ensures Stepped(Some(doc), Some(field), Replace("", value)) == Stepped(Some(doc), None, Replace(field, value))
  {
    hide ModifiedRoot;
    assert field + "" == field && "" + field == field;
  }

  /** A copy below a field takes its source from the root of the document, not from below the field. */
  lemma {:induction false} CopyBelow(doc: Doc, field: string, from: string, path: string)
    requires IsPointer(field) && IsPointer(from) && IsPointer(path)
    ensures Defined(Some(field), Copy(from, path))
    ensures Stepped(Some(doc), Some(field), Copy(from, path)) ==
      if LookUp(doc, from).None? || LookUp(doc, field).None? then Failed
      else Lifted(doc, field, ModifiedRoot(LookUp(doc, field), LookUp(doc, from).value, path, Upsert))
  {
    hide ModifiedRoot, LookUp, Lifted;
    assert FieldConcat(Some(field), path) == Some(field + path);
    if LookUp(doc, from).Some? {
      EditBelow(doc, LookUp(doc, from).value, field, path, Upsert);
    }
  }

  /** A move below a field also takes its value from the root, but removes below the field. */
  lemma {:induction false} MoveBelow(doc: Doc, field: string, from: string, path: string)
    requires IsPointer(field) && IsPointer(from) && IsPointer(path)
    ensures Defined(Some(field), Move(from, path))
    ensures var removed := ModifiedRoot(Some(doc), Scalar(0), field + from, Remove);
      Stepped(Some(doc), Some(field), Move(from, path)) ==
        if LookUp(doc, from).None? || removed.Failed? then Failed
        else ModifiedRoot(removed.root, LookUp(doc, from).value, field + path, Upsert)
  {
    hide ModifiedRoot, LookUp;
    assert FieldConcat(Some(field), path) == Some(field + path);
    assert FieldConcat(Some(field), from) == Some(field + from);
  }

  /** Below `/a`, copying `/b` to `/c` takes the member `b` of the root and not that of `a`. */
  lemma {:induction false} CopyLeavesField()
    ensures var inner := Obj([Member("b", Scalar(1))]);
      var doc := Obj([Member("a", inner), Member("b", Scalar(2))]);
      && Defined(Some("/a"), Copy("/b", "/c"))
      && Stepped(Some(doc), Some("/a"), Copy("/b", "/c")) ==
        Done(Some(Obj([Member("a", Obj([Member("b", Scalar(1)), Member("c", Scalar(2))])), Member("b", Scalar(2))])))
  {
    hide Stepped, ModifiedRoot, LookUp, ParsePointer, Child, WithValue, Defined;
    var inner := Obj([Member("b", Scalar(1))]);
    var after := Obj([Member("b", Scalar(1)), Member("c", Scalar(2))]);
    var a, b := Member("a", inner), Member("b", Scalar(2));
    ShortNames();
    CopyBelow(Obj([a, b]), "/a", "/b", "/c");
    OneName(Obj([a, b]), "a");
    OneName(Obj([a, b]), "b");
    Two(a, b);
    AddedLast(Member("b", Scalar(1)), "c", Scalar(2));
    ReplaceFirst(a, b, after);
  }

  lemma {:induction false} AddedLast(m: Member, key: string, value: Doc)
    requires '/' !in key && key != m.key
    ensures ModifiedRoot(Some(Obj([m])), value, "/" + key, Upsert) == Done(Some(Obj([m, Member(key, value)])))
  {
    hide ModifiedRoot;
    OneTokenEdit(Obj([m]), key, value, Upsert);
    assert [m][1..] == [] && FirstOf([m], key) == 1;
    assert [m] + [Member(key, value)] == [m, Member(key, value)];
  }

  lemma {:induction false} ShortNames()
    ensures "/a" == "/" + "a" && "/b" == "/" + "b" && "/c" == "/" + "c"
    ensures '/' !in "a" && '/' !in "b" && '/' !in "c" && '~' !in "a" && '~' !in "b"
    ensures IsPointer("/a") && IsPointer("/b") && IsPointer("/c") && "a" != "b" && "b" != "c"
  {
  }

  lemma {:induction false} OneName(doc: Doc, key: string)
    requires '/' !in key && '~' !in key
    ensures ParsePointer("/" + key) == Some([key]) && LookUp(doc, "/" + key) == Child(doc, key)
  {
    hide Child, Unescape;
    UnescapeChanges(key);
    OneToken(doc, key);
    PointerSplits("/" + key);
    assert ("/" + key)[..0] == "" && [] + [key] == [key];
    OneStep(doc, key);
  }

  lemma {:induction false} Two(a: Member, b: Member)
    requires a.key != b.key
    ensures Child(Obj([a, b]), a.key) == Some(a.value) && Child(Obj([a, b]), b.key) == Some(b.value)
  {
    TwoMembers(a, b);
    TwoMembers(b, a);
    assert [a, b][1..] == [b];
  }

  lemma {:induction false} ReplaceFirst(a: Member, b: Member, value: Doc)
    ensures Resolve(Obj([a, b]), [a.key]).Some?
    ensures WithValue(Obj([a, b]), [a.key], value) == Obj([Member(a.key, value), b])
  {
    assert [a.key][1..] == [];
    OneStep(Obj([a, b]), a.key);
    assert [a, b][0 := Member(a.key, value)] == [Member(a.key, value), b];
  }
}
