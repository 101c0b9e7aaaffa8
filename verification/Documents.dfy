/**
Pointer-addressed modification of one document (`src/modality_docs.cpp`) against the JSON
Pointer of RFC 6901. The tree library underneath is known by its documented behaviour: an
object keeps its members in order and finds the first of a name.
*/
module Documents {
  import opened Store
  import opened Numbers

  datatype Doc = Scalar(token: int) | Arr(items: seq<Doc>) | Obj(members: seq<Member>)

  datatype Member = Member(key: string, value: Doc)

  // ---- JSON Pointer (RFC 6901) ----

  /** A decimal index without leading zeros. */
  predicate IsIndex(t: string) {
    t != "" && AllDigits(t, 10) && (t[0] == '0' ==> |t| == 1)
  }

  function FirstOf(members: seq<Member>, key: string): (k: nat)
    ensures k <= |members| && (k < |members| ==> members[k].key == key)
    ensures forall i :: 0 <= i < k ==> members[i].key != key
  {
    if members == [] || members[0].key == key then 0 else 1 + FirstOf(members[1..], key)
  }

  function Named(members: seq<Member>, key: string): Option<Doc> {
    var k := FirstOf(members, key);
    if k < |members| then Some(members[k].value) else None
  }

  function Child(doc: Doc, t: string): Option<Doc> {
    match doc
    case Scalar(_) => None
    case Arr(items) => if IsIndex(t) && Value(t, 10) < |items| then Some(items[Value(t, 10)]) else None
    case Obj(members) => Named(members, t)
  }

  /** The value a list of reference tokens leads to, section 4. */
  function Resolve(doc: Doc, path: seq<string>): Option<Doc> {
    if path == [] then Some(doc) else
      var child := Child(doc, path[0]);
      if child.None? then None else Resolve(child.value, path[1..])
  }

  function Unescape(t: string): Option<string> {
    if t == "" then Some("")
    else if t[0] != '~' then
      var rest := Unescape(t[1..]);
      if rest.None? then None else Some([t[0]] + rest.value)
    else if |t| == 1 || (t[1] != '0' && t[1] != '1') then None
    else
      var rest := Unescape(t[2..]);
      if rest.None? then None else Some([if t[1] == '0' then '~' else '/'] + rest.value)
  }

  function UnescapeAll(ts: seq<string>): Option<seq<string>> {
    if ts == [] then Some([]) else
      var t, rest := Unescape(ts[0]), UnescapeAll(ts[1..]);
      if t.None? || rest.None? then None else Some([t.value] + rest.value)
  }

  function Slash(s: string): (k: nat)
    ensures k <= |s| && (k < |s| ==> s[k] == '/')
    ensures '/' !in s[..k]
  {
    if s == "" || s[0] == '/' then 0 else
      var k := Slash(s[1..]);
      assert s[..1 + k] == [s[0]] + s[1..][..k];
      1 + k
  }

  function Tokens(s: string): (ts: seq<string>)
    ensures ts != []
    decreases |s|
  {
    var k := Slash(s);
    if k == |s| then [s] else [s[..k]] + Tokens(s[k + 1..])
  }

  /** A pointer is empty or starts with a slash, section 3. */
  function ParsePointer(s: string): Option<seq<string>> {
    if s == "" then Some([]) else if s[0] != '/' then None else UnescapeAll(Tokens(s[1..]))
  }

  function LookUp(doc: Doc, pointer: string): Option<Doc> {
    var path := ParsePointer(pointer);
    if path.None? then None else Resolve(doc, path.value)
  }

  // ---- Modifying one field ----

  datatype Mode = Insert | Remove | Update | Upsert

  /** The number a token starts with when all of it is a number that fits, else the initial zero. */
  function FromChars(t: string): nat {
    if t != "" && AllDigits(t, 10) && Value(t, 10) < U64 then Value(t, 10) else 0
  }

  function Without(members: seq<Member>, key: string): seq<Member> {
    if members == [] then []
    else (if members[0].key == key then [] else [members[0]]) + Without(members[1..], key)
  }

  function EditedArray(items: seq<Doc>, key: string, value: Doc, mode: Mode): Option<Doc> {
    if !AllDigits(key, 10) && key != "-" then None else
      var idx := FromChars(key);
      match mode
      case Insert =>
        if !AllDigits(key, 10) then Some(Arr(items + [value]))
        else if idx <= |items| then Some(Arr(items[..idx] + [value] + items[idx..]))
        else None
      case Remove => if idx < |items| then Some(Arr(items[..idx] + items[idx + 1..])) else None
      case Update => if idx < |items| then Some(Arr(items[idx := value])) else None
      case Upsert => Some(Arr(if idx < |items| then items[idx := value] else items + [value]))
  }

  function EditedObject(members: seq<Member>, key: string, value: Doc, mode: Mode): Option<Doc> {
    var k := FirstOf(members, key);
    match mode
    case Insert => Some(Obj(members + [Member(key, value)]))
    case Remove => if k < |members| then Some(Obj(Without(members, key))) else None
    case Update => if k < |members| then Some(Obj(members[k := Member(key, value)])) else None
    case Upsert => Some(Obj(if k < |members| then members[k := Member(key, value)] else members + [Member(key, value)]))
  }

  /** The parent with its last token edited; nothing on an error. A scalar parent is left alone. */
  function Edited(parent: Doc, key: string, value: Doc, mode: Mode): Option<Doc> {
    match parent
    case Arr(items) => EditedArray(items, key, value, mode)
    case Obj(members) => EditedObject(members, key, value, mode)
    case Scalar(_) => Some(parent)
  }

  function WithChild(doc: Doc, t: string, child: Doc): Doc
    requires Child(doc, t).Some?
  {
    match doc
    case Arr(items) => Arr(items[Value(t, 10) := child])
    case Obj(members) => Obj(members[FirstOf(members, t) := Member(t, child)])
  }

  /** The document with another value at the end of a path, which the source reaches in place. */
  function WithValue(doc: Doc, path: seq<string>, value: Doc): Doc
    requires Resolve(doc, path).Some?
    decreases |path|
  {
    if path == [] then value
    else WithChild(doc, path[0], WithValue(Child(doc, path[0]).value, path[1..], value))
  }

  function LastSlash(s: string): (pos: int)
    ensures -1 <= pos < |s| && (pos >= 0 ==> s[pos] == '/')
    ensures forall i :: pos < i < |s| ==> s[i] != '/'
  {
    if s == "" then -1
    else if s[|s| - 1] == '/' then |s| - 1
    else LastSlash(s[..|s| - 1])
  }

  /** The path to the parent: a pointer, or the name of a member when there is no leading slash. */
  function ParentPath(doc: Doc, field: string, pos: nat): Option<seq<string>>
    requires pos < |field|
  {
    if field[0] == '/' then ParsePointer(field[..pos]) else if doc.Obj? then Some([field[..pos]]) else None
  }

  function ModifiedField(doc: Doc, value: Doc, field: string, mode: Mode): Option<Doc> {
    var pos := LastSlash(field);
    if pos == -1 then None else
      var path := ParentPath(doc, field, pos);
      if path.None? then None else
        var parent := Resolve(doc, path.value);
        if parent.None? then None else
          var edited := Edited(parent.value, field[pos + 1..], value, mode);
          if edited.None? then None else Some(WithValue(doc, path.value, edited.value))
  }

  // ---- Paths in and out of an edited place ----

  lemma {:induction false} ChildAfter(doc: Doc, t: string, child: Doc, u: string)
    requires Child(doc, t).Some?
    ensures Child(WithChild(doc, t, child), u) == if t == u then Some(child) else Child(doc, u)
  {
    match doc {
      case Arr(_) =>
        if IsIndex(u) && Value(u, 10) == Value(t, 10) {
          IndexIsUnique(t, u);
        }
      case Obj(members) => FirstAfter(members, FirstOf(members, t), Member(t, child), u);
    }
  }

  lemma {:induction false} FirstAfter(members: seq<Member>, k: nat, m: Member, u: string)
    requires k < |members| && members[k].key == m.key
    ensures FirstOf(members[k := m], u) == FirstOf(members, u)
  {
    if members[0].key != u {
      if k == 0 {
        assert members[k := m][1..] == members[1..];
      } else {
        assert members[k := m][1..] == members[1..][k - 1 := m];
        FirstAfter(members[1..], k - 1, m, u);
      }
    }
  }

  lemma {:induction false} IndexText(t: string)
    requires IsIndex(t)
    ensures Decimal(Value(t, 10)) == t
    ensures t[0] != '0' ==> Value(t, 10) > 0
  {
    hide Decimal;
    var s, d := t[..|t| - 1], t[|t| - 1];
    assert DigitOf(d) < 10;
    DecimalAppends(Value(s, 10), d);
    if s == "" {
      assert Value(t, 10) == DigitOf(d);
      assert t == [d];
    } else {
      assert IsIndex(s);
      IndexText(s);
      assert t == s + [d];
    }
  }

  lemma {:induction false} DecimalAppends(x: nat, d: char)
    requires '0' <= d <= '9'
    ensures Decimal(x * 10 + DigitOf(d)) == (if x == 0 then [d] else Decimal(x) + [d])
  {
    assert DigitChar(DigitOf(d)) == d;
  }

  lemma {:induction false} IndexIsUnique(t: string, u: string)
    requires IsIndex(t) && IsIndex(u) && Value(t, 10) == Value(u, 10)
    ensures t == u
  {
    IndexText(t);
    IndexText(u);
  }

  lemma {:induction false} ResolveAppend(doc: Doc, path: seq<string>, more: seq<string>)
    ensures Resolve(doc, path + more) ==
      if Resolve(doc, path).None? then None else Resolve(Resolve(doc, path).value, more)
    decreases |path|
  {
    if path == [] {
      assert path + more == more;
    } else {
      assert (path + more)[1..] == path[1..] + more;
      var child := Child(doc, path[0]);
      if child.Some? {
        ResolveAppend(child.value, path[1..], more);
      }
    }
  }

  /** Below the edited place a pointer resolves inside the new value. */
  lemma {:induction false} ResolveBelow(doc: Doc, path: seq<string>, value: Doc, more: seq<string>)
    requires Resolve(doc, path).Some?
    ensures Resolve(WithValue(doc, path, value), path + more) == Resolve(value, more)
    decreases |path|
  {
    if path == [] {
      assert path + more == more;
    } else {
      assert (path + more)[1..] == path[1..] + more;
      var child := Child(doc, path[0]).value;
      ResolveBelow(child, path[1..], value, more);
      ChildAfter(doc, path[0], WithValue(child, path[1..], value), path[0]);
    }
  }

  /** Neither path is a prefix of the other. */
  predicate Unrelated(p: seq<string>, q: seq<string>) {
    p != [] && q != [] && (p[0] != q[0] || Unrelated(p[1..], q[1..]))
  }

  /** Beside the edited place every pointer resolves as before. */
  lemma {:induction false} ResolveBeside(doc: Doc, path: seq<string>, value: Doc, other: seq<string>)
    requires Resolve(doc, path).Some? && Unrelated(path, other)
    ensures Resolve(WithValue(doc, path, value), other) == Resolve(doc, other)
    decreases |path|
  {
    var child := Child(doc, path[0]).value;
    ChildAfter(doc, path[0], WithValue(child, path[1..], value), other[0]);
    if path[0] == other[0] {
      ResolveBeside(child, path[1..], value, other[1..]);
    }
  }

  // ---- The text of a pointer and its last token ----

  lemma {:induction false} SlashIs(s: string, k: nat)
    requires k <= |s| && '/' !in s[..k] && (k < |s| ==> s[k] == '/')
    ensures Slash(s) == k
  {
    if k > 0 {
      assert s[..k] == [s[0]] + s[1..][..k - 1];
      SlashIs(s[1..], k - 1);
    }
  }

  lemma {:induction false} SlashBefore(s: string, pos: nat)
    requires pos < |s| && s[pos] == '/'
    ensures Slash(s) <= pos
  {
    if pos > 0 {
      SlashBefore(s[1..], pos - 1);
    }
  }

  lemma {:induction false} SplitLast(s: string, pos: nat)
    requires pos < |s| && s[pos] == '/' && forall i :: pos < i < |s| ==> s[i] != '/'
    ensures Tokens(s) == Tokens(s[..pos]) + [s[pos + 1..]]
    decreases |s|
  {
    hide Slash;
    var k := Slash(s);
    SlashBefore(s, pos);
    var init, rest := s[..pos], s[k + 1..];
    assert init[..k] == s[..k];
    SlashIs(init, k);
    if k == pos {
      NoSlash(rest);
      assert Tokens(init) == [init];
    } else {
      var at := pos - k - 1;
      assert rest[at + 1..] == s[pos + 1..] && rest[..at] == init[k + 1..];
      SplitLast(rest, at);
      assert [s[..k]] + (Tokens(rest[..at]) + [rest[at + 1..]]) == [s[..k]] + Tokens(rest[..at]) + [rest[at + 1..]];
    }
  }

  lemma {:induction false} UnescapeLast(ts: seq<string>, t: string)
    ensures UnescapeAll(ts + [t]) ==
      if UnescapeAll(ts).None? || Unescape(t).None? then None else Some(UnescapeAll(ts).value + [Unescape(t).value])
  {
    hide Unescape;
    if ts == [] {
      assert ts + [t] == [t] && [t][1..] == [];
      assert UnescapeAll([]) == Some([]);
      if Unescape(t).Some? {
        assert [Unescape(t).value] + [] == [] + [Unescape(t).value];
      }
    } else {
      assert (ts + [t])[1..] == ts[1..] + [t];
      UnescapeLast(ts[1..], t);
      var first, rest := Unescape(ts[0]), UnescapeAll(ts[1..]);
      if first.Some? && rest.Some? && Unescape(t).Some? {
        assert [first.value] + (rest.value + [Unescape(t).value]) == [first.value] + rest.value + [Unescape(t).value];
      }
    }
  }

  /** A pointer is its parent's pointer and one last token. */
  lemma {:induction false} PointerSplits(field: string)
    requires field != "" && field[0] == '/'
    ensures var pos := LastSlash(field);
      && pos >= 0
      && var path, last := ParsePointer(field[..pos]), Unescape(field[pos + 1..]);
      ParsePointer(field) == if path.None? || last.None? then None else Some(path.value + [last.value])
  {
    hide Tokens, Unescape;
    var pos := LastSlash(field);
    assert field[0..] == field && '/' in field;
    if pos == 0 {
      NoSlash(field[1..]);
      UnescapeLast([], field[1..]);
      assert [] + [field[1..]] == [field[1..]];
    } else {
      var s := field[1..];
      assert s[..pos - 1] == field[..pos][1..];
      assert s[pos..] == field[pos + 1..];
      SplitLast(s, pos - 1);
      UnescapeLast(Tokens(s[..pos - 1]), field[pos + 1..]);
    }
  }

  lemma {:induction false} NoSlash(s: string)
    requires '/' !in s
    ensures Tokens(s) == [s]
  {
    assert s[..|s|] == s;
    SlashIs(s, |s|);
  }

  /** Unescaping a token changes it exactly when it has a tilde. */
  lemma {:induction false} UnescapeChanges(t: string)
    ensures '~' !in t ==> Unescape(t) == Some(t)
    ensures '~' in t && Unescape(t).Some? ==> |Unescape(t).value| < |t|
  {
    if t != "" {
      assert t == [t[0]] + t[1..];
      if t[0] != '~' {
        UnescapeChanges(t[1..]);
      } else if |t| > 1 {
        UnescapeShrinks(t[2..]);
      }
    }
  }

  lemma {:induction false} UnescapeShrinks(t: string)
    ensures Unescape(t).Some? ==> |Unescape(t).value| <= |t|
  {
    if t != "" {
      if t[0] != '~' {
        UnescapeShrinks(t[1..]);
      } else if |t| > 1 {
        UnescapeShrinks(t[2..]);
      }
    }
  }

  // ---- Upsert and update ----

  /** Whether an upsert in this parent ends up where its token points. */
  predicate Lands(parent: Doc, key: string) {
    parent.Obj? || (parent.Arr? && IsIndex(key) && Value(key, 10) <= |parent.items|)
  }

  /** Arrays are shorter than the largest index. */
  predicate Short(doc: Doc) {
    doc.Arr? ==> |doc.items| < U64
  }

  lemma {:induction false} FirstInLonger(members: seq<Member>, m: Member, u: string)
    ensures var k := FirstOf(members, u);
      FirstOf(members + [m], u) == if k < |members| || m.key == u then k else |members| + 1
  {
    if members != [] {
      assert (members + [m])[1..] == members[1..] + [m];
      FirstInLonger(members[1..], m, u);
    } else {
      assert members + [m] == [m];
    }
  }

  lemma {:induction false} UpsertedChild(parent: Doc, key: string, value: Doc, u: string)
    requires Short(parent) && Lands(parent, key)
    ensures Edited(parent, key, value, Upsert).Some?
    ensures Child(Edited(parent, key, value, Upsert).value, u) == if u == key then Some(value) else Child(parent, u)
  {
    hide Value, AllDigits;
    match parent {
      case Arr(items) =>
        if IsIndex(u) && Value(u, 10) == Value(key, 10) {
          IndexIsUnique(u, key);
        }
      case Obj(members) =>
        var k := FirstOf(members, key);
        if k < |members| {
          FirstAfter(members, k, Member(key, value), u);
        } else {
          FirstInLonger(members, Member(key, value), u);
        }
    }
  }

  /** An upsert that does not land leaves nothing where its token points. */
  lemma {:induction false} MissedChild(parent: Doc, key: string, value: Doc)
    requires Short(parent) && !Lands(parent, key) && Edited(parent, key, value, Upsert).Some?
    ensures Child(Edited(parent, key, value, Upsert).value, key) == None
  {
  }

  lemma {:induction false} UpdateIsUpsert(parent: Doc, key: string, value: Doc)
    requires Edited(parent, key, value, Update).Some?
    ensures Edited(parent, key, value, Update) == Edited(parent, key, value, Upsert)
  {
  }

  /** The parent a field names, and what it becomes. */
  lemma {:induction false} FieldEdit(doc: Doc, value: Doc, field: string, mode: Mode) returns (path: seq<string>, parent: Doc)
    requires field != "" && field[0] == '/' && ModifiedField(doc, value, field, mode).Some?
    ensures LastSlash(field) >= 0 && ParsePointer(field[..LastSlash(field)]) == Some(path)
    ensures Resolve(doc, path) == Some(parent)
    ensures var edited := Edited(parent, field[LastSlash(field) + 1..], value, mode);
      edited.Some? && ModifiedField(doc, value, field, mode) == Some(WithValue(doc, path, edited.value))
  {
    path := ParsePointer(field[..LastSlash(field)]).value;
    parent := Resolve(doc, path).value;
  }

  /**
  After an upsert or update the same pointer resolves to the new value exactly when the token
  lands and has no tilde. A token with a tilde leaves the pointer as it resolved before: the
  key is written as it is spelled but read unescaped. One that does not land resolves to nothing.
  */
  lemma {:induction false} UpsertThenLookUp(doc: Doc, value: Doc, field: string, mode: Mode)
    requires mode == Upsert || mode == Update
    requires field != "" && field[0] == '/' && ModifiedField(doc, value, field, mode).Some?
    requires Short(Resolve(doc, ParsePointer(field[..LastSlash(field)]).value).value)
    ensures var parent, key := Resolve(doc, ParsePointer(field[..LastSlash(field)]).value).value, field[LastSlash(field) + 1..];
      LookUp(ModifiedField(doc, value, field, mode).value, field) ==
        if !Lands(parent, key) then None else if '~' in key then LookUp(doc, field) else Some(value)
  {
    hide Edited, Child, Unescape, Lands, ModifiedField;
    var path, parent := FieldEdit(doc, value, field, mode);
    var key := field[LastSlash(field) + 1..];
    if mode == Update {
      UpdateIsUpsert(parent, key, value);
    }
    var edited := Edited(parent, key, value, Upsert).value;
    PointerSplits(field);
    UnescapeChanges(key);
    var last := Unescape(key);
    if last.Some? {
      ResolveBelow(doc, path, edited, [last.value]);
      ResolveAppend(doc, path, [last.value]);
      OneStep(edited, last.value);
      OneStep(parent, last.value);
    }
    if Lands(parent, key) {
      if last.Some? { UpsertedChild(parent, key, value, last.value); }
    } else {
      MissedChild(parent, key, value);
      NoTilde(parent, key, value);
    }
  }

  /** The key `a~1b` is written as it is spelled, but its pointer asks for `a/b`. */
  lemma {:induction false} TildeIsNotFound(value: Doc)
    ensures ModifiedField(Obj([]), value, "/a~1b", Upsert) == Some(Obj([Member("a~1b", value)]))
    ensures LookUp(Obj([Member("a~1b", value)]), "/a~1b") == None
  {
    var field, doc := "/a~1b", Obj([]);
    TildeField();
    assert [] + [Member("a~1b", value)] == [Member("a~1b", value)];
    PointerSplits(field);
    UnescapeTilde();
    assert [] + ["a/b"] == ["a/b"];
    var after := Obj([Member("a~1b", value)]);
    OneStep(after, "a/b");
    assert |"a/b"| != |"a~1b"|;
  }

  lemma {:induction false} TildeField()
    ensures LastSlash("/a~1b") == 0 && "/a~1b"[1..] == "a~1b" && "/a~1b"[..0] == ""
  {
    var s := "/a~1b";
    assert s[0] == '/' && s[1] == 'a' && s[2] == '~' && s[3] == '1' && s[4] == 'b';
  }

  lemma {:induction false} UnescapeTilde()
    ensures Unescape("a~1b") == Some("a/b")
  {
    assert "a~1b"[1..] == "~1b" && "~1b"[2..] == "b" && "b"[1..] == "";
    assert Unescape("") == Some("") && ['b'] + "" == "b" && ['/'] + "b" == "/b" && ['a'] + "/b" == "a/b";
    assert Unescape("b") == Some("b");
    assert Unescape("~1b") == Some("/b");
  }

  /** The other escape, and the order of the two: `~01` is a tilde and a one. */
  lemma {:induction false} UnescapeZero()
    ensures Unescape("m~0n") == Some("m~n") && Unescape("~01") == Some("~1")
    ensures Unescape("~") == None && Unescape("~2") == None
  {
    assert "m~0n"[1..] == "~0n" && "~0n"[2..] == "n" && "n"[1..] == "" && "~01"[2..] == "1" && "1"[1..] == "";
    assert ['n'] + "" == "n" && ['~'] + "n" == "~n" && ['m'] + "~n" == "m~n" && ['1'] + "" == "1" && ['~'] + "1" == "~1";
    assert Unescape("") == Some("") && Unescape("n") == Some("n") && Unescape("1") == Some("1");
    assert Unescape("~0n") == Some("~n");
  }

  lemma {:induction false} OneStep(doc: Doc, t: string)
    ensures Resolve(doc, [t]) == Child(doc, t)
  {
    hide Child;
    assert [t][1..] == [];
  }

  lemma {:induction false} NoTilde(parent: Doc, key: string, value: Doc)
    requires !Lands(parent, key) && Edited(parent, key, value, Upsert).Some?
    ensures '~' in key ==> forall u :: Child(Edited(parent, key, value, Upsert).value, u) == None
  {
    assert forall i :: 0 <= i < |key| && AllDigits(key, 10) ==> DigitOf(key[i]) < 10;
  }

  /** Pointers neither above nor below the edited field resolve as before. */
  lemma {:induction false} UpsertFrame(doc: Doc, value: Doc, field: string, mode: Mode, other: seq<string>)
    requires mode == Upsert || mode == Update
    requires field != "" && field[0] == '/' && ModifiedField(doc, value, field, mode).Some?
    requires var path, key := ParsePointer(field[..LastSlash(field)]).value, field[LastSlash(field) + 1..];
      && Short(Resolve(doc, path).value) && Lands(Resolve(doc, path).value, key)
      && Unrelated(path + [key], other)
    ensures Resolve(ModifiedField(doc, value, field, mode).value, other) == Resolve(doc, other)
  {
    hide Edited, Child, Lands, ModifiedField;
    var path, parent := FieldEdit(doc, value, field, mode);
    var key := field[LastSlash(field) + 1..];
    if mode == Update {
      UpdateIsUpsert(parent, key, value);
    }
    PutFrame(doc, path, key, value, other);
  }

  /** An upsert that lands leaves every path alone that is neither above nor below it. */
  lemma {:induction false} PutFrame(doc: Doc, path: seq<string>, key: string, value: Doc, other: seq<string>)
    requires Resolve(doc, path).Some?
    requires Short(Resolve(doc, path).value) && Lands(Resolve(doc, path).value, key) && Unrelated(path + [key], other)
    ensures var edited := Edited(Resolve(doc, path).value, key, value, Upsert);
      edited.Some? && Resolve(WithValue(doc, path, edited.value), other) == Resolve(doc, other)
  {
    hide Edited, Child, Lands;
    var parent := Resolve(doc, path).value;
    UpsertedChild(parent, key, value, key);
    var edited := Edited(parent, key, value, Upsert).value;
    var beside := BesideSplits(path, key, other);
    if beside {
      ResolveBeside(doc, path, edited, other);
    } else {
      var more := other[|path|..];
      assert other == path + more;
      ResolveBelow(doc, path, edited, more);
      ResolveAppend(doc, path, more);
      UpsertedChild(parent, key, value, more[0]);
    }
  }

  /** A path unrelated to a longer one parts from it before its last token or at it. */
  lemma {:induction false} BesideSplits(path: seq<string>, key: string, other: seq<string>) returns (beside: bool)
    requires Unrelated(path + [key], other)
    ensures if beside then Unrelated(path, other)
      else |other| > |path| && other[..|path|] == path && other[|path|] != key
  {
    if path == [] {
      assert (path + [key])[0] == key;
      assert !Unrelated([key][1..], other[1..]);
      assert (path + [key])[1..] == [key][1..];
      beside := false;
    } else if path[0] != other[0] {
      assert (path + [key])[0] == path[0];
      beside := true;
    } else {
      assert (path + [key])[1..] == path[1..] + [key];
      beside := BesideSplits(path[1..], key, other[1..]);
      if !beside {
        assert other[..|path|] == [other[0]] + other[1..][..|path| - 1];
      }
    }
  }

  // ---- Removal and insertion in an object ----

  lemma {:induction false} NamedStep(m: Member, rest: seq<Member>, u: string)
    ensures Named([m] + rest, u) == if m.key == u then Some(m.value) else Named(rest, u)
  {
    assert ([m] + rest)[1..] == rest;
  }

  lemma {:induction false} NamedWithout(members: seq<Member>, key: string, u: string)
    ensures Named(Without(members, key), u) == if u == key then None else Named(members, u)
  {
    hide FirstOf;
    if members == [] {
      assert Without(members, key) == [];
      NobodyNamed(u);
    } else {
      var rest := Without(members[1..], key);
      NamedWithout(members[1..], key, u);
      assert members == [members[0]] + members[1..];
      NamedStep(members[0], members[1..], u);
      NamedStep(members[0], rest, u);
      assert members[0].key == key ==> Without(members, key) == rest;
    }
  }

  lemma {:induction false} NobodyNamed(u: string)
    ensures Named([], u) == None
  {
  }

  /** A removed member is gone under its name, and no other name changes its meaning. */
  lemma {:induction false} RemovedChild(members: seq<Member>, key: string, value: Doc, u: string)
    ensures Edited(Obj(members), key, value, Remove).Some? <==> Child(Obj(members), key).Some?
    ensures var r := Edited(Obj(members), key, value, Remove);
      r.Some? ==> Child(r.value, u) == if u == key then None else Child(Obj(members), u)
  {
    NamedWithout(members, key, u);
  }

  /** An inserted member is found under its name exactly when the name was new; otherwise the old one stays visible. */
  lemma {:induction false} InsertedChild(members: seq<Member>, key: string, value: Doc, u: string)
    ensures var r := Edited(Obj(members), key, value, Insert);
      r.Some? && Child(r.value, u) ==
        if u == key && Child(Obj(members), key).None? then Some(value) else Child(Obj(members), u)
  {
    FirstInLonger(members, Member(key, value), u);
  }
}
