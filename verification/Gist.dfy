/**
Enumeration of the leaf paths of documents (`src/modality_docs.cpp`). One buffer of 512
characters holds the zero-terminated path of the node at hand; a sorted array remembers the
paths that were exported already.
*/
module Gist {
  import opened Store
  import opened Numbers
  import opened Documents

  const LIMIT: nat := 512
  const NUL: char := 0 as char

  // ---- Zero-terminated text ----

  function UpToNul(s: string): (t: string)
    ensures t <= s && NUL !in t && (|t| < |s| ==> s[|t|] == NUL)
  {
    if s == [] || s[0] == NUL then [] else [s[0]] + UpToNul(s[1..])
  }

  lemma {:induction false} UpToNulIs(text: string, rest: string)
    requires NUL !in text
    ensures UpToNul(text + rest) == text + UpToNul(rest)
  {
    if text == [] {
      assert text + rest == rest;
    } else {
      assert (text + rest)[1..] == text[1..] + rest;
      UpToNulIs(text[1..], rest);
    }
  }

  // ---- The order of paths ----

  predicate Before(a: string, b: string) {
    b != "" && (a == "" || a[0] < b[0] || (a[0] == b[0] && Before(a[1..], b[1..])))
  }

  lemma {:induction false} BeforeTotal(a: string, b: string)
    ensures a == b || Before(a, b) || Before(b, a)
    ensures !(Before(a, b) && Before(b, a)) && !Before(a, a)
  {
    if a != "" {
      BeforeTotal(a[1..], a[1..]);
      if b != "" {
        BeforeTotal(a[1..], b[1..]);
        assert a == [a[0]] + a[1..] && b == [b[0]] + b[1..];
      }
    }
  }

  lemma {:induction false} BeforeTransitive(a: string, b: string, c: string)
    requires Before(a, b) && Before(b, c)
    ensures Before(a, c)
  {
    if a != "" && a[0] == b[0] && b[0] == c[0] {
      BeforeTransitive(a[1..], b[1..], c[1..]);
    }
  }

  predicate Sorted(paths: seq<string>) {
    forall i, j :: 0 <= i < j < |paths| ==> Before(paths[i], paths[j])
  }

  method LowerBound(paths: seq<string>, wanted: string) returns (k: nat)
    requires Sorted(paths)
    ensures k <= |paths|
    ensures forall i :: 0 <= i < k ==> Before(paths[i], wanted)
    ensures forall i :: k <= i < |paths| ==> !Before(paths[i], wanted)
  {
    var low, high := 0, |paths|;
    while low < high
      invariant 0 <= low <= high <= |paths|
      invariant forall i :: 0 <= i < low ==> Before(paths[i], wanted)
      invariant forall i :: high <= i < |paths| ==> !Before(paths[i], wanted)
    {
      var middle := (low + high) / 2;
      if Before(paths[middle], wanted) {
        forall i | 0 <= i < middle ensures Before(paths[i], wanted) {
          BeforeTransitive(paths[i], paths[middle], wanted);
        }
        low := middle + 1;
      } else {
        forall i | middle < i < |paths| ensures !Before(paths[i], wanted) {
          if Before(paths[i], wanted) {
            BeforeTransitive(paths[middle], paths[i], wanted);
          }
        }
        high := middle;
      }
    }
    k := low;
  }

  /** Where the lower bound of a path is, the path itself is, or it is nowhere. */
  lemma {:induction false} FoundOrAbsent(paths: seq<string>, wanted: string, k: nat)
    requires Sorted(paths) && k <= |paths|
    requires forall i :: 0 <= i < k ==> Before(paths[i], wanted)
    requires forall i :: k <= i < |paths| ==> !Before(paths[i], wanted)
    ensures wanted in paths <==> k < |paths| && paths[k] == wanted
  {
    BeforeTotal(wanted, wanted);
    forall i | k < i < |paths| ensures paths[i] != wanted {
      assert Before(paths[k], paths[i]);
    }
  }

  lemma {:induction false} InsertSorted(paths: seq<string>, wanted: string, k: nat)
    requires Sorted(paths) && k <= |paths| && wanted !in paths
    requires forall i :: 0 <= i < k ==> Before(paths[i], wanted)
    requires forall i :: k <= i < |paths| ==> !Before(paths[i], wanted)
    ensures Sorted(paths[..k] + [wanted] + paths[k..])
  {
    forall i | k <= i < |paths| ensures Before(wanted, paths[i]) {
      assert paths[i] in paths;
      BeforeTotal(wanted, paths[i]);
    }
  }

  // ---- The leaf paths of a document ----

  function MemberPath(path: string, key: string): string {
    path + "/" + UpToNul(key)
  }

  function ItemPath(path: string, i: nat): string {
    path + "/" + Decimal(i)
  }

  function Leaves(node: Doc, path: string): seq<string>
    decreases node, 1, 0
  {
    match node
    case Scalar(_) => [path]
    case Arr(_) => ItemLeaves(node, path, 0)
    case Obj(_) => MemberLeaves(node, path, 0)
  }

  function ItemLeaves(node: Doc, path: string, i: nat): seq<string>
    requires node.Arr? && i <= |node.items|
    decreases node, 0, |node.items| - i
  {
    if i == |node.items| then [] else Leaves(node.items[i], ItemPath(path, i)) + ItemLeaves(node, path, i + 1)
  }

  function MemberLeaves(node: Doc, path: string, i: nat): seq<string>
    requires node.Obj? && i <= |node.members|
    decreases node, 0, |node.members| - i
  {
    if i == |node.members| then []
    else Leaves(node.members[i].value, MemberPath(path, node.members[i].key)) + MemberLeaves(node, path, i + 1)
  }

  /** Every path below a node leaves room for its terminator. */
  predicate Fits(node: Doc, path: string)
    decreases node, 1, 0
  {
    match node
    case Scalar(_) => true
    case Arr(_) => ItemsFit(node, path, 0)
    case Obj(_) => MembersFit(node, path, 0)
  }

  predicate ItemFits(path: string, i: nat) {
    |path| + 1 + |Decimal(i)| < LIMIT
  }

  predicate MemberFits(path: string, key: string) {
    |path| + 1 + |key| + 1 < LIMIT
  }

  predicate ItemsFit(node: Doc, path: string, i: nat)
    requires node.Arr? && i <= |node.items|
    decreases node, 0, |node.items| - i
  {
    i == |node.items| || (ItemFits(path, i) && Fits(node.items[i], ItemPath(path, i)) && ItemsFit(node, path, i + 1))
  }

  predicate MembersFit(node: Doc, path: string, i: nat)
    requires node.Obj? && i <= |node.members|
    decreases node, 0, |node.members| - i
  {
    i == |node.members| || (
      && MemberFits(path, node.members[i].key)
      && Fits(node.members[i].value, MemberPath(path, node.members[i].key))
      && MembersFit(node, path, i + 1))
  }

  /** A document of one member fits exactly when slash, key and terminator take less than the 512 characters. */
  lemma {:induction false} OneKeyFits(key: string, token: int)
    ensures Fits(Obj([Member(key, Scalar(token))]), "") <==> |key| + 2 < 512
  {
    var node := Obj([Member(key, Scalar(token))]);
    assert MembersFit(node, "", 1);
    assert MembersFit(node, "", 0) <==> MemberFits("", key) && Fits(Scalar(token), MemberPath("", key));
  }

  /** What fits has only paths that fit a buffer of 512 characters with their terminator. */
  lemma {:induction false} FittingLeaves(node: Doc, path: string)
    requires Fits(node, path) && |path| < 512
    ensures forall k :: 0 <= k < |Leaves(node, path)| ==> |Leaves(node, path)[k]| < 512
    decreases node, 1, 0
  {
    hide UpToNul;
    match node {
      case Scalar(_) =>
      case Arr(_) => FittingItems(node, path, 0);
      case Obj(_) => FittingMembers(node, path, 0);
    }
  }

  lemma {:induction false} FittingItems(node: Doc, path: string, i: nat)
    requires node.Arr? && i <= |node.items| && ItemsFit(node, path, i)
    ensures forall k :: 0 <= k < |ItemLeaves(node, path, i)| ==> |ItemLeaves(node, path, i)[k]| < 512
    decreases node, 0, |node.items| - i
  {
    hide Leaves, Fits, Decimal;
    if i < |node.items| {
      FittingLeaves(node.items[i], ItemPath(path, i));
      FittingItems(node, path, i + 1);
    }
  }

  lemma {:induction false} FittingMembers(node: Doc, path: string, i: nat)
    requires node.Obj? && i <= |node.members| && MembersFit(node, path, i)
    ensures forall k :: 0 <= k < |MemberLeaves(node, path, i)| ==> |MemberLeaves(node, path, i)[k]| < 512
    decreases node, 0, |node.members| - i
  {
    hide Leaves, Fits, UpToNul;
    if i < |node.members| {
      ShorterUpToNul(node.members[i].key);
      FittingLeaves(node.members[i].value, MemberPath(path, node.members[i].key));
      FittingMembers(node, path, i + 1);
    }
  }

  lemma {:induction false} ShorterUpToNul(key: string)
    ensures |UpToNul(key)| <= |key|
  {
    if key != "" {
      ShorterUpToNul(key[1..]);
    }
  }

  // ---- Exporting once ----

  function AddNew(exported: seq<string>, path: string): seq<string> {
    if path in exported then exported else exported + [path]
  }

  function AddAll(exported: seq<string>, paths: seq<string>): seq<string>
    decreases |paths|
  {
    if paths == [] then exported else AddAll(AddNew(exported, paths[0]), paths[1..])
  }

  lemma {:induction false} AddAllAppend(exported: seq<string>, a: seq<string>, b: seq<string>)
    ensures AddAll(exported, a + b) == AddAll(AddAll(exported, a), b)
    decreases |a|
  {
    if a == [] {
      assert a + b == b;
    } else {
      assert (a + b)[1..] == a[1..] + b;
      AddAllAppend(AddNew(exported, a[0]), a[1..], b);
    }
  }

  ghost predicate NoRepeats(paths: seq<string>) {
    forall i, j :: 0 <= i < j < |paths| ==> paths[i] != paths[j]
  }

  /** Each path is exported once, and exactly the enumerated ones are new. */
  lemma {:induction false} ExportedOnce(exported: seq<string>, paths: seq<string>)
    requires NoRepeats(exported)
    ensures NoRepeats(AddAll(exported, paths))
    ensures forall p :: p in AddAll(exported, paths) <==> p in exported || p in paths
    decreases |paths|
  {
    hide NoRepeats, AddNew;
    if paths != [] {
      AddedOnce(exported, paths[0]);
      ExportedOnce(AddNew(exported, paths[0]), paths[1..]);
      assert paths == [paths[0]] + paths[1..];
    }
  }

  lemma {:induction false} AddedOnce(exported: seq<string>, path: string)
    requires NoRepeats(exported)
    ensures NoRepeats(AddNew(exported, path))
    ensures forall p :: p in AddNew(exported, path) <==> p in exported || p == path
  {
  }

  // ---- The enumeration ----

  class Enumeration {
    const path: array<char>
    var sorted: seq<string>
    var exported: seq<string>
    var failed: bool

    constructor ()
      ensures Valid() && Text() == "" && exported == [] && !failed && fresh(path)
    {
      path := new char[LIMIT](_ => NUL);
      sorted, exported, failed := [], [], false;
      new;
      assert path[0] == NUL;
    }

    ghost function Text(): string
      reads this, path
    {
      UpToNul(path[..])
    }

    ghost predicate Valid()
      reads this, path
    {
      && path.Length == LIMIT && |Text()| < LIMIT
      && Sorted(sorted) && forall p :: p in sorted <==> p in exported
    }

    /** Writes a slash and a key after the first characters, with a terminator. */
    method WriteKey(n: nat, key: string)
      requires path.Length == LIMIT && n + 1 + |key| < LIMIT && NUL !in path[..n]
      modifies path
      ensures Text() == old(path[..n]) + "/" + UpToNul(key) && |Text()| < LIMIT
      ensures path[..n] == old(path[..n])
    {
      path[n] := '/';
      forall j | 0 <= j < |key| {
        path[n + 1 + j] := key[j];
      }
      path[n + 1 + |key|] := NUL;
      ghost var before, rest := old(path[..n]), path[n + 2 + |key|..];
      assert path[..] == before + "/" + (key + ([NUL] + rest));
      TerminatedText(before + "/", key, rest);
    }

    method ExportLeaf(text: string)
      requires Valid() && text == Text()
      modifies this
      ensures Valid() && exported == AddNew(old(exported), text) && failed == old(failed)
    {
      var k := LowerBound(sorted, text);
      FoundOrAbsent(sorted, text, k);
      if k != |sorted| && sorted[k] == text {
        return;
      }
      exported := exported + [text];
      InsertSorted(sorted, text, k);
      ghost var was := sorted;
      sorted := sorted[..k] + [text] + sorted[k..];
      assert was == was[..k] + was[k..];
    }

    method StrLen() returns (n: nat)
      requires Valid()
      ensures n == |Text()|
    {
      n := 0;
      while path[n] != NUL
        invariant n <= |Text()|
        decreases LIMIT - n
      {
        n := n + 1;
      }
    }

    method VisitMembers(node: Doc)
      requires node.Obj? && Valid() && !failed
      modifies this, path
      ensures failed <==> !MembersFit(node, old(Text()), 0)
      ensures !failed ==> Valid() && Text() == old(Text())
      ensures !failed ==> exported == AddAll(old(exported), MemberLeaves(node, old(Text()), 0))
      decreases node, 0
    {
      hide UpToNul, MemberPath, Fits, Leaves, Sorted, MembersFit, MemberLeaves, AddAll;
      ghost var p, leaves := Text(), MemberLeaves(node, Text(), 0);
      var n := StrLen();
      var i := 0;
      while i < |node.members| && !failed
        invariant i <= |node.members|
        invariant failed ==> !MembersFit(node, p, 0)
        invariant !failed ==> Valid() && path[..n] == p && (MembersFit(node, p, 0) <==> MembersFit(node, p, i))
        invariant !failed ==> AddAll(exported, MemberLeaves(node, p, i)) == AddAll(old(exported), leaves)
        decreases |node.members| - i
      {
        var key := node.members[i].key;
        MemberStep(node, p, i);
        if n + 1 + |key| + 1 >= LIMIT {
          failed := true;
          return;
        }
        ghost var child := MemberPath(p, key);
        AddAllAppend(exported, Leaves(node.members[i].value, child), MemberLeaves(node, p, i + 1));
        WriteKey(n, key);
        MemberPathIs(p, key);
        Visit(node.members[i].value);
        if !failed {
          PrefixOfText(path[..], p, child);
        }
        i := i + 1;
      }
      path[n] := NUL;
      if !failed {
        NoMembersLeft(node, p, exported);
        CutText(path[..], p);
      }
    }

    method VisitItems(node: Doc)
      requires node.Arr? && Valid() && !failed
      modifies this, path
      ensures failed <==> !ItemsFit(node, old(Text()), 0)
      ensures !failed ==> Valid() && Text() == old(Text())
      ensures !failed ==> exported == AddAll(old(exported), ItemLeaves(node, old(Text()), 0))
      decreases node, 0
    {
      hide UpToNul, ItemPath, Fits, Leaves, Sorted, Decimal, ItemsFit, ItemLeaves, AddAll;
      ghost var p, leaves := Text(), ItemLeaves(node, Text(), 0);
      var n := StrLen();
      var idx := 0;
      while idx < |node.items| && !failed
        invariant idx <= |node.items|
        invariant failed ==> !ItemsFit(node, p, 0)
        invariant !failed ==> Valid() && path[..n] == p && (ItemsFit(node, p, 0) <==> ItemsFit(node, p, idx))
        invariant !failed ==> AddAll(exported, ItemLeaves(node, p, idx)) == AddAll(old(exported), leaves)
        decreases |node.items| - idx
      {
        var digits := Decimal(idx);
        ItemStep(node, p, idx);
        if n + 1 + |digits| >= LIMIT {
          path[n] := '/';
          failed := true;
          return;
        }
        ghost var child := ItemPath(p, idx);
        AddAllAppend(exported, Leaves(node.items[idx], child), ItemLeaves(node, p, idx + 1));
        WriteKey(n, digits);
        ItemPathIs(p, idx);
        Visit(node.items[idx]);
        if !failed {
          PrefixOfText(path[..], p, child);
        }
        idx := idx + 1;
      }
      path[n] := NUL;
      if !failed {
        NoItemsLeft(node, p, exported);
        CutText(path[..], p);
      }
    }

    /**
    Appends the paths of the leaves below a node that were not exported before. It fails exactly
    when some path does not fit; otherwise the buffer holds the node's own path again.
    */
    method Visit(node: Doc)
      requires Valid() && !failed
      modifies this, path
      ensures failed <==> !Fits(node, old(Text()))
      ensures !failed ==> Valid() && Text() == old(Text())
      ensures !failed ==> exported == AddAll(old(exported), Leaves(node, old(Text())))
      decreases node, 1
    {
      match node {
        case Obj(_) => VisitMembers(node);
        case Arr(_) => VisitItems(node);
        case Scalar(_) =>
          var n := StrLen();
          OneLeaf(exported, Text());
          ExportLeaf(path[..n]);
      }
    }
  }

  lemma {:induction false} MemberStep(node: Doc, path: string, i: nat)
    requires node.Obj? && i < |node.members|
    ensures var key, value := node.members[i].key, node.members[i].value;
      && (MembersFit(node, path, i) <==>
            MemberFits(path, key) && Fits(value, MemberPath(path, key)) && MembersFit(node, path, i + 1))
      && MemberLeaves(node, path, i) == Leaves(value, MemberPath(path, key)) + MemberLeaves(node, path, i + 1)
  {
    hide Fits, Leaves, MemberPath;
  }

  lemma {:induction false} ItemStep(node: Doc, path: string, i: nat)
    requires node.Arr? && i < |node.items|
    ensures ItemsFit(node, path, i) <==>
      ItemFits(path, i) && Fits(node.items[i], ItemPath(path, i)) && ItemsFit(node, path, i + 1)
    ensures ItemLeaves(node, path, i) == Leaves(node.items[i], ItemPath(path, i)) + ItemLeaves(node, path, i + 1)
  {
    hide Fits, Leaves, ItemPath, Decimal;
  }

  lemma {:induction false} NoMembersLeft(node: Doc, path: string, exported: seq<string>)
    requires node.Obj?
    ensures MembersFit(node, path, |node.members|)
    ensures AddAll(exported, MemberLeaves(node, path, |node.members|)) == exported
  {
  }

  lemma {:induction false} NoItemsLeft(node: Doc, path: string, exported: seq<string>)
    requires node.Arr?
    ensures ItemsFit(node, path, |node.items|)
    ensures AddAll(exported, ItemLeaves(node, path, |node.items|)) == exported
  {
  }

  lemma {:induction false} OneLeaf(exported: seq<string>, path: string)
    ensures AddAll(exported, [path]) == AddNew(exported, path)
  {
    assert [path][1..] == [];
  }

  lemma {:induction false} MemberPathIs(path: string, key: string)
    ensures MemberPath(path, key) == path + "/" + UpToNul(key)
    ensures |path| < |MemberPath(path, key)| && path <= MemberPath(path, key)
  {
  }

  lemma {:induction false} ItemPathIs(path: string, i: nat)
    ensures ItemPath(path, i) == path + "/" + UpToNul(Decimal(i)) && path <= ItemPath(path, i)
  {
    assert forall k :: 0 <= k < |Decimal(i)| ==> DigitOf(Decimal(i)[k]) < 10;
    UpToNulIs(Decimal(i), "");
    assert Decimal(i) + "" == Decimal(i);
  }

  lemma {:induction false} PrefixOfText(buffer: string, path: string, child: string)
    requires UpToNul(buffer) == child && path <= child
    ensures |path| <= |buffer| && buffer[..|path|] == path
  {
  }

  lemma {:induction false} CutText(buffer: string, path: string)
    requires |path| < |buffer| && buffer[..|path|] == path && buffer[|path|] == NUL && NUL !in path
    ensures UpToNul(buffer) == path
  {
    assert buffer == path + buffer[|path|..];
    UpToNulIs(path, buffer[|path|..]);
  }

  lemma {:induction false} TerminatedText(before: string, key: string, rest: string)
    requires NUL !in before
    ensures UpToNul(before + (key + ([NUL] + rest))) == before + UpToNul(key)
  {
    UpToNulIs(before, key + ([NUL] + rest));
    var t := UpToNul(key);
    if |t| == |key| {
      assert t == key;
      UpToNulIs(key, [NUL] + rest);
      assert UpToNul([NUL] + rest) == [];
      assert key + [] == key;
    } else {
      var more := key[|t|..] + ([NUL] + rest);
      assert key + ([NUL] + rest) == t + more;
      UpToNulIs(t, more);
      assert more[0] == NUL;
      assert t + [] == t;
    }
  }

  // ---- All documents of a request ----

  function AllLeaves(docs: seq<Option<Doc>>): seq<string> {
    if docs == [] then []
    else (if docs[0].Some? then Leaves(docs[0].value, "") else []) + AllLeaves(docs[1..])
  }

  predicate AllFit(docs: seq<Option<Doc>>) {
    forall i :: 0 <= i < |docs| && docs[i].Some? ==> Fits(docs[i].value, "")
  }

  /** Missing documents are skipped; an overlong path fails the whole request. */
  method DocsGist(docs: seq<Option<Doc>>) returns (ok: bool, paths: seq<string>)
    ensures ok <==> AllFit(docs)
    ensures ok ==> paths == AddAll([], AllLeaves(docs))
  {
    hide Leaves, Fits, AddAll, AllLeaves, Enumeration.Valid, UpToNul, Sorted;
    var gist := new Enumeration();
    assert docs[0..] == docs;
    for i := 0 to |docs|
      invariant fresh(gist) && fresh(gist.path) && gist.Valid() && !gist.failed && gist.Text() == ""
      invariant AllFit(docs[..i])
      invariant AddAll(gist.exported, AllLeaves(docs[i..])) == AddAll([], AllLeaves(docs))
    {
      assert docs[..i + 1] == docs[..i] + [docs[i]];
      NextLeaves(gist.exported, docs, i);
      if docs[i].Some? {
        gist.Visit(docs[i].value);
        if gist.failed {
          return false, [];
        }
      }
    }
    assert docs[..|docs|] == docs;
    NoMoreLeaves(gist.exported, docs[|docs|..]);
    ok, paths := true, gist.exported;
  }

  lemma {:induction false} NextLeaves(exported: seq<string>, docs: seq<Option<Doc>>, i: nat)
    requires i < |docs|
    ensures AddAll(exported, AllLeaves(docs[i..])) ==
      AddAll(if docs[i].Some? then AddAll(exported, Leaves(docs[i].value, "")) else exported, AllLeaves(docs[i + 1..]))
  {
    hide Leaves, AddAll;
    assert docs[i..][0] == docs[i] && docs[i..][1..] == docs[i + 1..];
    var more := AllLeaves(docs[i + 1..]);
    if docs[i].Some? {
      AddAllAppend(exported, Leaves(docs[i].value, ""), more);
    } else {
      assert [] + more == more;
    }
  }

  lemma {:induction false} NoMoreLeaves(exported: seq<string>, docs: seq<Option<Doc>>)
    requires docs == []
    ensures AddAll(exported, AllLeaves(docs)) == exported
  {
  }

  /** Each distinct leaf path of all documents is exported exactly once. */
  lemma {:induction false} EveryLeafOnce(docs: seq<Option<Doc>>, p: string)
    ensures NoRepeats(AddAll([], AllLeaves(docs)))
    ensures p in AddAll([], AllLeaves(docs)) <==> exists i :: 0 <= i < |docs| && LeafOf(docs[i], p)
  {
    ExportedOnce([], AllLeaves(docs));
    SomeLeaf(docs, p);
  }

  predicate LeafOf(doc: Option<Doc>, p: string) {
    doc.Some? && p in Leaves(doc.value, "")
  }

  lemma {:induction false} SomeLeaf(docs: seq<Option<Doc>>, p: string)
    ensures p in AllLeaves(docs) <==> exists i :: 0 <= i < |docs| && LeafOf(docs[i], p)
  {
    hide Leaves;
    if docs != [] {
      SomeLeaf(docs[1..], p);
      assert forall i :: 0 <= i < |docs[1..]| ==> docs[1..][i] == docs[i + 1];
      if exists i :: 0 <= i < |docs| && LeafOf(docs[i], p) {
        var i :| 0 <= i < |docs| && LeafOf(docs[i], p);
        assert i > 0 ==> docs[1..][i - 1] == docs[i];
      }
    }
  }

  // ---- Exported paths as pointers ----

  predicate PlainKey(key: string) {
    '/' !in key && '~' !in key && NUL !in key
  }

  /** Keys need no escaping; names may repeat. */
  predicate EasyKeys(node: Doc) {
    match node
    case Scalar(_) => true
    case Arr(items) => forall i :: 0 <= i < |items| ==> EasyKeys(items[i])
    case Obj(members) => forall i :: 0 <= i < |members| ==> PlainKey(members[i].key) && EasyKeys(members[i].value)
  }

  /** Keys need no escaping, and no object has two members of one name. */
  predicate PlainKeys(node: Doc) {
    match node
    case Scalar(_) => true
    case Arr(items) => forall i :: 0 <= i < |items| ==> PlainKeys(items[i])
    case Obj(members) =>
      && (forall i :: 0 <= i < |members| ==> PlainKey(members[i].key) && PlainKeys(members[i].value))
      && (forall i, j :: 0 <= i < j < |members| ==> members[i].key != members[j].key)
  }

  function PathText(tokens: seq<string>): string {
    if tokens == [] then "" else "/" + tokens[0] + PathText(tokens[1..])
  }

  predicate AllPlain(tokens: seq<string>) {
    forall i :: 0 <= i < |tokens| ==> PlainKey(tokens[i])
  }

  lemma {:induction false} PlainUpToNul(key: string)
    requires PlainKey(key)
    ensures UpToNul(key) == key
  {
    UpToNulIs(key, "");
    assert key + "" == key;
  }

  lemma {:induction false} IndexIsPlain(i: nat)
    ensures PlainKey(Decimal(i)) && IsIndex(Decimal(i)) && Value(Decimal(i), 10) == i
  {
    assert forall k :: 0 <= k < |Decimal(i)| ==> DigitOf(Decimal(i)[k]) < 10;
    DecimalValue(i);
  }

  lemma {:induction false} WhichItem(node: Doc, path: string, i: nat, q: string) returns (k: nat)
    requires node.Arr? && i <= |node.items| && q in ItemLeaves(node, path, i)
    ensures k < |node.items| && q in Leaves(node.items[k], ItemPath(path, k))
    decreases |node.items| - i
  {
    hide Leaves, ItemPath;
    if q in Leaves(node.items[i], ItemPath(path, i)) {
      k := i;
    } else {
      k := WhichItem(node, path, i + 1, q);
    }
  }

  lemma {:induction false} WhichMember(node: Doc, path: string, i: nat, q: string) returns (k: nat)
    requires node.Obj? && i <= |node.members| && q in MemberLeaves(node, path, i)
    ensures k < |node.members| && q in Leaves(node.members[k].value, MemberPath(path, node.members[k].key))
    decreases |node.members| - i
  {
    hide Leaves, MemberPath;
    if q in Leaves(node.members[i].value, MemberPath(path, node.members[i].key)) {
      k := i;
    } else {
      k := WhichMember(node, path, i + 1, q);
    }
  }

  lemma {:induction false} OnlyOne(members: seq<Member>, k: nat)
    requires k < |members| && forall i, j :: 0 <= i < j < |members| ==> members[i].key != members[j].key
    ensures Named(members, members[k].key) == Some(members[k].value)
  {
    assert FirstOf(members, members[k].key) <= k;
  }

  /** Every enumerated path spells the tokens that lead to a leaf. */
  lemma {:induction false} LeafResolves(node: Doc, path: string, q: string) returns (tokens: seq<string>)
    requires PlainKeys(node) && q in Leaves(node, path)
    ensures q == path + PathText(tokens) && AllPlain(tokens)
    ensures Resolve(node, tokens).Some? && Resolve(node, tokens).value.Scalar?
    decreases node
  {
    hide ItemLeaves, MemberLeaves, PlainKey, Value, IsIndex, UpToNul, Decimal;
    match node {
      case Scalar(_) =>
        tokens := [];
        assert path + "" == path;
      case Arr(items) =>
        var k := WhichItem(node, path, 0, q);
        IndexIsPlain(k);
        var more := LeafResolves(items[k], ItemPath(path, k), q);
        tokens := [Decimal(k)] + more;
        assert tokens[1..] == more;
        assert path + "/" + Decimal(k) + PathText(more) == path + ("/" + Decimal(k) + PathText(more));
      case Obj(members) =>
        var k := WhichMember(node, path, 0, q);
        var key := members[k].key;
        PlainUpToNul(key);
        OnlyOne(members, k);
        var more := LeafResolves(members[k].value, MemberPath(path, key), q);
        tokens := [key] + more;
        assert tokens[1..] == more;
        assert path + "/" + key + PathText(more) == path + ("/" + key + PathText(more));
    }
  }

  lemma {:induction false} TokensStep(t: string, rest: string)
    requires '/' !in t
    ensures Tokens(t + "/" + rest) == [t] + Tokens(rest)
  {
    hide Slash;
    var s := t + "/" + rest;
    assert s[..|t|] == t && s[|t|] == '/' && s[|t| + 1..] == rest;
    SlashIs(s, |t|);
  }

  lemma {:induction false} PlainUnescapes(tokens: seq<string>)
    requires AllPlain(tokens)
    ensures UnescapeAll(tokens) == Some(tokens)
  {
    hide Unescape;
    if tokens != [] {
      UnescapeChanges(tokens[0]);
      PlainUnescapes(tokens[1..]);
      assert tokens == [tokens[0]] + tokens[1..];
    }
  }

  lemma {:induction false} TokensOfPath(tokens: seq<string>)
    requires tokens != [] && AllPlain(tokens)
    ensures Tokens(PathText(tokens)[1..]) == tokens && UnescapeAll(tokens) == Some(tokens)
  {
    hide Tokens, UnescapeAll, PathText, PlainKey;
    PlainUnescapes(tokens);
    var t, more := tokens[0], tokens[1..];
    FirstToken(tokens);
    assert tokens == [t] + more;
    if more == [] {
      NoSlash(t);
    } else {
      TokensOfPath(more);
      FirstToken(more);
      TokensStep(t, PathText(more)[1..]);
    }
  }

  /** The text of a path starts with a slash and its first token, which has none. */
  lemma {:induction false} FirstToken(tokens: seq<string>)
    requires tokens != [] && PlainKey(tokens[0])
    ensures PathText(tokens) != "" && '/' !in tokens[0]
    ensures PathText(tokens)[1..] ==
      if |tokens| == 1 then tokens[0] else tokens[0] + "/" + PathText(tokens[1..])[1..]
  {
    var t, more := tokens[0], PathText(tokens[1..]);
    PathTextStep(tokens);
    hide PathText;
    assert PathText(tokens)[1..] == t + more;
    if |tokens| == 1 {
      assert t + "" == t;
    } else {
      PathTextStep(tokens[1..]);
      SlashKept(t, more);
    }
  }

  lemma {:induction false} PathTextStep(tokens: seq<string>)
    ensures tokens == [] ==> PathText(tokens) == ""
    ensures tokens != [] ==> PathText(tokens) == "/" + tokens[0] + PathText(tokens[1..])
  {
  }

  lemma {:induction false} SlashKept(t: string, more: string)
    requires more != "" && more[0] == '/'
    ensures t + more == t + "/" + more[1..]
  {
    assert more == "/" + more[1..];
  }

  /** Without repeated names every enumerated path is a pointer to a leaf. */
  lemma {:induction false} UniquePathsResolve(doc: Doc, q: string)
    requires PlainKeys(doc) && q in Leaves(doc, "")
    ensures IsLeaf(doc, q)
  {
    hide Leaves, PlainKeys, Tokens, UnescapeAll;
    var tokens := LeafResolves(doc, "", q);
    assert "" + PathText(tokens) == PathText(tokens);
    if tokens != [] {
      TokensOfPath(tokens);
    }
  }

  /** The pointer leads to a leaf of the document. */
  predicate IsLeaf(doc: Doc, q: string) {
    LookUp(doc, q).Some? && LookUp(doc, q).value.Scalar?
  }

  lemma {:induction false} ItemListed(node: Doc, path: string, i: nat, k: nat, q: string)
    requires node.Arr? && i <= k < |node.items| && q in Leaves(node.items[k], ItemPath(path, k))
    ensures q in ItemLeaves(node, path, i)
    decreases |node.items| - i
  {
    hide Leaves, ItemPath;
    if i < k {
      ItemListed(node, path, i + 1, k, q);
    }
  }

  lemma {:induction false} MemberListed(node: Doc, path: string, i: nat, k: nat, q: string)
    requires node.Obj? && i <= k < |node.members|
    requires q in Leaves(node.members[k].value, MemberPath(path, node.members[k].key))
    ensures q in MemberLeaves(node, path, i)
    decreases |node.members| - i
  {
    hide Leaves, MemberPath;
    if i < k {
      MemberListed(node, path, i + 1, k, q);
    }
  }

  /** Every path of tokens to a leaf is enumerated, repeated names or not. */
  lemma {:induction false} LeafIsListed(node: Doc, path: string, tokens: seq<string>)
    requires EasyKeys(node) && Resolve(node, tokens).Some? && Resolve(node, tokens).value.Scalar?
    ensures path + PathText(tokens) in Leaves(node, path)
    decreases |tokens|
  {
    hide ItemLeaves, MemberLeaves, PlainKey, Value, IsIndex, UpToNul, Decimal;
    if tokens == [] {
      assert path + "" == path;
    } else {
      var t, more := tokens[0], tokens[1..];
      var child := Child(node, t).value;
      LeafChildPlain(node, t);
      assert path + "/" + t + PathText(more) == path + ("/" + t + PathText(more));
      LeafIsListed(child, path + "/" + t, more);
      if node.Arr? {
        IndexText(t);
        ItemListed(node, path, 0, Value(t, 10), path + PathText(tokens));
      } else {
        PlainUpToNul(t);
        MemberListed(node, path, 0, FirstOf(node.members, t), path + PathText(tokens));
      }
    }
  }

  lemma {:induction false} LeafChildPlain(node: Doc, t: string)
    requires EasyKeys(node) && Child(node, t).Some?
    ensures EasyKeys(Child(node, t).value) && (node.Obj? ==> PlainKey(t))
    ensures node.Arr? ==> IsIndex(t)
  {
    hide Value, PlainKey;
    if node.Obj? {
      assert node.members[FirstOf(node.members, t)].key == t;
    }
  }

  // ---- Repeated names ----

  /** The document as pointers see it: of the members of one name only the first. */
  function FirstOnly(node: Doc): Doc
    decreases node, 1, 0
  {
    match node
    case Scalar(_) => node
    case Arr(items) => Arr(seq(|items|, i requires 0 <= i < |items| => FirstOnly(items[i])))
    case Obj(_) => Obj(FirstMembers(node, 0))
  }

  function FirstMembers(node: Doc, i: nat): seq<Member>
    requires node.Obj? && i <= |node.members|
    decreases node, 0, |node.members| - i
  {
    if i == |node.members| then [] else
      var m := node.members[i];
      (if FirstOf(node.members, m.key) == i then [Member(m.key, FirstOnly(m.value))] else []) + FirstMembers(node, i + 1)
  }

  lemma {:induction false} FirstMemberNamed(node: Doc, i: nat, t: string)
    requires node.Obj? && i <= |node.members|
    ensures var k := FirstOf(node.members, t);
      Named(FirstMembers(node, i), t) == if i <= k < |node.members| then Some(FirstOnly(node.members[k].value)) else None
    decreases |node.members| - i
  {
    hide FirstOf, FirstOnly;
    if i == |node.members| {
      NobodyNamed(t);
    } else {
      var m, rest := node.members[i], FirstMembers(node, i + 1);
      FirstMemberNamed(node, i + 1, t);
      NamedStep(Member(m.key, FirstOnly(m.value)), rest, t);
      assert [] + rest == rest;
    }
  }

  lemma {:induction false} ChildOfFirst(node: Doc, t: string)
    ensures Child(FirstOnly(node), t) == if Child(node, t).None? then None else Some(FirstOnly(Child(node, t).value))
  {
    hide FirstOf, Value, IsIndex;
    if node.Obj? {
      FirstMemberNamed(node, 0, t);
    }
  }

  /** Pointers cannot tell a document from its first members. */
  lemma {:induction false} ResolveFirst(node: Doc, tokens: seq<string>)
    ensures Resolve(FirstOnly(node), tokens) ==
      if Resolve(node, tokens).None? then None else Some(FirstOnly(Resolve(node, tokens).value))
    decreases |tokens|
  {
    hide FirstOnly, Child;
    if tokens != [] {
      ChildOfFirst(node, tokens[0]);
      if Child(node, tokens[0]).Some? {
        ResolveFirst(Child(node, tokens[0]).value, tokens[1..]);
      }
    }
  }

  lemma {:induction false} MemberIsEasy(node: Doc, i: nat)
    requires node.Obj? && i < |node.members| && EasyKeys(node)
    ensures PlainKey(node.members[i].key) && EasyKeys(node.members[i].value)
  {
  }

  lemma {:induction false} FirstMembersStep(node: Doc, i: nat)
    requires node.Obj? && i <= |node.members|
    ensures FirstMembers(node, i) ==
      if i == |node.members| then []
      else if FirstOf(node.members, node.members[i].key) == i then
        [Member(node.members[i].key, FirstOnly(node.members[i].value))] + FirstMembers(node, i + 1)
      else FirstMembers(node, i + 1)
  {
    hide FirstOf, FirstOnly;
    if i < |node.members| {
      assert [] + FirstMembers(node, i + 1) == FirstMembers(node, i + 1);
    }
  }

  lemma {:induction false} FirstMembersPlain(node: Doc, i: nat)
    requires node.Obj? && i <= |node.members| && EasyKeys(node)
    ensures forall k :: 0 <= k < |FirstMembers(node, i)| ==>
      PlainKey(FirstMembers(node, i)[k].key) && PlainKeys(FirstMembers(node, i)[k].value)
    ensures forall k :: 0 <= k < |FirstMembers(node, i)| ==>
      i <= FirstOf(node.members, FirstMembers(node, i)[k].key) < |node.members|
    ensures forall j, k :: 0 <= j < k < |FirstMembers(node, i)| ==>
      FirstMembers(node, i)[j].key != FirstMembers(node, i)[k].key
    decreases node, 0, |node.members| - i
  {
    hide PlainKey, PlainKeys, FirstOnly, EasyKeys, FirstMembers, FirstOf;
    FirstMembersStep(node, i);
    if i < |node.members| {
      FirstMembersPlain(node, i + 1);
      MemberIsEasy(node, i);
      FirstIsPlain(node.members[i].value);
    }
  }

  lemma {:induction false} FirstIsPlain(node: Doc)
    requires EasyKeys(node)
    ensures PlainKeys(FirstOnly(node))
    decreases node, 1, 0
  {
    hide PlainKey, FirstOf;
    match node {
      case Scalar(_) =>
      case Arr(items) =>
        forall i | 0 <= i < |items| ensures PlainKeys(FirstOnly(items[i])) {
          FirstIsPlain(items[i]);
        }
      case Obj(_) => FirstMembersPlain(node, 0);
    }
  }

  lemma {:induction false} PathOfTokens(s: string)
    ensures PathText(Tokens(s)) == "/" + s
    decreases |s|
  {
    hide Slash;
    var k := Slash(s);
    if k == |s| {
      assert [s][1..] == [];
      assert "/" + s + "" == "/" + s;
    } else {
      PathOfTokens(s[k + 1..]);
      var ts := Tokens(s);
      assert ts[1..] == Tokens(s[k + 1..]) && ts[0] == s[..k];
      assert s == s[..k] + ("/" + s[k + 1..]);
    }
  }

  lemma {:induction false} PlainTokens(s: string)
    requires '~' !in s
    ensures UnescapeAll(Tokens(s)) == Some(Tokens(s))
    decreases |s|
  {
    hide Slash, Unescape;
    var k := Slash(s);
    assert UnescapeAll([]) == Some([]);
    if k == |s| {
      UnescapeChanges(s);
      assert [s][1..] == [] && [s] + [] == [s];
    } else {
      UnescapeChanges(s[..k]);
      PlainTokens(s[k + 1..]);
      assert Tokens(s)[1..] == Tokens(s[k + 1..]);
    }
  }

  /** A pointer leads to a leaf exactly when it is among the leaf paths of the first members. */
  lemma {:induction false} PointersAreFirstLeaves(doc: Doc, q: string)
    requires EasyKeys(doc) && '~' !in q
    ensures IsLeaf(doc, q) <==> q in Leaves(FirstOnly(doc), "")
  {
    hide Leaves, FirstOnly, EasyKeys, PlainKeys, Tokens, UnescapeAll;
    FirstIsPlain(doc);
    if q in Leaves(FirstOnly(doc), "") {
      UniquePathsResolve(FirstOnly(doc), q);
      var tokens := ParsePointer(q).value;
      ResolveFirst(doc, tokens);
      LeafOfFirst(Resolve(doc, tokens).value);
    }
    if IsLeaf(doc, q) {
      var tokens := ParsePointer(q).value;
      ResolveFirst(doc, tokens);
      LeafOfFirst(Resolve(doc, tokens).value);
      PlainIsEasy(FirstOnly(doc));
      LeafIsListed(FirstOnly(doc), "", tokens);
      if q != "" {
        PlainTokens(q[1..]);
        PathOfTokens(q[1..]);
        assert q == "/" + q[1..];
      }
      assert "" + PathText(tokens) == q;
    }
  }

  lemma {:induction false} LeafOfFirst(node: Doc)
    ensures FirstOnly(node).Scalar? <==> node.Scalar?
  {
  }

  lemma {:induction false} PlainIsEasy(node: Doc)
    requires PlainKeys(node)
    ensures EasyKeys(node)
  {
    match node {
      case Scalar(_) =>
      case Arr(items) =>
        forall i | 0 <= i < |items| ensures EasyKeys(items[i]) { PlainIsEasy(items[i]); }
      case Obj(members) =>
        forall i | 0 <= i < |members| ensures EasyKeys(members[i].value) { PlainIsEasy(members[i].value); }
    }
  }

  /** Every pointer to a leaf is among the exported paths, repeated names or not. */
  lemma {:induction false} LeavesAreListed(doc: Doc, q: string)
    requires EasyKeys(doc) && '~' !in q && IsLeaf(doc, q)
    ensures q in Leaves(doc, "")
  {
    hide Leaves, EasyKeys, Tokens, UnescapeAll;
    var tokens := ParsePointer(q).value;
    LeafIsListed(doc, "", tokens);
    if q != "" {
      PlainTokens(q[1..]);
      PathOfTokens(q[1..]);
      assert q == "/" + q[1..];
    }
    assert "" + PathText(tokens) == q;
  }

  lemma {:induction false} NoTildeInPath(node: Doc, path: string, q: string)
    requires EasyKeys(node) && '~' !in path && q in Leaves(node, path)
    ensures '~' !in q
  {
    hide ItemLeaves, MemberLeaves, UpToNul, Decimal;
    match node {
      case Scalar(_) =>
      case Arr(items) =>
        var k := WhichItem(node, path, 0, q);
        IndexIsPlain(k);
        NoTildeInPath(items[k], ItemPath(path, k), q);
      case Obj(members) =>
        var k := WhichMember(node, path, 0, q);
        PlainUpToNul(members[k].key);
        NoTildeInPath(members[k].value, MemberPath(path, members[k].key), q);
    }
  }

  /** Every exported path leads to a leaf exactly when the first members have all the leaf paths. */
  lemma {:induction false} PathsResolve(doc: Doc)
    requires EasyKeys(doc)
    ensures (forall q :: q in Leaves(doc, "") ==> IsLeaf(doc, q)) <==>
      (forall q :: q in Leaves(doc, "") ==> q in Leaves(FirstOnly(doc), ""))
  {
    hide Leaves, FirstOnly, EasyKeys, IsLeaf;
    forall q | q in Leaves(doc, "") ensures IsLeaf(doc, q) <==> q in Leaves(FirstOnly(doc), "") {
      NoTildeInPath(doc, "", q);
      PointersAreFirstLeaves(doc, q);
    }
  }

  /** With two members of one name, a leaf below the second is listed but cannot be reached. */
  lemma {:induction false} SecondOfANameIsHidden()
    ensures var doc := Obj([Member("a", Scalar(1)), Member("a", Obj([Member("b", Scalar(2))]))]);
      "/a/b" in Leaves(doc, "") && LookUp(doc, "/a/b") == None
  {
    hide Leaves, MemberLeaves, Tokens, UnescapeAll;
    var inner := Obj([Member("b", Scalar(2))]);
    var doc := Obj([Member("a", Scalar(1)), Member("a", inner)]);
    HiddenLeaf(inner);
    assert "" + "/" + "a" == "/a" && PlainKey("a");
    PlainUpToNul("a");
    MemberListed(doc, "", 0, 1, "/a/b");
    LeavesOfObject(doc, "");
    var tokens := ["a", "b"];
    assert tokens[1..] == ["b"] && ["b"][1..] == [];
    assert PathText(tokens) == "/a/b";
    TokensOfPath(tokens);
    assert Child(doc, "a") == Some(Scalar(1));
  }

  lemma {:induction false} LeavesOfObject(node: Doc, path: string)
    requires node.Obj?
    ensures Leaves(node, path) == MemberLeaves(node, path, 0)
  {
  }

  lemma {:induction false} HiddenLeaf(inner: Doc)
    requires inner == Obj([Member("b", Scalar(2))])
    ensures "/a/b" in Leaves(inner, "/a")
  {
    var tokens := ["b"];
    assert tokens[1..] == [] && PathText(tokens) == "/b";
    assert "/a" + "/b" == "/a/b";
    OneStep(inner, "b");
    LeafIsListed(inner, "/a", tokens);
  }
}
