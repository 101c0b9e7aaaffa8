/**
The command line of the Flight protocol: the client prints a name and `&`-terminated
parameters (`src/flight_client.cpp`), the server searches them by name
(`src/flight_server.cpp`). Numbers travel as sixteen hexadecimal digits, or in decimal.
*/
module Commands {
  import opened Store
  import opened Numbers

  // ---- The client's side ----

  /** A parameter with a value, or a flag that is merely there. */
  datatype Param = Pair(name: string, value: string) | Flag(name: string)

  predicate PlainName(s: string) {
    s != "" && forall i :: 0 <= i < |s| ==> s[i] !in {'?', '&', '=', '/'}
  }

  predicate PlainValue(s: string) {
    forall i :: 0 <= i < |s| ==> s[i] !in {'?', '&', '/'}
  }

  predicate Plain(p: Param) {
    PlainName(p.name) && (p.Pair? ==> PlainValue(p.value))
  }

  predicate AllPlain(ps: seq<Param>) {
    forall i :: 0 <= i < |ps| ==> Plain(ps[i])
  }

  function Printed(p: Param): string {
    if p.Pair? then p.name + "=" + p.value + "&" else p.name + "&"
  }

  function PrintAll(ps: seq<Param>): string {
    if ps == [] then "" else Printed(ps[0]) + PrintAll(ps[1..])
  }

  /** What a name stands for in a parameter list: the first mention counts. */
  function Lookup(ps: seq<Param>, name: string): Option<string> {
    if ps == [] then None
    else if ps[0].name == name then Some(if ps[0].Pair? then ps[0].value else "")
    else Lookup(ps[1..], name)
  }

  // ---- The server's side ----

  predicate Occurs(query: string, name: string, k: nat) {
    k + |name| <= |query| && query[k..k + |name|] == name
  }

  predicate Opens(c: char) {
    c == '?' || c == '&' || c == '/'
  }

  /** An occurrence the search stops at: a whole key, or any occurrence that ends the text. */
  predicate Hit(query: string, name: string, k: nat) {
    && Occurs(query, name, k)
    && (|| k + |name| == |query|
        || (k > 0 && Opens(query[k - 1]) && (query[k + |name|] == '&' || query[k + |name|] == '=')))
  }

  function Ampersand(query: string, from: nat): (k: nat)
    requires from <= |query|
    ensures from <= k <= |query| && '&' !in query[from..k] && (k < |query| ==> query[k] == '&')
    decreases |query| - from
  {
    if from == |query| || query[from] == '&' then from else
      var k := Ampersand(query, from + 1);
      assert query[from..k] == [query[from]] + query[from + 1..k];
      k
  }

  function ValueAt(query: string, name: string, k: nat): string
    requires Hit(query, name, k)
  {
    var after := k + |name|;
    if after == |query| || query[after] == '&' then "" else query[after + 1..Ampersand(query, after + 1)]
  }

  /** The search answers with the value of the first hit, or with nothing if there is none. */
  ghost predicate Answers(query: string, name: string, r: Option<string>) {
    if r.None? then forall k: nat :: !Hit(query, name, k)
    else exists k: nat :: FirstHit(query, name, k) && r.value == ValueAt(query, name, k)
  }

  ghost predicate FirstHit(query: string, name: string, k: nat) {
    Hit(query, name, k) && forall j: nat :: j < k ==> !Hit(query, name, j)
  }

  /** The search for the next occurrence; past the end when there is none. */
  method Search(query: string, name: string, from: nat) returns (k: nat)
    requires from <= |query|
    ensures from <= k <= |query|
    ensures k < |query| ==> Occurs(query, name, k)
    ensures forall j :: from <= j < k ==> !Occurs(query, name, j)
    ensures k == |query| && name != "" ==> forall j: nat :: from <= j ==> !Occurs(query, name, j)
  {
    k := from;
    while k < |query| && !(k + |name| <= |query| && query[k..k + |name|] == name)
      invariant from <= k <= |query|
      invariant forall j :: from <= j < k ==> !Occurs(query, name, j)
    {
      k := k + 1;
    }
  }

  /** The character before the start is read, so the name may not match there. */
  method ParamValue(query: string, name: string) returns (r: Option<string>)
    requires name != "" && !Occurs(query, name, 0)
    ensures Answers(query, name, r)
  {
    var keyBegin := 0;
    while true
      invariant keyBegin <= |query|
      invariant forall j: nat :: j < keyBegin ==> !Hit(query, name, j)
      decreases |query| - keyBegin
    {
      keyBegin := Search(query, name, keyBegin);
      if keyBegin == |query| {
        return None;
      }
      assert forall j: nat :: j < keyBegin ==> !Hit(query, name, j);
      if keyBegin + |name| == |query| {
        assert FirstHit(query, name, keyBegin);
        return Some("");
      }
      var previous := query[keyBegin - 1];
      if previous != '?' && previous != '&' && previous != '/' {
        keyBegin := keyBegin + 1;
        continue;
      }
      var next := query[keyBegin + |name|];
      if next == '&' {
        assert FirstHit(query, name, keyBegin);
        return Some("");
      }
      if next == '=' {
        assert FirstHit(query, name, keyBegin);
        var valueBegin := keyBegin + |name| + 1;
        return Some(query[valueBegin..Ampersand(query, valueBegin)]);
      }
      keyBegin := keyBegin + 1;
    }
  }

  predicate IsQuery(uri: string, name: string) {
    if |uri| > |name| then uri[..|name|] == name && uri[|name|] == '?' else uri == name
  }

  // ---- The round trip ----

  lemma {:induction false} AnswerIsUnique(query: string, name: string, r: Option<string>, k: nat)
    requires Answers(query, name, r) && FirstHit(query, name, k)
    ensures r == Some(ValueAt(query, name, k))
  {
    if r.Some? {
      var j: nat :| FirstHit(query, name, j) && r.value == ValueAt(query, name, j);
      assert j == k;
    }
  }

  lemma {:induction false} EndsInAmpersand(ps: seq<Param>)
    requires ps != []
    ensures var s := PrintAll(ps); s != "" && s[|s| - 1] == '&'
  {
    if |ps| > 1 {
      EndsInAmpersand(ps[1..]);
    }
  }

  lemma {:induction false} OccursAt(query: string, name: string, k: nat, i: nat)
    requires i < |name|
    ensures Occurs(query, name, k) ==> query[k + i] == name[i]
  {
    assert k + |name| <= |query| ==> query[k..k + |name|][i] == query[k + i];
  }

  /** Inside one printed parameter the only possible hit is its own name. */
  lemma {:induction false} HitsInside(before: string, p: Param, rest: string, name: string, k: nat)
    requires Plain(p) && PlainName(name) && before != "" && Opens(before[|before| - 1])
    requires rest != "" ==> rest[|rest| - 1] == '&'
    requires |before| <= k < |before| + |Printed(p)|
    ensures Hit(before + Printed(p) + rest, name, k) <==> k == |before| && name == p.name
  {
    var token := Printed(p);
    var query := before + token + rest;
    assert query[|query| - 1] == '&';
    OccursAt(query, name, k, |name| - 1);
    assert k > |before| ==> query[k - 1] == token[k - 1 - |before|] && !Opens(token[k - 1 - |before|]);
    NameAt(before, p, rest, name);
  }

  lemma {:induction false} NameAt(before: string, p: Param, rest: string, name: string)
    requires Plain(p) && PlainName(name) && before != "" && Opens(before[|before| - 1])
    ensures var query := before + Printed(p) + rest;
      |before| + |name| != |query| ==> (Hit(query, name, |before|) <==> name == p.name)
  {
    var token := Printed(p);
    var query := before + token + rest;
    var n := |before|;
    assert query[n - 1] == before[n - 1];
    assert query[n + |p.name|] == token[|p.name|];
    assert query[n..n + |p.name|] == p.name;
    if |name| < |p.name| {
      assert query[n + |name|] == p.name[|name|];
    } else if |name| > |p.name| {
      OccursAt(query, name, n, |p.name|);
    }
  }

  lemma {:induction false} AmpersandIs(query: string, from: nat, stop: nat)
    requires from <= stop < |query| && query[stop] == '&' && '&' !in query[from..stop]
    ensures Ampersand(query, from) == stop
    decreases stop - from
  {
    if from < stop {
      assert query[from..stop] == [query[from]] + query[from + 1..stop];
      AmpersandIs(query, from + 1, stop);
    }
  }

  lemma {:induction false} AmpersandAfter(a: string, value: string, rest: string)
    requires PlainValue(value)
    ensures var query := a + value + "&" + rest;
      Ampersand(query, |a|) == |a| + |value| && query[|a|..|a| + |value|] == value
  {
    var query := a + value + "&" + rest;
    assert query[|a|..|a| + |value|] == value;
    AmpersandIs(query, |a|, |a| + |value|);
  }

  lemma {:induction false} ValueInside(before: string, p: Param, rest: string)
    requires Plain(p) && Hit(before + Printed(p) + rest, p.name, |before|)
    ensures ValueAt(before + Printed(p) + rest, p.name, |before|) == if p.Pair? then p.value else ""
  {
    hide Hit, Ampersand, Plain, ValueAt;
    if p.Pair? {
      PlainPair(p);
      assert before + Printed(p) + rest == (before + p.name + "=") + p.value + "&" + rest;
      PairInside(before, p.name, p.value, rest);
    } else {
      assert before + Printed(p) + rest == before + p.name + "&" + rest;
      FlagInside(before, p.name, rest);
    }
  }

  lemma {:induction false} PairInside(before: string, name: string, value: string, rest: string)
    requires PlainValue(value)
    requires Hit((before + name + "=") + value + "&" + rest, name, |before|)
    ensures ValueAt((before + name + "=") + value + "&" + rest, name, |before|) == value
  {
    hide Hit, Ampersand, PlainValue;
    var a := before + name + "=";
    AmpersandAfter(a, value, rest);
    assert (a + value + "&" + rest)[|a| - 1] == a[|a| - 1] == '=';
  }

  lemma {:induction false} FlagInside(before: string, name: string, rest: string)
    requires Hit(before + name + "&" + rest, name, |before|)
    ensures ValueAt(before + name + "&" + rest, name, |before|) == ""
  {
    hide Hit, Ampersand;
    assert (before + name + "&" + rest)[|before + name|] == '&';
  }

  lemma {:induction false} PlainPair(p: Param)
    requires Plain(p) && p.Pair?
    ensures PlainValue(p.value)
  {
  }

  lemma {:induction false} FindsFrom(before: string, ps: seq<Param>, name: string, r: Option<string>)
    requires AllPlain(ps) && PlainName(name) && before != "" && Opens(before[|before| - 1])
    requires Answers(before + PrintAll(ps), name, r)
    requires forall j: nat :: j < |before| ==> !Hit(before + PrintAll(ps), name, j)
    ensures r == Lookup(ps, name)
    decreases |ps|
  {
    hide Hit, ValueAt, Answers, Occurs;
    if ps == [] {
      assert before + PrintAll(ps) == before;
      NothingBeyond(before, name, r);
    } else {
      var p, rest, token := ps[0], PrintAll(ps[1..]), Printed(ps[0]);
      var query := before + token + rest;
      assert before + PrintAll(ps) == query;
      if |ps| > 1 { EndsInAmpersand(ps[1..]); }
      if p.name == name {
        HitsInside(before, p, rest, name, |before|);
        ValueInside(before, p, rest);
        AnswerIsUnique(query, name, r, |before|);
      } else {
        forall j: nat | j < |before + token| ensures !Hit(query, name, j) {
          if j >= |before| { HitsInside(before, p, rest, name, j); }
        }
        FindsFrom(before + token, ps[1..], name, r);
      }
    }
  }

  lemma {:induction false} NothingBeyond(query: string, name: string, r: Option<string>)
    requires Answers(query, name, r) && name != "" && forall j: nat :: j < |query| ==> !Hit(query, name, j)
    ensures r == None
  {
    assert forall j: nat :: Hit(query, name, j) ==> j < |query|;
  }

  /** Searching the printed parameters gives back each value, empty for flags, nothing for absent names. */
  lemma {:induction false} ParamsRoundTrip(ps: seq<Param>, name: string, r: Option<string>)
    requires AllPlain(ps) && PlainName(name) && Answers("?" + PrintAll(ps), name, r)
    ensures r == Lookup(ps, name)
  {
    OccursAt("?" + PrintAll(ps), name, 0, 0);
    FindsFrom("?", ps, name, r);
  }

  /** A printed command is recognised by its own name and by no other. */
  lemma {:induction false} CommandIsRecognised(command: string, params: string, name: string)
    requires '?' !in command && '?' !in name
    ensures IsQuery(command + "?" + params, name) <==> name == command
  {
    var uri := command + "?" + params;
    assert uri[|command|] == '?';
    assert uri[..|command|] == command;
    assert |name| < |command| ==> uri[|name|] == command[|name|];
    assert |command| < |name| <= |uri| ==> uri[..|name|][|command|] == '?';
  }

  // ---- Commands without the closing ampersand ----

  predicate EndsWith(s: string, end: string) {
    |end| <= |s| && s[|s| - |end|..] == end
  }

  /**
  Some actions print one last pair without its `&`. Then an absent name is reported as given
  exactly when the value ends with that name.
  */
  lemma {:induction false} UnterminatedPair(key: string, value: string, name: string, r: Option<string>)
    requires PlainName(key) && PlainValue(value) && PlainName(name) && name != key
    requires Answers("?" + key + "=" + value, name, r)
    ensures r == if EndsWith(value, name) then Some("") else None
  {
    var query := "?" + key + "=" + value;
    var last := |query| - |name|;
    forall k: nat ensures Hit(query, name, k) <==> k == last && EndsWith(value, name) {
      HitsUnterminated(key, value, name, k);
    }
    hide Hit, EndsWith;
    if EndsWith(value, name) {
      assert FirstHit(query, name, last);
      AnswerIsUnique(query, name, r, last);
    }
  }

  lemma {:induction false} HitsUnterminated(key: string, value: string, name: string, k: nat)
    requires PlainName(key) && PlainValue(value) && PlainName(name) && name != key
    ensures var query := "?" + key + "=" + value;
      Hit(query, name, k) <==> k == |query| - |name| && EndsWith(value, name)
  {
    var query := "?" + key + "=" + value;
    assert query[0] == '?' && query[|key| + 1] == '=';
    if k + |name| == |query| {
      SuffixOfValue(key, value, name);
      assert query[k..k + |name|] == query[k..];
    } else if k == 1 {
      assert query[1..1 + |key|] == key;
      if |name| < |key| {
        assert query[1 + |name|] == key[|name|];
      } else if |name| > |key| {
        OccursAt(query, name, 1, |key|);
      }
    } else if 1 < k <= |query| {
      assert !Opens(query[k - 1]) by {
        assert k - 1 <= |key| ==> query[k - 1] == key[k - 2];
        assert k - 1 > |key| + 1 ==> query[k - 1] == value[k - 3 - |key|];
      }
    }
  }

  lemma {:induction false} SuffixOfValue(key: string, value: string, name: string)
    requires PlainName(name) && |name| <= |"?" + key + "=" + value|
    ensures var query := "?" + key + "=" + value; query[|query| - |name|..] == name <==> EndsWith(value, name)
  {
    var query := "?" + key + "=" + value;
    if |name| > |value| {
      var at := |name| - |value| - 1;
      assert query[|query| - |name|..][at] == query[|key| + 1] == '=';
    } else {
      assert query[|query| - |name|..] == value[|value| - |name|..];
    }
  }

  lemma {:induction false} FlushIsPlain()
    ensures PlainName("collection_name") && PlainName("flush") && PlainValue("flush")
    ensures EndsWith("flush", "flush")
  {
  }

  /** Creating a collection called "flush" is read as a request to flush. */
  lemma {:induction false} CollectionNameReadAsFlag(r: Option<string>)
    requires Answers("?collection_name=flush", "flush", r)
    ensures r == Some("")
  {
    hide Answers, PlainName, PlainValue, EndsWith;
    assert "?" + "collection_name" + "=" + "flush" == "?collection_name=flush";
    FlushIsPlain();
    UnterminatedPair("collection_name", "flush", "flush", r);
  }

  // ---- A whole read request ----

  datatype Part = WholeValues | OnlyLengths | OnlyPresences

  datatype ReadRequest = ReadRequest(
    txn: nat, snapshot: nat, collection: Option<nat>, part: Part, shared: bool, dontWatch: bool)

  predicate Fits(r: ReadRequest) {
    r.txn < U64 && r.snapshot < U64 && (r.collection.Some? ==> r.collection.value < U64)
  }

  const TXN_NAME := "transaction_id"
  const SNAPSHOT_NAME := "snapshot_id"
  const COLLECTION_NAME := "collection_id"
  const PART_NAME := "part"
  const SHARED_NAME := "shared"
  const DONT_WATCH_NAME := "dont_watch"
  function PartText(part: Part): string { if part == OnlyLengths then "lengths" else "presences" }

  function When(given: bool, p: Param): seq<Param> {
    if given then [p] else []
  }

  /** The parameters in the order the client appends them; transaction zero is none. */
  function ReadParams(r: ReadRequest): seq<Param> {
    When(r.txn != 0, Pair(TXN_NAME, HexId(r.txn)))
    + (When(true, Pair(SNAPSHOT_NAME, Decimal(r.snapshot)))
       + (When(r.collection.Some?, Pair(COLLECTION_NAME, HexId(if r.collection.Some? then r.collection.value else 0)))
          + (When(r.part != WholeValues, Pair(PART_NAME, PartText(r.part)))
             + (When(r.shared, Flag(SHARED_NAME))
                + When(r.dontWatch, Flag(DONT_WATCH_NAME))))))
  }

  /** What the server makes of the answers for each name it asks for. */
  function Understood(
    txn: Option<string>, snapshot: Option<string>, collection: Option<string>, part: Option<string>,
    shared: Option<string>, dontWatch: Option<string>, after: string): ReadRequest
  {
    ReadRequest(
      if txn.Some? then ParseU64Hex(txn.value, after, 0) else 0,
      if snapshot.Some? then ParseDecimal(snapshot.value, 0) else 0,
      if collection.Some? then Some(ParseU64Hex(collection.value, after, 0)) else None,
      if part == Some(PartText(OnlyLengths)) then OnlyLengths
      else if part == Some(PartText(OnlyPresences)) then OnlyPresences
      else WholeValues,
      shared.Some?, dontWatch.Some?)
  }

  lemma {:induction false} HexIsPlain(x: nat)
    ensures PlainValue(HexId(x))
  {
    var digits := Padded(x, 16);
    assert forall i :: 0 <= i < 16 ==> HexId(x)[2 + i] == digits[i];
    assert forall i :: 0 <= i < 16 ==> DigitOf(digits[i]) < 16;
  }

  lemma {:induction false} DecimalIsPlain(x: nat)
    ensures PlainValue(Decimal(x))
  {
    assert forall i :: 0 <= i < |Decimal(x)| ==> DigitOf(Decimal(x)[i]) < 10;
  }

  lemma {:induction false} NamesArePlain()
    ensures PlainName(TXN_NAME) && PlainName(SNAPSHOT_NAME) && PlainName(COLLECTION_NAME)
    ensures PlainName(PART_NAME) && PlainName(SHARED_NAME) && PlainName(DONT_WATCH_NAME)
  {
  }

  lemma {:induction false} NamesDiffer()
    ensures |TXN_NAME| == 14 && |COLLECTION_NAME| == 13 && |SNAPSHOT_NAME| == 11
    ensures |DONT_WATCH_NAME| == 10 && |SHARED_NAME| == 6 && |PART_NAME| == 4
  {
  }

  lemma {:induction false} PartsDiffer(part: Part)
    ensures PlainValue(PartText(part)) && |PartText(OnlyLengths)| != |PartText(OnlyPresences)|
  {
  }

  lemma {:induction false} PlainAfter(given: bool, p: Param, ps: seq<Param>)
    requires (given ==> Plain(p)) && AllPlain(ps)
    ensures AllPlain(When(given, p) + ps)
  {
    hide Plain;
  }

  lemma {:induction false} ReadParamsPlain(r: ReadRequest)
    ensures AllPlain(ReadParams(r))
  {
    hide PlainName, PlainValue, AllPlain, When, HexId, Decimal, PartText;
    hide TXN_NAME, SNAPSHOT_NAME, COLLECTION_NAME, PART_NAME, SHARED_NAME, DONT_WATCH_NAME;
    NamesArePlain();
    PartsDiffer(r.part);
    HexIsPlain(r.txn);
    HexIsPlain(if r.collection.Some? then r.collection.value else 0);
    DecimalIsPlain(r.snapshot);
    NoneIsPlain();
    var f := When(r.dontWatch, Flag(DONT_WATCH_NAME));
    assert f + [] == f;
    PlainAfter(r.dontWatch, Flag(DONT_WATCH_NAME), []);
    var e := When(r.shared, Flag(SHARED_NAME)) + f;
    PlainAfter(r.shared, Flag(SHARED_NAME), f);
    var d := When(r.part != WholeValues, Pair(PART_NAME, PartText(r.part))) + e;
    PlainAfter(r.part != WholeValues, Pair(PART_NAME, PartText(r.part)), e);
    var third := Pair(COLLECTION_NAME, HexId(if r.collection.Some? then r.collection.value else 0));
    var c := When(r.collection.Some?, third) + d;
    PlainAfter(r.collection.Some?, third, d);
    var b := When(true, Pair(SNAPSHOT_NAME, Decimal(r.snapshot))) + c;
    PlainAfter(true, Pair(SNAPSHOT_NAME, Decimal(r.snapshot)), c);
    PlainAfter(r.txn != 0, Pair(TXN_NAME, HexId(r.txn)), b);
  }

  lemma {:induction false} NoneIsPlain()
    ensures AllPlain([])
  {
  }

  lemma {:induction false} LookupAfter(given: bool, p: Param, ps: seq<Param>, name: string)
    ensures Lookup(When(given, p) + ps, name) ==
      if given && p.name == name then Some(if p.Pair? then p.value else "") else Lookup(ps, name)
  {
    var all := When(given, p) + ps;
    assert given ==> all[0] == p && all[1..] == ps;
    assert !given ==> all == ps;
  }

  lemma {:induction false} LookupLast(given: bool, p: Param, name: string)
    ensures Lookup(When(given, p), name) ==
      if given && p.name == name then Some(if p.Pair? then p.value else "") else None
  {
  }

  /** One name looked up among the parameters of a read. */
  lemma {:induction false} ReadLookup(r: ReadRequest, name: string)
    ensures Lookup(ReadParams(r), name) ==
      if r.txn != 0 && name == TXN_NAME then Some(HexId(r.txn))
      else if name == SNAPSHOT_NAME then Some(Decimal(r.snapshot))
      else if r.collection.Some? && name == COLLECTION_NAME then Some(HexId(r.collection.value))
      else if r.part != WholeValues && name == PART_NAME then Some(PartText(r.part))
      else if r.shared && name == SHARED_NAME then Some("")
      else if r.dontWatch && name == DONT_WATCH_NAME then Some("")
      else None
  {
    hide HexId, Decimal, PartText, Lookup, When;
    hide TXN_NAME, SNAPSHOT_NAME, COLLECTION_NAME, PART_NAME, SHARED_NAME, DONT_WATCH_NAME;
    var f := When(r.dontWatch, Flag(DONT_WATCH_NAME));
    var e := When(r.shared, Flag(SHARED_NAME)) + f;
    var d := When(r.part != WholeValues, Pair(PART_NAME, PartText(r.part))) + e;
    var third := Pair(COLLECTION_NAME, HexId(if r.collection.Some? then r.collection.value else 0));
    var c := When(r.collection.Some?, third) + d;
    var b := When(true, Pair(SNAPSHOT_NAME, Decimal(r.snapshot))) + c;
    LookupAfter(r.txn != 0, Pair(TXN_NAME, HexId(r.txn)), b, name);
    LookupAfter(true, Pair(SNAPSHOT_NAME, Decimal(r.snapshot)), c, name);
    LookupAfter(r.collection.Some?, third, d, name);
    LookupAfter(r.part != WholeValues, Pair(PART_NAME, PartText(r.part)), e, name);
    LookupAfter(r.shared, Flag(SHARED_NAME), f, name);
    LookupLast(r.dontWatch, Flag(DONT_WATCH_NAME), name);
  }

  /** The server understands every read request as the client meant it. */
  lemma {:induction false} ReadCommandRoundTrip(
    r: ReadRequest, after: string, txn: Option<string>, snapshot: Option<string>, collection: Option<string>,
    part: Option<string>, shared: Option<string>, dontWatch: Option<string>)
    requires Fits(r) && (after != "" ==> after[0] == '&')
    requires var query := "?" + PrintAll(ReadParams(r));
      && Answers(query, TXN_NAME, txn) && Answers(query, SNAPSHOT_NAME, snapshot)
      && Answers(query, COLLECTION_NAME, collection) && Answers(query, PART_NAME, part)
      && Answers(query, SHARED_NAME, shared) && Answers(query, DONT_WATCH_NAME, dontWatch)
    ensures Understood(txn, snapshot, collection, part, shared, dontWatch, after) == r
  {
    hide PlainName, AllPlain, HexId, Decimal, PartText, ReadParams, PrintAll, Answers, ParseU64Hex, ParseDecimal;
    hide TXN_NAME, SNAPSHOT_NAME, COLLECTION_NAME, PART_NAME, SHARED_NAME, DONT_WATCH_NAME;
    var ps := ReadParams(r);
    ReadParamsPlain(r);
    NamesArePlain();
    NamesDiffer();
    PartsDiffer(r.part);
    ParamsRoundTrip(ps, TXN_NAME, txn);
    ReadLookup(r, TXN_NAME);
    ParamsRoundTrip(ps, SNAPSHOT_NAME, snapshot);
    ReadLookup(r, SNAPSHOT_NAME);
    ParamsRoundTrip(ps, COLLECTION_NAME, collection);
    ReadLookup(r, COLLECTION_NAME);
    ParamsRoundTrip(ps, PART_NAME, part);
    ReadLookup(r, PART_NAME);
    ParamsRoundTrip(ps, SHARED_NAME, shared);
    ReadLookup(r, SHARED_NAME);
    ParamsRoundTrip(ps, DONT_WATCH_NAME, dontWatch);
    ReadLookup(r, DONT_WATCH_NAME);
    HexRoundTrip(r.txn, after, 0);
    DecimalRoundTrip(r.snapshot, 0);
    if r.collection.Some? {
      HexRoundTrip(r.collection.value, after, 0);
    }
  }
}
