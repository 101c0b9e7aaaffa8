/**
The JSON printer of the Python bindings (`python/nlohmann.hpp`) and a reader written from
RFC 8259. Text is a sequence of characters that stand for bytes.

Values are the ones the printer and the format share: null, booleans, integers of any size,
strings, lists, and dictionaries with string keys in their insertion order.
*/
module JsonPrinter {
  import opened Store
  import opened Numbers

  datatype Json = Null | Bool(b: bool) | Int(n: int) | Str(s: string) | List(items: Items) | Dict(entries: Entries)

  datatype Items = Nil | Cons(head: Json, tail: Items)

  datatype Entries = End | More(key: string, value: Json, rest: Entries)

  // ---- What is printed ----

  const I64_MIN: int := -0x8000_0000_0000_0000
  const I64_MAX: int := 0x7FFF_FFFF_FFFF_FFFF

  /** A Python integer converted to a C `long`: one that does not fit becomes -1. */
  function AsLong(n: int): int {
    if I64_MIN <= n <= I64_MAX then n else -1
  }

  function IntText(n: int): string {
    if n < 0 then "-" + Decimal(-n) else Decimal(n)
  }

  function HexUpper(d: nat): (c: char)
    requires d < 16
    ensures DigitOf(c) == d && c >= ' '
  {
    if d < 10 then ('0' as int + d) as char else ('A' as int + d - 10) as char
  }

  function Escape(c: char): string {
    if c == '\"' then "\\\""
    else if c == '\\' then "\\\\"
    else if c == 8 as char then "\\b"
    else if c == '\t' then "\\t"
    else if c == '\n' then "\\n"
    else if c == 12 as char then "\\f"
    else if c == '\r' then "\\r"
    else if c < ' ' then "\\u00" + [HexUpper(c as int / 16), HexUpper(c as int % 16)]
    else [c]
  }

  function EscapeAll(s: string): string {
    if s == "" then "" else Escape(s[0]) + EscapeAll(s[1..])
  }

  function Quoted(s: string): string {
    "\"" + EscapeAll(s) + "\""
  }

  function Printed(v: Json): string {
    match v
    case Null => "null"
    case Bool(b) => if b then "true" else "false"
    case Int(n) => IntText(AsLong(n))
    case Str(s) => Quoted(s)
    case List(items) => "[" + (if items.Nil? then "]" else ItemsText(items))
    case Dict(entries) => "{" + (if entries.End? then "}" else EntriesText(entries))
  }

  /** The items of a list with commas between them and the closing bracket. */
  function ItemsText(items: Items): string
    requires items.Cons?
  {
    Printed(items.head) + if items.tail.Nil? then "]" else "," + ItemsText(items.tail)
  }

  function EntriesText(entries: Entries): string
    requires entries.More?
  {
    Quoted(entries.key) + ":" + Printed(entries.value) + if entries.rest.End? then "}" else "," + EntriesText(entries.rest)
  }

  // ---- The printer, which appends to one string ----

  function Size(v: Json): nat {
    match v
    case List(items) => 1 + ItemsSize(items)
    case Dict(entries) => 1 + EntriesSize(entries)
    case _ => 1
  }

  function ItemsSize(items: Items): nat {
    if items.Nil? then 0 else 1 + Size(items.head) + ItemsSize(items.tail)
  }

  function EntriesSize(entries: Entries): nat {
    if entries.End? then 0 else 1 + Size(entries.value) + EntriesSize(entries.rest)
  }

  /** The items each followed by a comma, as the loop leaves them before the last comma is overwritten. */
  function ItemsWithCommas(items: Items): string {
    if items.Nil? then "" else Printed(items.head) + "," + ItemsWithCommas(items.tail)
  }

  function EntriesWithCommas(entries: Entries): string {
    if entries.End? then ""
    else Quoted(entries.key) + ":" + Printed(entries.value) + "," + EntriesWithCommas(entries.rest)
  }

  /** Overwriting the last character of a text with a suffix overwrites it in the suffix. */
  lemma {:induction false} LastOfSuffix(first: string, t: string, close: string)
    requires t != ""
    ensures (first + t)[..|first + t| - 1] + close == first + (t[..|t| - 1] + close)
  {
  }

  lemma {:induction false} LastItemComma(items: Items)
    requires items.Cons?
    ensures var s := ItemsWithCommas(items); s != "" && s[..|s| - 1] + "]" == ItemsText(items)
  {
    hide Printed;
    var head := Printed(items.head);
    if items.tail.Cons? {
      LastItemComma(items.tail);
      LastOfSuffix(head + ",", ItemsWithCommas(items.tail), "]");
      assert head + "," + ItemsText(items.tail) == head + ("," + ItemsText(items.tail));
    } else {
      assert ItemsWithCommas(items) == head + ",";
      LastOfSuffix(head, ",", "]");
      assert ","[..0] + "]" == "]";
    }
  }

  lemma {:induction false} LastEntryComma(entries: Entries)
    requires entries.More?
    ensures var s := EntriesWithCommas(entries); s != "" && s[..|s| - 1] + "}" == EntriesText(entries)
  {
    hide Printed, Quoted;
    var pair := Quoted(entries.key) + ":" + Printed(entries.value);
    if entries.rest.More? {
      LastEntryComma(entries.rest);
      LastOfSuffix(pair + ",", EntriesWithCommas(entries.rest), "}");
      assert pair + "," + EntriesText(entries.rest) == pair + ("," + EntriesText(entries.rest));
    } else {
      assert EntriesWithCommas(entries) == pair + ",";
      LastOfSuffix(pair, ",", "}");
      assert ","[..0] + "}" == "}";
    }
  }

  class Output {
    var text: string

    constructor ()
      ensures text == ""
    {
      text := "";
    }

    method AppendEscaped(c: char)
      modifies this
      ensures text == old(text) + Escape(c)
    {
      if c == '\"' { text := text + "\\\""; }
      else if c == '\\' { text := text + "\\\\"; }
      else if c == 8 as char { text := text + "\\b"; }
      else if c == '\t' { text := text + "\\t"; }
      else if c == '\n' { text := text + "\\n"; }
      else if c == 12 as char { text := text + "\\f"; }
      else if c == '\r' { text := text + "\\r"; }
      else if c < ' ' {
        text := text + "\\u0000";
        var target := |text| - 2;
        text := text[target := HexUpper(c as int / 16)];
        text := text[target + 1 := HexUpper(c as int % 16)];
      } else {
        text := text + [c];
      }
    }

    method AppendString(s: string)
      modifies this
      ensures text == old(text) + Quoted(s)
    {
      hide Escape;
      text := text + "\"";
      ghost var start := text;
      assert s[0..] == s;
      for i := 0 to |s|
        invariant text + EscapeAll(s[i..]) == start + EscapeAll(s)
      {
        ghost var before, more := text, EscapeAll(s[i + 1..]);
        AppendEscaped(s[i]);
        assert s[i..][1..] == s[i + 1..];
        assert before + Escape(s[i]) + more == before + (Escape(s[i]) + more);
      }
      assert s[|s|..] == "";
      assert text + "" == text;
      text := text + "\"";
    }

    method AppendItems(items: Items)
      modifies this
      ensures text == old(text) + "[" + if items.Nil? then "]" else ItemsText(items)
      decreases ItemsSize(items), 1
    {
      hide Printed, ItemsText;
      text := text + "[";
      if items.Nil? {
        text := text + "]";
        return;
      }
      ghost var start := text;
      var rest := items;
      while rest.Cons?
        invariant ItemsSize(rest) <= ItemsSize(items)
        invariant text + ItemsWithCommas(rest) == start + ItemsWithCommas(items)
        decreases ItemsSize(rest)
      {
        ghost var before, head, more := text, Printed(rest.head), ItemsWithCommas(rest.tail);
        ToString(rest.head);
        text := text + ",";
        assert before + head + "," + more == before + (head + "," + more);
        rest := rest.tail;
      }
      LastItemComma(items);
      LastOfSuffix(start, ItemsWithCommas(items), "]");
      text := text[|text| - 1 := ']'];
    }

    method AppendEntries(entries: Entries)
      modifies this
      ensures text == old(text) + "{" + if entries.End? then "}" else EntriesText(entries)
      decreases EntriesSize(entries), 1
    {
      hide Printed, Quoted, EntriesText;
      text := text + "{";
      if entries.End? {
        text := text + "}";
        return;
      }
      ghost var start := text;
      var rest := entries;
      while rest.More?
        invariant EntriesSize(rest) <= EntriesSize(entries)
        invariant text + EntriesWithCommas(rest) == start + EntriesWithCommas(entries)
        decreases EntriesSize(rest)
      {
        ghost var before, key, value, more :=
          text, Quoted(rest.key), Printed(rest.value), EntriesWithCommas(rest.rest);
        AppendString(rest.key);
        text := text + ":";
        ToString(rest.value);
        text := text + ",";
        assert before + key + ":" + value + "," + more == before + (key + ":" + value + "," + more);
        rest := rest.rest;
      }
      LastEntryComma(entries);
      LastOfSuffix(start, EntriesWithCommas(entries), "}");
      text := text[|text| - 1 := '}'];
    }

    method ToString(v: Json)
      modifies this
      ensures text == old(text) + Printed(v)
      decreases Size(v), 0
    {
      match v {
        case Null => text := text + "null";
        case Bool(b) => text := text + if b then "true" else "false";
        case Int(n) => text := text + IntText(AsLong(n));
        case Str(s) => AppendString(s);
        case List(items) => AppendItems(items);
        case Dict(entries) => AppendEntries(entries);
      }
    }
  }

  // ---- A reader (RFC 8259) ----

  /** Insignificant whitespace, section 2. */
  function SkipSpace(s: string): (r: string)
    ensures |r| <= |s|
  {
    if s != "" && (s[0] == ' ' || s[0] == '\t' || s[0] == '\n' || s[0] == '\r') then SkipSpace(s[1..]) else s
  }

  /** The UTF-8 bytes of a code point of the basic plane. */
  function Utf8(code: nat): string
    requires code < 0x1_0000
  {
    if code < 0x80 then [code as char]
    else if code < 0x800 then [(0xC0 + code / 0x40) as char, (0x80 + code % 0x40) as char]
    else [(0xE0 + code / 0x1000) as char, (0x80 + code / 0x40 % 0x40) as char, (0x80 + code % 0x40) as char]
  }

  function FourDigits(s: string): (code: nat)
    requires |s| == 4 && AllDigits(s, 16)
    ensures code < 0x1_0000
  {
    ((DigitOf(s[0]) * 16 + DigitOf(s[1])) * 16 + DigitOf(s[2])) * 16 + DigitOf(s[3])
  }

  /** One escape sequence after its backslash, section 7: its characters and what is left. */
  function ReadEscape(s: string): (r: Option<(string, string)>)
    ensures r.Some? ==> |r.value.1| < |s|
  {
    if s == "" then None
    else match s[0]
      case '\"' => Some(("\"", s[1..]))
      case '\\' => Some(("\\", s[1..]))
      case '/' => Some(("/", s[1..]))
      case 'b' => Some(([8 as char], s[1..]))
      case 'f' => Some(([12 as char], s[1..]))
      case 'n' => Some(("\n", s[1..]))
      case 'r' => Some(("\r", s[1..]))
      case 't' => Some(("\t", s[1..]))
      case 'u' =>
        if |s| >= 5 && AllDigits(s[1..5], 16) then Some((Utf8(FourDigits(s[1..5])), s[5..])) else None
      case _ => None
  }

  /** The characters of a string after its opening quote, up to and past the closing one. */
  function ReadChars(s: string): (r: Option<(string, string)>)
    ensures r.Some? ==> |r.value.1| < |s|
    decreases |s|
  {
    if s == "" || s[0] < ' ' then None
    else if s[0] == '\"' then Some(("", s[1..]))
    else if s[0] == '\\' then
      var unit := ReadEscape(s[1..]);
      if unit.None? then None else
        var more := ReadChars(unit.value.1);
        if more.None? then None else Some((unit.value.0 + more.value.0, more.value.1))
    else
      var more := ReadChars(s[1..]);
      if more.None? then None else Some(([s[0]] + more.value.0, more.value.1))
  }

  function IntLength(digits: string): (n: nat)
    ensures n <= |digits|
  {
    if digits != "" && digits[0] == '0' then 1 else Run(digits, 10)
  }

  /** An integer, section 6: no leading zeros, and no fraction or exponent may follow. */
  function ReadInt(s: string): (r: Option<(Json, string)>)
    ensures r.Some? ==> |r.value.1| < |s|
  {
    var sign := if s != "" && s[0] == '-' then 1 else 0;
    var digits := s[sign..];
    var n := IntLength(digits);
    if n == 0 then None
    else if n < |digits| && digits[n] in {'.', 'e', 'E'} then None
    else
      var value: int := Value(digits[..n], 10);
      Some((Int(if sign == 1 then -value else value), digits[n..]))
  }

  function ReadWord(s: string, word: string, v: Json): (r: Option<(Json, string)>)
    requires word != ""
    ensures r.Some? ==> |r.value.1| < |s|
  {
    if word <= s then Some((v, s[|word|..])) else None
  }

  /** A value, section 3, with arrays of section 5 and objects of section 4. */
  function ReadValue(text: string): (r: Option<(Json, string)>)
    ensures r.Some? ==> |r.value.1| < |text|
    decreases |text|, 1
  {
    var s := SkipSpace(text);
    if s == "" then None
    else if s[0] == 'n' then ReadWord(s, "null", Null)
    else if s[0] == 't' then ReadWord(s, "true", Bool(true))
    else if s[0] == 'f' then ReadWord(s, "false", Bool(false))
    else if s[0] == '\"' then
      var chars := ReadChars(s[1..]);
      if chars.None? then None else Some((Str(chars.value.0), chars.value.1))
    else if s[0] == '[' then
      var inner := SkipSpace(s[1..]);
      if inner != "" && inner[0] == ']' then Some((List(Nil), inner[1..])) else
        var items := ReadItems(inner);
        if items.None? then None else Some((List(items.value.0), items.value.1))
    else if s[0] == '{' then
      var inner := SkipSpace(s[1..]);
      if inner != "" && inner[0] == '}' then Some((Dict(End), inner[1..])) else
        var entries := ReadEntries(inner);
        if entries.None? then None else Some((Dict(entries.value.0), entries.value.1))
    else ReadInt(s)
  }

  function ReadItems(s: string): (r: Option<(Items, string)>)
    ensures r.Some? ==> |r.value.1| < |s|
    decreases |s|, 2
  {
    var head := ReadValue(s);
    if head.None? then None else
      var rest := SkipSpace(head.value.1);
      if rest != "" && rest[0] == ']' then Some((Cons(head.value.0, Nil), rest[1..]))
      else if rest != "" && rest[0] == ',' then
        var tail := ReadItems(rest[1..]);
        if tail.None? then None else Some((Cons(head.value.0, tail.value.0), tail.value.1))
      else None
  }

  function ReadEntries(text: string): (r: Option<(Entries, string)>)
    ensures r.Some? ==> |r.value.1| < |text|
    decreases |text|, 2
  {
    var s := SkipSpace(text);
    if s == "" || s[0] != '\"' then None else
      var key := ReadChars(s[1..]);
      if key.None? then None else
        var colon := SkipSpace(key.value.1);
        if colon == "" || colon[0] != ':' then None else
          var value := ReadValue(colon[1..]);
          if value.None? then None else
            var rest := SkipSpace(value.value.1);
            if rest != "" && rest[0] == '}' then Some((More(key.value.0, value.value.0, End), rest[1..]))
            else if rest != "" && rest[0] == ',' then
              var more := ReadEntries(rest[1..]);
              if more.None? then None
              else Some((More(key.value.0, value.value.0, more.value.0), more.value.1))
            else None
  }

  // ---- Reading back what was printed ----

  /** The value as the printer sees it, integers as C `long`s. */
  function Seen(v: Json): Json {
    match v
    case Int(n) => Int(AsLong(n))
    case List(items) => List(SeenItems(items))
    case Dict(entries) => Dict(SeenEntries(entries))
    case _ => v
  }

  function SeenItems(items: Items): Items {
    if items.Nil? then Nil else Cons(Seen(items.head), SeenItems(items.tail))
  }

  function SeenEntries(entries: Entries): Entries {
    if entries.End? then End else More(entries.key, Seen(entries.value), SeenEntries(entries.rest))
  }

  /** What may follow a value in printed text. */
  predicate Follows(rest: string) {
    rest == "" || rest[0] == ',' || rest[0] == ']' || rest[0] == '}'
  }

  lemma {:induction false} EscapeRead(c: char, rest: string)
    ensures var s := Escape(c) + rest;
      if Escape(c) == [c] then c >= ' ' && c != '\"' && c != '\\'
      else s[0] == '\\' && ReadEscape(s[1..]) == Some(([c], rest))
  {
    var e := Escape(c);
    var s := e + rest;
    assert s[1..] == e[1..] + rest;
    if |e| == 2 {
      assert s[1..][1..] == rest;
    } else if |e| == 6 {
      assert s[1..][1..5] == e[2..];
      assert s[1..][5..] == rest;
      assert FourDigits(e[2..]) == c as int;
    }
  }

  lemma {:induction false} CharsRead(s: string, rest: string)
    ensures ReadChars(EscapeAll(s) + "\"" + rest) == Some((s, rest))
  {
    hide Escape, ReadEscape;
    if s != "" {
      var more := EscapeAll(s[1..]) + "\"" + rest;
      var text := EscapeAll(s) + "\"" + rest;
      assert text == Escape(s[0]) + more;
      CharsRead(s[1..], rest);
      EscapeRead(s[0], more);
      assert s == [s[0]] + s[1..];
      if Escape(s[0]) == [s[0]] {
        assert text[1..] == more;
      }
    } else {
      var text := "\"" + rest;
      assert EscapeAll(s) + "\"" + rest == text;
      assert text[1..] == rest;
    }
  }

  lemma {:induction false} DecimalRead(x: nat, rest: string)
    requires Follows(rest)
    ensures var s := Decimal(x) + rest;
      && '0' <= s[0] <= '9'
      && IntLength(s) == |Decimal(x)| && s[..|Decimal(x)|] == Decimal(x) && s[|Decimal(x)|..] == rest
  {
    hide Run, Decimal;
    assert DigitOf(Decimal(x)[0]) < 10;
    RunIs(Decimal(x), rest, 10);
  }

  lemma {:induction false} IntRead(n: int, rest: string)
    requires Follows(rest)
    ensures ReadInt(IntText(n) + rest) == Some((Int(n), rest))
    ensures var c := IntText(n)[0]; c == '-' || '0' <= c <= '9'
  {
    hide ReadInt, Decimal;
    if n < 0 {
      NegativeRead(n, rest);
    } else {
      NaturalRead(n, rest);
    }
  }

  lemma {:induction false} NaturalRead(n: nat, rest: string)
    requires Follows(rest)
    ensures ReadInt(Decimal(n) + rest) == Some((Int(n), rest))
    ensures '0' <= Decimal(n)[0] <= '9'
  {
    hide Value, Decimal, IntLength;
    DecimalRead(n, rest);
    DecimalValue(n);
    assert (Decimal(n) + rest)[0..] == Decimal(n) + rest;
  }

  lemma {:induction false} NegativeRead(n: int, rest: string)
    requires Follows(rest) && n < 0
    ensures ReadInt("-" + Decimal(-n) + rest) == Some((Int(n), rest))
  {
    hide Value, Decimal, IntLength;
    DecimalRead(-n, rest);
    DecimalValue(-n);
    assert ("-" + Decimal(-n) + rest)[1..] == Decimal(-n) + rest;
  }

  lemma {:induction false} WordRead(word: string, rest: string, v: Json)
    requires word != ""
    ensures ReadWord(word + rest, word, v) == Some((v, rest))
  {
    assert (word + rest)[..|word|] == word && (word + rest)[|word|..] == rest;
  }

  /** Printed text starts with a character that is neither space nor a closing bracket. */
  lemma {:induction false} FirstChar(v: Json)
    ensures Printed(v) != "" && Printed(v)[0] !in {' ', '\t', '\n', '\r', ']', '}', ','}
  {
    if v.Int? {
      IntRead(AsLong(v.n), "");
    }
  }

  lemma {:induction false} ScalarRead(v: Json, rest: string)
    requires Follows(rest) && !v.List? && !v.Dict?
    ensures ReadValue(Printed(v) + rest) == Some((Seen(v), rest))
  {
    hide EscapeAll, ReadChars, ReadInt, IntText, ReadItems, ReadEntries;
    match v {
      case Null => WordRead("null", rest, Null);
      case Bool(b) => WordRead(if b then "true" else "false", rest, v);
      case Int(n) => IntRead(AsLong(n), rest);
      case Str(text) =>
        assert (Printed(v) + rest)[1..] == EscapeAll(text) + "\"" + rest;
        CharsRead(text, rest);
    }
  }

  /** Reading printed text gives the value back, and stops right after it. */
  lemma {:induction false} ValueRead(v: Json, rest: string)
    requires Follows(rest)
    ensures ReadValue(Printed(v) + rest) == Some((Seen(v), rest))
    decreases Size(v), 0
  {
    hide Quoted, ReadChars, ReadInt, IntText, ItemsText, EntriesText, ReadItems, ReadEntries;
    var s := Printed(v) + rest;
    if v.List? {
      if v.items.Nil? {
        assert s[1..] == "]" + rest && ("]" + rest)[1..] == rest;
      } else {
        assert s[1..] == ItemsText(v.items) + rest;
        ItemsRead(v.items, rest);
      }
    } else if v.Dict? {
      if v.entries.End? {
        assert s[1..] == "}" + rest && ("}" + rest)[1..] == rest;
      } else {
        assert s[1..] == EntriesText(v.entries) + rest;
        EntriesRead(v.entries, rest);
      }
    } else {
      ScalarRead(v, rest);
    }
  }

  lemma {:induction false} ItemsRead(items: Items, rest: string)
    requires items.Cons?
    ensures ReadItems(ItemsText(items) + rest) == Some((SeenItems(items), rest))
    ensures SkipSpace(ItemsText(items) + rest) == ItemsText(items) + rest && (ItemsText(items) + rest)[0] != ']'
    decreases ItemsSize(items), 1
  {
    hide Printed, Seen, ReadValue;
    FirstChar(items.head);
    var more := if items.tail.Nil? then "]" else "," + ItemsText(items.tail);
    assert ItemsText(items) + rest == Printed(items.head) + (more + rest);
    ValueRead(items.head, more + rest);
    if items.tail.Cons? {
      assert (more + rest)[1..] == ItemsText(items.tail) + rest;
      ItemsRead(items.tail, rest);
    } else {
      assert (more + rest)[1..] == rest;
    }
  }

  lemma {:induction false} EntriesStart(entries: Entries, rest: string)
    requires entries.More?
    ensures var more := if entries.rest.End? then "}" else "," + EntriesText(entries.rest);
      var s := EntriesText(entries) + rest;
      && s != "" && s[0] == '\"' && SkipSpace(s) == s
      && s[1..] == EscapeAll(entries.key) + "\"" + (":" + (Printed(entries.value) + (more + rest)))
  {
    hide Printed, EscapeAll;
    var more := if entries.rest.End? then "}" else "," + EntriesText(entries.rest);
    var s := EntriesText(entries) + rest;
    assert s[1..] == EscapeAll(entries.key) + "\"" + (":" + (Printed(entries.value) + (more + rest)));
  }

  lemma {:induction false} NoSpace(s: string)
    requires s != "" && s[0] !in {' ', '\t', '\n', '\r'}
    ensures SkipSpace(s) == s
  {
  }

  lemma {:induction false} EntriesRead(entries: Entries, rest: string)
    requires entries.More?
    ensures ReadEntries(EntriesText(entries) + rest) == Some((SeenEntries(entries), rest))
    ensures SkipSpace(EntriesText(entries) + rest) == EntriesText(entries) + rest && (EntriesText(entries) + rest)[0] != '}'
    decreases EntriesSize(entries), 1
  {
    hide Printed, Seen, ReadValue, EscapeAll, ReadChars, EntriesText, SkipSpace;
    var more := if entries.rest.End? then "}" else "," + EntriesText(entries.rest);
    var value := Printed(entries.value) + (more + rest);
    var s := EntriesText(entries) + rest;
    EntriesStart(entries, rest);
    NoSpace(":" + value);
    NoSpace(more + rest);
    CharsRead(entries.key, ":" + value);
    assert (":" + value)[1..] == value;
    ValueRead(entries.value, more + rest);
    assert ReadChars(s[1..]) == Some((entries.key, ":" + value));
    assert ReadValue(value) == Some((Seen(entries.value), more + rest));
    if entries.rest.More? {
      assert (more + rest)[1..] == EntriesText(entries.rest) + rest;
      EntriesRead(entries.rest, rest);
    } else {
      assert more == "}" && (more + rest)[0] == '}' && SeenEntries(entries.rest) == End;
      assert (more + rest)[1..] == rest;
    }
  }

  predicate IntsFit(v: Json) {
    match v
    case Int(n) => I64_MIN <= n <= I64_MAX
    case List(items) => ItemsFit(items)
    case Dict(entries) => EntriesFit(entries)
    case _ => true
  }

  predicate ItemsFit(items: Items) {
    items.Cons? ==> IntsFit(items.head) && ItemsFit(items.tail)
  }

  predicate EntriesFit(entries: Entries) {
    entries.More? ==> IntsFit(entries.value) && EntriesFit(entries.rest)
  }

  lemma {:induction false} SeenIsSame(v: Json)
    ensures Seen(v) == v <==> IntsFit(v)
    decreases Size(v), 0
  {
    match v {
      case List(items) => ItemsSeenSame(items);
      case Dict(entries) => EntriesSeenSame(entries);
      case _ =>
    }
  }

  lemma {:induction false} ItemsSeenSame(items: Items)
    ensures SeenItems(items) == items <==> ItemsFit(items)
    decreases ItemsSize(items), 1
  {
    if items.Cons? {
      SeenIsSame(items.head);
      ItemsSeenSame(items.tail);
    }
  }

  lemma {:induction false} EntriesSeenSame(entries: Entries)
    ensures SeenEntries(entries) == entries <==> EntriesFit(entries)
    decreases EntriesSize(entries), 1
  {
    if entries.More? {
      SeenIsSame(entries.value);
      EntriesSeenSame(entries.rest);
    }
  }

  /**
  The printer is unambiguous. Its text always parses, and parses to the printed value exactly
  when every integer fits in 64 bits; the others come back as -1.
  */
  lemma {:induction false} PrinterRoundTrip(v: Json)
    ensures ReadValue(Printed(v)) == Some((Seen(v), ""))
    ensures ReadValue(Printed(v)) == Some((v, "")) <==> IntsFit(v)
  {
    hide Printed, Seen, ReadValue, IntsFit;
    assert Printed(v) + "" == Printed(v);
    ValueRead(v, "");
    SeenIsSame(v);
  }

  /** The first integer past 64 bits is read back as -1. */
  lemma {:induction false} WideIntIsLost()
    ensures ReadValue(Printed(Int(0x8000_0000_0000_0000))) == Some((Int(-1), ""))
  {
    hide Printed, ReadValue;
    PrinterRoundTrip(Int(0x8000_0000_0000_0000));
  }

  // ---- Nothing raw inside a string ----

  predicate TwoCharEscape(c: char) {
    c in {'\"', '\\', '/', 'b', 'f', 'n', 'r', 't'}
  }

  /** A string body in which every quote, backslash and control character is part of an escape. */
  predicate WellEscaped(s: string)
    decreases |s|
  {
    s == ""
    || (if s[0] == '\\' then
          (|s| >= 2 && TwoCharEscape(s[1]) && WellEscaped(s[2..]))
          || (|s| >= 6 && s[1] == 'u' && AllDigits(s[2..6], 16) && WellEscaped(s[6..]))
        else s[0] >= ' ' && s[0] != '\"' && WellEscaped(s[1..]))
  }

  lemma {:induction false} EscapedIsWell(c: char, more: string)
    requires WellEscaped(more)
    ensures WellEscaped(Escape(c) + more)
  {
    var e := Escape(c);
    var s := e + more;
    if |e| == 1 {
      assert s[1..] == more;
    } else if |e| == 2 {
      assert s[2..] == more;
    } else {
      assert s[2..6] == e[2..] && s[6..] == more;
    }
  }

  /** No raw quote, backslash or control character is left inside a printed string. */
  lemma {:induction false} StringsAreEscaped(s: string)
    ensures WellEscaped(EscapeAll(s))
  {
    hide Escape, WellEscaped;
    if s == "" {
      assert WellEscaped("") by { EmptyIsWell(); }
    } else {
      StringsAreEscaped(s[1..]);
      EscapedIsWell(s[0], EscapeAll(s[1..]));
    }
  }

  lemma {:induction false} EmptyIsWell()
    ensures WellEscaped("")
  {
  }
}
