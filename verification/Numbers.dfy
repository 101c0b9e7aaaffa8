/**
Numbers as text: what the formatting library prints in decimal and in padded hexadecimal,
and what `strtoull` in base sixteen and `from_chars` in base ten read back.
*/
module Numbers {
  const U64 := 0x1_0000_0000_0000_0000

  function DigitChar(d: nat): (c: char)
    requires d < 16
    ensures DigitOf(c) == d
  {
    if d < 10 then ('0' as int + d) as char else ('a' as int + d - 10) as char
  }

  /** The value of a hexadecimal digit of either case, and 16 for anything else. */
  function DigitOf(c: char): (d: nat)
    ensures d <= 16
  {
    if '0' <= c <= '9' then c as int - '0' as int
    else if 'a' <= c <= 'f' then c as int - 'a' as int + 10
    else if 'A' <= c <= 'F' then c as int - 'A' as int + 10
    else 16
  }

  predicate AllDigits(s: string, base: nat) {
    forall i :: 0 <= i < |s| ==> DigitOf(s[i]) < base
  }

  function Value(s: string, base: nat): nat {
    if s == "" then 0 else Value(s[..|s| - 1], base) * base + DigitOf(s[|s| - 1])
  }

  /** Exactly `width` hexadecimal digits, padded with zeros. */
  function Padded(x: nat, width: nat): (s: string)
    ensures |s| == width && AllDigits(s, 16)
  {
    if width == 0 then "" else Padded(x / 16, width - 1) + [DigitChar(x % 16)]
  }

  function Decimal(x: nat): (s: string)
    ensures s != "" && AllDigits(s, 10) && (s[0] == '0' ==> s == "0")
  {
    if x < 10 then [DigitChar(x)] else Decimal(x / 10) + [DigitChar(x % 10)]
  }

  function Sixteen(n: nat): nat {
    if n == 0 then 1 else 16 * Sixteen(n - 1)
  }

  lemma {:induction false} PaddedValue(x: nat, width: nat)
    requires x < Sixteen(width)
    ensures Value(Padded(x, width), 16) == x
  {
    if width > 0 {
      var s := Padded(x / 16, width - 1);
      assert (s + [DigitChar(x % 16)])[..width - 1] == s;
      PaddedValue(x / 16, width - 1);
    }
  }

  lemma {:induction false} DecimalValue(x: nat)
    ensures Value(Decimal(x), 10) == x
  {
    if x >= 10 {
      var s := Decimal(x / 10);
      assert (s + [DigitChar(x % 10)])[..|s|] == s;
      DecimalValue(x / 10);
    } else {
      assert [DigitChar(x)][..0] == "";
    }
  }

  // ---- Reading ----

  /** How many leading characters are digits. */
  function Run(s: string, base: nat): (n: nat)
    ensures n <= |s| && AllDigits(s[..n], base) && (n < |s| ==> DigitOf(s[n]) >= base)
  {
    if s == "" || DigitOf(s[0]) >= base then 0 else
      var n := Run(s[1..], base);
      assert s[..1 + n] == [s[0]] + s[1..][..n];
      1 + n
  }

  lemma {:induction false} RunIs(digits: string, after: string, base: nat)
    requires AllDigits(digits, base) && (after != "" ==> DigitOf(after[0]) >= base)
    ensures Run(digits + after, base) == |digits|
  {
    var s := digits + after;
    if digits != "" {
      assert s[1..] == digits[1..] + after;
      RunIs(digits[1..], after, base);
    } else {
      assert s == after;
    }
  }

  predicate IsSpace(c: char) {
    c == ' ' || '\t' <= c <= '\r'
  }

  function Spaces(s: string): (n: nat)
    ensures n <= |s|
  {
    if s == "" || !IsSpace(s[0]) then 0 else 1 + Spaces(s[1..])
  }

  /** The number read in base sixteen and how many characters it took; neither without a digit. */
  function Strtoull(s: string): (nat, nat) {
    var spaces := Spaces(s);
    var sign := if spaces < |s| && (s[spaces] == '-' || s[spaces] == '+') then 1 else 0;
    var at := spaces + sign;
    var prefix :=
      if at + 2 < |s| && s[at] == '0' && (s[at + 1] == 'x' || s[at + 1] == 'X') && DigitOf(s[at + 2]) < 16 then 2 else 0;
    var digits := s[at + prefix..][..Run(s[at + prefix..], 16)];
    if digits == "" then (0, 0) else
      var value := Value(digits, 16);
      (if value >= U64 then U64 - 1
       else if sign == 1 && s[spaces] == '-' then (U64 - value) % U64
       else value,
       at + prefix + |digits|)
  }

  /** The server reads past the view it was given and then compares where it stopped. */
  function ParseU64Hex(view: string, after: string, fallback: nat): nat {
    var (value, taken) := Strtoull(view + after);
    if taken == |view| then value else fallback
  }

  /** As `from_chars` does, leaves the default when there is no digit or the number does not fit. */
  function ParseDecimal(view: string, fallback: nat): nat {
    var n := Run(view, 10);
    if n == 0 || Value(view[..n], 10) >= U64 then fallback else Value(view[..n], 10)
  }

  function HexId(x: nat): string {
    "0x" + Padded(x, 16)
  }

  lemma {:induction false} SixteenDigits()
    ensures Sixteen(16) == U64
  {
    assert Sixteen(4) == 0x1_0000;
    assert Sixteen(8) == 0x1_0000_0000;
    assert Sixteen(12) == 0x1_0000_0000_0000;
  }

  /** Every 64-bit number survives the sixteen hexadecimal digits, as long as no further digit follows them. */
  lemma {:induction false} HexRoundTrip(x: nat, after: string, fallback: nat)
    requires x < U64 && (after != "" ==> DigitOf(after[0]) == 16)
    ensures ParseU64Hex(HexId(x), after, fallback) == x
  {
    hide Value, Run, Sixteen;
    var digits := Padded(x, 16);
    var s := HexId(x) + after;
    assert s[0] == '0' && s[1] == 'x' && s[2] == digits[0];
    assert s[2..] == digits + after;
    RunIs(digits, after, 16);
    assert (digits + after)[..16] == digits;
    SixteenDigits();
    PaddedValue(x, 16);
  }

  lemma {:induction false} DecimalRoundTrip(x: nat, fallback: nat)
    requires x < U64
    ensures ParseDecimal(Decimal(x), fallback) == x
  {
    var s := Decimal(x);
    assert s + "" == s;
    RunIs(s, "", 10);
    assert s[..|s|] == s;
    DecimalValue(x);
  }
}
