/** JavaScript scalar values as the pages see them, with the three pieces of
    JavaScript semantics the pages rely on: truthiness (`x || fallback`,
    `x && ...`), `String(n)` for integers, and `parseInt(text)`.
    Object property keys are strings, so a value used as a key is first
    converted with `PropertyKey`. */
module JsValues {

  datatype Option<+T> = None | Some(value: T) {
    function GetOr(default: T): T {
      match this
      case Some(v) => v
      case None => default
    }
  }

  /** The scalar values that reach the model: `undefined`, `null`, integer
      numbers and strings. Fractional numbers and NaN never reach a field of
      the model (NaN only comes out of `parseInt`, which returns an Option). */
  datatype Value = Undefined | Null | Num(n: int) | Str(s: string)

  /** JavaScript truthiness of a scalar. */
  predicate Truthy(v: Value) {
    match v
    case Undefined => false
    case Null => false
    case Num(n) => n != 0
    case Str(s) => s != ""
  }

  /** Truthiness of a string that may be `null` or missing. */
  predicate TruthyText(t: Option<string>) {
    t.Some? && t.value != ""
  }

  /** `t || fallback` for a string that may be `null` or missing: a non-empty
      text shows itself, anything else the fallback. */
  function TextOr(t: Option<string>, fallback: string): (r: string)
    ensures TruthyText(t) ==> r == t.value
    ensures !TruthyText(t) ==> r == fallback
    ensures fallback != "" ==> r != ""
  {
    if TruthyText(t) then t.value else fallback
  }

  // ---------------------------------------------------------------------
  // Decimal digits

  predicate IsDigit(c: char) {
    '0' <= c <= '9'
  }

  predicate AllDigits(s: string) {
    forall i :: 0 <= i < |s| ==> IsDigit(s[i])
  }

  predicate NoDigit(s: string) {
    forall i :: 0 <= i < |s| ==> !IsDigit(s[i])
  }

  function DigitChar(d: nat): (c: char)
    requires d < 10
    ensures IsDigit(c)
  {
    (('0' as int) + d) as char
  }

  function DigitValue(c: char): (d: nat)
    requires IsDigit(c)
    ensures d < 10 && DigitChar(d) == c
  {
    (c as int) - ('0' as int)
  }

  /** The shortest decimal spelling of a natural number. */
  function NatToDigits(n: nat): (r: string)
    ensures |r| > 0 && AllDigits(r)
    ensures |r| > 1 ==> r[0] != '0'
    decreases n
  {
    if n < 10 then [DigitChar(n)] else NatToDigits(n / 10) + [DigitChar(n % 10)]
  }

  /** The number a string of decimal digits denotes. */
  function DigitsValue(ds: string): nat
    requires AllDigits(ds)
    decreases |ds|
  {
    if ds == [] then 0 else 10 * DigitsValue(ds[..|ds| - 1]) + DigitValue(ds[|ds| - 1])
  }

  lemma {:induction false} DigitsRoundTrip(n: nat)
    ensures DigitsValue(NatToDigits(n)) == n
    decreases n
  {
    if n >= 10 {
      var ds := NatToDigits(n);
      assert ds[..|ds| - 1] == NatToDigits(n / 10);
      DigitsRoundTrip(n / 10);
    }
  }

  /** `String(n)` for an integer `n`. */
  function ToDecimal(n: int): (r: string)
    ensures |r| > 0
    ensures n < 0 <==> r[0] == '-'
    ensures n >= 0 ==> AllDigits(r)
  {
    if n < 0 then "-" + NatToDigits(-n) else NatToDigits(n)
  }

  // ---------------------------------------------------------------------
  // parseInt

  /** The white space `parseInt` skips before the number. */
  predicate IsSpace(c: char) {
    c == ' ' || c == '\t' || c == '\n' || c == '\r' || c == '\U{B}' || c == '\U{C}'
    || c == '\U{A0}' || c == '\U{FEFF}' || c == '\U{2028}' || c == '\U{2029}'
  }

  /** The text after the white space `parseInt` skips. */
  function SkipSpace(s: string): string
  {
    if s != [] && IsSpace(s[0]) then SkipSpace(s[1..]) else s
  }

  /** Skipping white space leaves a suffix of the text. */
  lemma {:induction false} SkipSpaceSuffix(s: string)
    ensures |SkipSpace(s)| <= |s| && SkipSpace(s) == s[|s| - |SkipSpace(s)|..]
    decreases |s|
  {
    if s != [] && IsSpace(s[0]) {
      SkipSpaceSuffix(s[1..]);
    }
  }

  /** The longest prefix of `s` made of decimal digits. */
  function LeadingDigits(s: string): (r: string)
    ensures AllDigits(r)
  {
    if s != [] && IsDigit(s[0]) then [s[0]] + LeadingDigits(s[1..]) else []
  }

  /** `parseInt(text)` with the default radix: skip leading white space, take
      an optional sign, then the longest run of decimal digits; `None` is NaN
      (no digit there). */
  function ParseInt(text: string): (r: Option<int>)
    // a text without any digit (the cleared number input `""` among them) is NaN
    ensures NoDigit(text) ==> r == None
    // a plain run of digits is the number it spells
    ensures text != [] && AllDigits(text) ==> r == Some(DigitsValue(text))
  {
    var t := SkipSpace(text);
    var negative := t != [] && t[0] == '-';
    var unsigned := if t != [] && (t[0] == '-' || t[0] == '+') then t[1..] else t;
    var ds := LeadingDigits(unsigned);
    assert NoDigit(text) ==> ds == [] by {
      if unsigned != [] && NoDigit(text) {
        SkipSpaceSuffix(text);
        var k := |text| - |unsigned|;
        assert unsigned == text[k..];
        assert !IsDigit(text[k]);
      }
    }
    assert text != [] && AllDigits(text) ==> ds == text by {
      if text != [] && AllDigits(text) {
        assert t == text;
        LeadingDigitsOfDigits(text);
      }
    }
    var magnitude: int := if ds == [] then 0 else DigitsValue(ds);
    if ds == [] then None
    else if negative then Some(-magnitude)
    else Some(magnitude)
  }

  lemma {:induction false} LeadingDigitsOfDigits(ds: string)
    requires AllDigits(ds)
    ensures LeadingDigits(ds) == ds
    decreases |ds|
  {
    if ds != [] {
      LeadingDigitsOfDigits(ds[1..]);
    }
  }

  /** The run of digits ends at the first character that is not a digit. */
  lemma {:induction false} LeadingDigitsStops(ds: string, rest: string)
    requires AllDigits(ds)
    requires rest == [] || !IsDigit(rest[0])
    ensures LeadingDigits(ds + rest) == ds
    decreases |ds|
  {
    if ds == [] {
      assert ds + rest == rest;
    } else {
      assert (ds + rest)[1..] == ds[1..] + rest;
      LeadingDigitsStops(ds[1..], rest);
    }
  }

  /** A text starting with a digit reads as its leading run of digits. */
  lemma ParseIntOfDigitFirst(text: string)
    requires text != [] && IsDigit(text[0])
    ensures ParseInt(text) == Some(DigitsValue(LeadingDigits(text)))
  {
    assert !NoDigit(text);
    assert SkipSpace(text) == text;
    assert text[0] != '-' && text[0] != '+';
    assert LeadingDigits(text) != [];
  }

  /** A minus sign followed by a digit reads as minus the run of digits. */
  lemma ParseIntOfMinus(text: string)
    requires |text| > 1 && text[0] == '-' && IsDigit(text[1])
    ensures ParseInt(text) == Some(-(DigitsValue(LeadingDigits(text[1..])) as int))
  {
    assert !NoDigit(text);
    assert !AllDigits(text);
    assert SkipSpace(text) == text;
    assert LeadingDigits(text[1..]) != [];
  }

  /** `parseInt` reads the leading integer and ignores whatever follows its
      last digit: "2.5" and "2e3" both read as 2. */
  lemma ParseIntStopsAtNonDigit(n: int, rest: string)
    requires rest == [] || !IsDigit(rest[0])
    ensures ParseInt(ToDecimal(n) + rest) == Some(n)
  {
    if n < 0 {
      NegativeStopsAtNonDigit(n, rest);
    } else {
      NaturalStopsAtNonDigit(n, rest);
    }
  }

  /** The negative case: the sign, then the digits of `-n`. */
  lemma NegativeStopsAtNonDigit(n: int, rest: string)
    requires n < 0
    requires rest == [] || !IsDigit(rest[0])
    ensures ParseInt(ToDecimal(n) + rest) == Some(n)
  {
    DigitsRoundTrip(-n);
    NegativeText(n, rest);
    MinusDigitsThen(ToDecimal(n) + rest, NatToDigits(-n), rest, -n);
  }

  /** `String(n)` of a negative `n` is a minus sign before the digits of `-n`. */
  lemma NegativeText(n: int, rest: string)
    requires n < 0
    ensures (ToDecimal(n) + rest)[0] == '-'
    ensures (ToDecimal(n) + rest)[1..] == NatToDigits(-n) + rest
  {
    var text := ToDecimal(n) + rest;
    assert ToDecimal(n) == "-" + NatToDigits(-n);
    assert text == "-" + (NatToDigits(-n) + rest);
  }

  /** A minus sign, a run of digits worth `m`, then no digit: `-m`. */
  lemma MinusDigitsThen(text: string, ds: string, rest: string, m: nat)
    requires ds != [] && AllDigits(ds) && DigitsValue(ds) == m
    requires rest == [] || !IsDigit(rest[0])
    requires text != [] && text[0] == '-' && text[1..] == ds + rest
    ensures ParseInt(text) == Some(-(m as int))
  {
    assert IsDigit(text[1]);
    LeadingDigitsStops(ds, rest);
    ParseIntOfMinus(text);
  }

  /** The case without a sign: the digits of `n` come first. */
  lemma NaturalStopsAtNonDigit(n: nat, rest: string)
    requires rest == [] || !IsDigit(rest[0])
    ensures ParseInt(ToDecimal(n) + rest) == Some(n)
  {
    var ds := NatToDigits(n);
    var text := ToDecimal(n) + rest;
    assert text == ds + rest;
    assert LeadingDigits(text) == ds by {
      LeadingDigitsStops(ds, rest);
    }
    assert DigitsValue(ds) == n by {
      DigitsRoundTrip(n);
    }
    ParseIntOfDigitFirst(text);
  }

  /** `parseInt` reads back every integer `String` writes. */
  lemma ParseIntToDecimal(n: int)
    ensures ParseInt(ToDecimal(n)) == Some(n)
  {
    ParseIntStopsAtNonDigit(n, []);
    assert ToDecimal(n) + [] == ToDecimal(n);
  }

  // ---------------------------------------------------------------------
  // Property keys

  /** The string an object uses as the key when indexed with `v`. A number keys the property named by its decimal spelling, which
      `parseInt` reads back; `undefined` and `null` key properties named by
      words with no digit, which no number key can equal. */
  function PropertyKey(v: Value): (r: string)
    ensures v.Num? ==> ParseInt(r) == Some(v.n) && (v.n >= 0 <==> AllDigits(r))
    ensures v.Undefined? || v.Null? ==> ParseInt(r) == None
    ensures v.Str? ==> r == v.s
  {
    match v
    case Undefined =>
      var w := "undefined";
      assert NoDigit(w);
      w
    case Null =>
      var w := "null";
      assert NoDigit(w);
      w
    case Num(n) =>
      ParseIntToDecimal(n);
      var r := ToDecimal(n);
      assert n < 0 ==> !IsDigit(r[0]);
      r
    case Str(s) => s
  }

  /** Two numbers index the same property only when they are equal. */
  lemma NumberKeysInjective(a: int, b: int)
    ensures PropertyKey(Num(a)) == PropertyKey(Num(b)) <==> a == b
  {
  }
}
