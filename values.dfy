/**
 * Request payload values as the JavaScript handlers see them, with the
 * truthiness test, the `typeof` distinctions and the two conversions the
 * handlers rely on: a value used as an integer primary key, and a value
 * interpolated into an error message.
 */
module Values {
  import opened Wrappers

  /** A field of a JSON request body. `Absent` is a missing key (`undefined`). */
  datatype Value = Absent | Null | Str(s: string) | Num(n: int) | Bool(b: bool) | Other

  /** JavaScript truthiness: `undefined`, `null`, `""`, `0` and `false` are falsy. */
  predicate Truthy(v: Value)
  {
    match v
    case Absent => false
    case Null => false
    case Str(s) => s != ""
    case Num(n) => n != 0
    case Bool(b) => b
    case Other => true
  }

  /** The `data` object of a request body, field name to value. */
  type Fields = map<string, Value>

  /** Property access `data.key`: a missing key reads as `undefined`. */
  function Get(f: Fields, key: string): Value
  {
    if key in f then f[key] else Absent
  }

  /** Row ids are the database's serial keys, which start at 1. */
  type Id = x: int | 1 <= x witness 1

  predicate IsDigit(c: char)
  {
    '0' <= c <= '9'
  }

  predicate AllDigits(s: string)
  {
    forall i :: 0 <= i < |s| ==> IsDigit(s[i])
  }

  function DigitValue(c: char): nat
    requires IsDigit(c)
  {
    (c as int) - ('0' as int)
  }

  function DigitChar(n: nat): (c: char)
    requires n < 10
    ensures IsDigit(c) && DigitValue(c) == n
  {
    ('0' as int + n) as char
  }

  /** The number written by a string of decimal digits. */
  function DecimalValue(s: string): nat
    requires AllDigits(s)
  {
    if s == [] then 0 else 10 * DecimalValue(s[..|s| - 1]) + DigitValue(s[|s| - 1])
  }

  /** Decimal notation of a natural number, without leading zeros. */
  function NatToString(n: nat): (s: string)
    ensures |s| >= 1
  {
    if n < 10 then [DigitChar(n)] else NatToString(n / 10) + [DigitChar(n % 10)]
  }

  lemma {:induction false} DecimalValueSnoc(s: string, c: char)
    requires AllDigits(s) && IsDigit(c)
    ensures AllDigits(s + [c]) && DecimalValue(s + [c]) == 10 * DecimalValue(s) + DigitValue(c)
  {
    assert (s + [c])[..|s + [c]| - 1] == s;
  }

  /** Reading back the decimal notation gives the number. */
  lemma {:induction false} NatToStringRoundTrip(n: nat)
    ensures AllDigits(NatToString(n)) && DecimalValue(NatToString(n)) == n
  {
    if n < 10 {
      assert NatToString(n) == [] + [DigitChar(n)];
      DecimalValueSnoc([], DigitChar(n));
    } else {
      NatToStringRoundTrip(n / 10);
      DecimalValueSnoc(NatToString(n / 10), DigitChar(n % 10));
    }
  }

  /** How a value is rendered by a template literal (`${v}`). */
  function JsString(v: Value): string
  {
    match v
    case Absent => "undefined"
    case Null => "null"
    case Str(s) => s
    case Num(n) => if n < 0 then "-" + NatToString(-n) else NatToString(n)
    case Bool(b) => if b then "true" else "false"
    case Other => "[object Object]"
  }

  /**
   * The row a value selects when it is compared with an integer primary key:
   * a positive number, or a string of digits that the database casts to one.
   * Every other value is treated as selecting no row; the database would
   * refuse some of them outright (see the README's "Left out" section).
   */
  function KeyOf(v: Value): (k: Option<Id>)
    ensures k.Some? ==> Truthy(v)
  {
    match v
    case Num(n) => if n >= 1 then Some(n) else None
    case Str(s) =>
      if s != "" && AllDigits(s) && DecimalValue(s) >= 1 then Some(DecimalValue(s)) else None
    case _ => None
  }

  /** A route parameter written as the decimal id selects the row with that id. */
  lemma KeyOfPathRoundTrip(k: Id)
    ensures KeyOf(Str(NatToString(k))) == Some(k)
  {
    NatToStringRoundTrip(k);
  }
  /** `s.split(sep)`: the pieces between occurrences of `sep`, always at least one. */
  function Split(s: string, sep: char): (parts: seq<string>)
    ensures |parts| >= 1
    decreases |s|
  {
    if s == [] then [""]
    else
      var rest := Split(s[1..], sep);
      if s[0] == sep then [""] + rest else [[s[0]] + rest[0]] + rest[1..]
  }

  /** A string with no separator in it splits into itself alone. */
  lemma {:induction false} SplitWithoutSeparator(s: string, sep: char)
    requires forall i :: 0 <= i < |s| ==> s[i] != sep
    ensures Split(s, sep) == [s]
    decreases |s|
  {
    if s != [] {
      SplitWithoutSeparator(s[1..], sep);
      assert [s[0]] + s[1..] == s;
    }
  }

  /** Splitting `a + sep + b`, where `a` holds no separator, yields `a` first. */
  lemma {:induction false} SplitAfterPiece(a: string, sep: char, b: string)
    requires forall i :: 0 <= i < |a| ==> a[i] != sep
    ensures Split(a + [sep] + b, sep) == [a] + Split(b, sep)
    decreases |a|
  {
    var s := a + [sep] + b;
    if a == [] {
      assert s[1..] == b;
    } else {
      assert s[1..] == a[1..] + [sep] + b;
      SplitAfterPiece(a[1..], sep, b);
      assert [a[0]] + a[1..] == a;
    }
  }

  /**
   * `Number(s)` on the strings this model meets: the empty string is 0, a
   * string of digits its value, anything else `NaN` (None).
   */
  function JsNumber(s: string): (r: Option<int>)
    ensures r.Some? ==> r.value >= 0
  {
    if s == "" then Some(0) else if AllDigits(s) then Some(DecimalValue(s)) else None
  }
}
