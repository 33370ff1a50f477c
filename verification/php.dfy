/** The pieces of PHP's value semantics the handlers rely on: the boolean
    test `if ($input)`, the `(int)` cast, and the decimal form in which an
    integer is written out. PHP integers are 64-bit; the model's `int` is
    unbounded, so the cast clamps explicitly. */
module Php {
  import opened Json

  const IntMax: int := 0x7FFF_FFFF_FFFF_FFFF
  const IntMin: int := -0x8000_0000_0000_0000

  /** PHP's conversion of a decoded value to bool. An empty JSON object
      decodes to an empty array, so it is false like `[]`. The falsy values
      are exactly these seven; everything else is truthy. */
  predicate Truthy(v: Value)
    ensures !Truthy(v) <==> v in {JNull, JBool(false), JInt(0), JStr(""), JStr("0"), JArr([]), JObj(map[])}
  {
    EmptyFields(v);
    match v
    case JNull => false
    case JBool(b) => b
    case JInt(i) => i != 0
    case JStr(s) => s != "" && s != "0"
    case JArr(items) => |items| > 0
    case JObj(fields) => |fields| > 0
  }

  /** An object with no fields is the empty object. */
  lemma EmptyFields(v: Value)
    ensures v.JObj? && |v.fields| == 0 ==> v.fields == map[]
  {
    if v.JObj? && |v.fields| == 0 {
      assert v.fields.Keys == {};
    }
  }

  predicate IsDigit(c: char) {
    '0' <= c <= '9'
  }

  /** The characters PHP's numeric-string scanner skips before a number. */
  predicate IsBlank(c: char) {
    c == ' ' || c == '\t' || c == '\n' || c == '\r' || c == '\U{000B}' || c == '\U{000C}'
  }

  predicate AllDigits(s: string) {
    forall k | 0 <= k < |s| :: IsDigit(s[k])
  }

  function DigitValue(c: char): (d: nat)
    requires IsDigit(c)
    ensures d < 10
  {
    c as int - '0' as int
  }

  function Digit(d: nat): (c: char)
    requires d < 10
    ensures IsDigit(c) && DigitValue(c) == d
  {
    ('0' as int + d) as char
  }

  /** The input with its leading blanks removed. */
  function SkipBlanks(s: string): (r: string)
    ensures |r| <= |s| && r == s[|s| - |r|..]
    ensures r == [] || !IsBlank(r[0])
    ensures forall k | 0 <= k < |s| - |r| :: IsBlank(s[k])
  {
    if |s| > 0 && IsBlank(s[0]) then SkipBlanks(s[1..]) else s
  }

  /** The longest prefix of `s` made of decimal digits. */
  function DigitPrefix(s: string): (d: string)
    ensures |d| <= |s| && d == s[..|d|]
    ensures AllDigits(d)
    ensures |d| == |s| || !IsDigit(s[|d|])
  {
    if |s| > 0 && IsDigit(s[0]) then [s[0]] + DigitPrefix(s[1..]) else []
  }

  /** The number a string of decimal digits denotes, most significant first. */
  function DigitsValue(d: string): nat
    requires AllDigits(d)
  {
    if |d| == 0 then 0 else DigitsValue(d[..|d| - 1]) * 10 + DigitValue(d[|d| - 1])
  }

  /** Saturation into the 64-bit range, as PHP does when a numeric string is
      too large for an integer. */
  function Clamp(n: int): (r: int)
    ensures IntMin <= r <= IntMax
    ensures IntMin <= n <= IntMax ==> r == n
    ensures n > IntMax ==> r == IntMax
    ensures n < IntMin ==> r == IntMin
  {
    if n > IntMax then IntMax else if n < IntMin then IntMin else n
  }

  /** The number at the front of a string that starts after any blanks:
      an optional sign, then the leading run of digits (none gives 0). */
  function SignedPrefixValue(t: string): int {
    if |t| > 0 && t[0] == '-' then -(DigitsValue(DigitPrefix(t[1..])) as int)
    else if |t| > 0 && t[0] == '+' then DigitsValue(DigitPrefix(t[1..]))
    else DigitsValue(DigitPrefix(t))
  }

  /** `(int)` applied to a string: leading blanks are skipped, the number
      at the front is read, anything after it is ignored, and the value is
      saturated into the 64-bit range. */
  function StringToInt(s: string): (r: int)
    ensures IntMin <= r <= IntMax
  {
    Clamp(SignedPrefixValue(SkipBlanks(s)))
  }

  /** `(int)` applied to a decoded JSON value: an integer is kept, every
      other value lands in the 64-bit range, the falsy values give 0, and a
      truthy bool, list or object gives 1. */
  function IntCast(v: Value): (n: int)
    ensures v.JInt? ==> n == v.i
    ensures !v.JInt? ==> IntMin <= n <= IntMax
    ensures !Truthy(v) ==> n == 0
    ensures (v.JBool? || v.JArr? || v.JObj?) && Truthy(v) ==> n == 1
  {
    match v
    case JNull => 0
    case JBool(b) => if b then 1 else 0
    case JInt(i) => i
    case JStr(s) => StringToInt(s)
    case JArr(items) => if |items| == 0 then 0 else 1
    case JObj(fields) => if |fields| == 0 then 0 else 1
  }

  /** The decimal digits of a natural number, without leading zeros. */
  function Decimal(n: nat): (d: string)
    ensures |d| > 0 && AllDigits(d)
    ensures |d| > 1 ==> d[0] != '0'
  {
    if n < 10 then [Digit(n)] else Decimal(n / 10) + [Digit(n % 10)]
  }

  /** The text PHP writes for an integer (`json_encode`, string conversion). */
  function IntToString(i: int): (s: string)
    ensures |s| > 0
    ensures s[0] == '-' <==> i < 0
  {
    if i < 0 then "-" + Decimal(-i) else Decimal(i)
  }

  /** Reading back the digits of `n` gives `n`. */
  lemma {:induction false} DecimalValue(n: nat)
    ensures DigitsValue(Decimal(n)) == n
  {
    if n >= 10 {
      var d := Decimal(n);
      assert d[..|d| - 1] == Decimal(n / 10);
      DecimalValue(n / 10);
    }
  }

  /** A string made only of digits is its own digit prefix. */
  lemma {:induction false} DigitPrefixOfDigits(d: string)
    requires AllDigits(d)
    ensures DigitPrefix(d) == d
  {
    if |d| > 0 {
      DigitPrefixOfDigits(d[1..]);
      assert d == [d[0]] + d[1..];
    }
  }

  /** A string that does not start with a blank casts to the number at its
      front, clamped. */
  lemma CastUnblanked(s: string)
    requires |s| > 0 && !IsBlank(s[0])
    ensures StringToInt(s) == Clamp(SignedPrefixValue(s))
  {
  }

  /** The longest run of digits the model's cast covers. PHP reads a run
      too long for a 64-bit integer as a double; up to this many digits the
      double is finite and saturates like `Clamp`, beyond it may be infinite
      and casts to 0. */
  const MaxDigits: nat := 308

  function Pow10(k: nat): (p: nat)
    ensures p > 0
  {
    if k == 0 then 1 else 10 * Pow10(k - 1)
  }

  /** The decimal text of a number below `10^k` has at most `k` digits. */
  lemma {:induction false} DecimalLength(n: nat, k: nat)
    requires 1 <= k && n < Pow10(k)
    ensures |Decimal(n)| <= k
  {
    if n >= 10 {
      DecimalLength(n / 10, k - 1);
    }
  }

  /** Every 64-bit magnitude (up to 2^63) has at most 19 digits. */
  lemma DecimalLength64(n: nat)
    requires n <= -IntMin
    ensures |Decimal(n)| <= 19 <= MaxDigits
  {
    assert Pow10(10) == 10_000_000_000;
    assert Pow10(19) == 10_000_000_000_000_000_000;
    DecimalLength(n, 19);
  }

  /** A run of digits casts to its value `n`, clamped. */
  lemma CastDigits(d: string, n: nat)
    requires 0 < |d| <= MaxDigits && AllDigits(d) && DigitsValue(d) == n
    ensures StringToInt(d) == Clamp(n)
  {
    CastUnblanked(d);
    DigitPrefixOfDigits(d);
  }

  /** A minus sign and a run of digits of value `n` cast to `-n`, clamped. */
  lemma CastNegatedDigits(s: string, d: string, n: nat)
    requires |d| <= MaxDigits && AllDigits(d) && DigitsValue(d) == n
    requires |s| > 0 && s[0] == '-' && s[1..] == d
    ensures StringToInt(s) == Clamp(-(n as int))
  {
    CastUnblanked(s);
    DigitPrefixOfDigits(d);
  }

  /** Casting the decimal text of any 64-bit integer gives that integer
      back: a client that sends a number as a string is understood. */
  lemma StringToIntRoundTrip(i: int)
    requires IntMin <= i <= IntMax
    ensures StringToInt(IntToString(i)) == i
  {
    if i < 0 {
      NegativeRoundTrip(i);
    } else {
      NonNegativeRoundTrip(i);
    }
  }

  lemma NonNegativeRoundTrip(i: int)
    requires 0 <= i <= IntMax
    ensures StringToInt(IntToString(i)) == i
  {
    var d := Decimal(i);
    DecimalValue(i);
    DecimalLength64(i);
    CastDigits(d, i);
  }

  lemma NegativeRoundTrip(i: int)
    requires IntMin <= i < 0
    ensures StringToInt(IntToString(i)) == i
  {
    var d := Decimal(-i);
    var s := IntToString(i);
    assert s == "-" + d;
    assert s[1..] == d;
    DecimalValue(-i);
    DecimalLength64(-i);
    CastNegatedDigits(s, d, -i);
  }

  /** Text after the leading number does not matter: "12abc" casts to 12.
      A fraction or an exponent right after the digits is excluded, since
      PHP reads those as part of the number. */
  lemma TrailingTextIgnored(i: nat, rest: string)
    requires i <= IntMax
    requires rest == [] || (!IsDigit(rest[0]) && rest[0] != '.' && rest[0] != 'e' && rest[0] != 'E')
    ensures StringToInt(Decimal(i) + rest) == i
  {
    var d := Decimal(i);
    var s := d + rest;
    assert s[0] == d[0] && !IsBlank(s[0]) && s[0] != '-' && s[0] != '+';
    assert SkipBlanks(s) == s;
    DigitPrefixAppend(d, rest);
    DecimalValue(i);
    assert SignedPrefixValue(s) == i;
  }

  lemma {:induction false} DigitPrefixAppend(d: string, rest: string)
    requires AllDigits(d)
    requires rest == [] || !IsDigit(rest[0])
    ensures DigitPrefix(d + rest) == d
  {
    if |d| == 0 {
      assert d + rest == rest;
    } else {
      assert (d + rest)[1..] == d[1..] + rest;
      DigitPrefixAppend(d[1..], rest);
      assert d == [d[0]] + d[1..];
    }
  }
}
