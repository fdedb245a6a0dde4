/** The JavaScript string and number primitives the core relies on, restricted to what the
    core feeds them: trimming, splitting on one character, decimal formatting and parsing of
    numbers (`toString`, `parseInt(s, 10)`, `parseFloat`), `padStart`, `toFixed(2)`, and the
    code-unit order that `Array.prototype.sort()` uses when it is given no comparator. */
module Text {
  import opened Wrappers

  // ---------------------------------------------------------------------------------------
  // Trimming

  /** White space and line terminators, as `trim`, `parseInt` and `parseFloat` skip them. */
  predicate IsSpace(c: char) {
    c == ' ' || c == '\t' || c == '\n' || c == '\r' || c == '\U{000B}' || c == '\U{000C}'
    || c == '\U{00A0}' || c == '\U{FEFF}' || c == '\U{2028}' || c == '\U{2029}'
  }

  /** `s.trimStart()`: the longest suffix of `s` that does not start with white space. */
  function TrimStart(s: string): (r: string)
    ensures |r| <= |s| && r == s[|s| - |r|..]
    ensures forall k :: 0 <= k < |s| - |r| ==> IsSpace(s[k])
    ensures r == [] || !IsSpace(r[0])
  {
    if s != [] && IsSpace(s[0]) then
      var t := s[1..];
      var r := TrimStart(t);
      assert t[|t| - |r|..] == s[|s| - |r|..];
      assert forall k :: 1 <= k < |s| - |r| ==> s[k] == t[k - 1];
      r
    else s
  }

  /** `s.trimEnd()`: the longest prefix of `s` that does not end with white space. */
  function TrimEnd(s: string): (r: string)
    ensures |r| <= |s| && r == s[..|r|]
    ensures forall k :: |r| <= k < |s| ==> IsSpace(s[k])
    ensures r == [] || !IsSpace(r[|r| - 1])
  {
    if s != [] && IsSpace(s[|s| - 1]) then TrimEnd(s[..|s| - 1]) else s
  }

  /** `s.trim()`. */
  function Trim(s: string): string {
    TrimEnd(TrimStart(s))
  }

  predicate IsBlank(s: string) {
    forall k :: 0 <= k < |s| ==> IsSpace(s[k])
  }

  /** A string trims to nothing exactly when every character of it is white space. */
  lemma TrimEmptyIffBlank(s: string)
    ensures Trim(s) == [] <==> IsBlank(s)
  {
    var t := TrimStart(s);
    if Trim(s) == [] {
      assert t == [];
      forall k | 0 <= k < |s| ensures IsSpace(s[k]) { }
    } else {
      var k := |s| - |t|;
      assert s[k] == t[0];
    }
  }

  // ---------------------------------------------------------------------------------------
  // Splitting

  /** `s.split(sep)` for a one-character separator: every piece between separators, empty
      pieces included, and `[""]` for the empty string. */
  function Split(s: string, sep: char): (r: seq<string>)
    ensures |r| >= 1
    decreases |s|
  {
    if s == [] then [[]]
    else
      var rest := Split(s[1..], sep);
      if s[0] == sep then [[]] + rest
      else [[s[0]] + rest[0]] + rest[1..]
  }

  /** `s` does not contain `sep`. */
  predicate Free(s: string, sep: char) {
    forall k :: 0 <= k < |s| ==> s[k] != sep
  }

  /** No piece of a split contains the separator. */
  lemma {:induction false} SplitPiecesFree(s: string, sep: char)
    ensures forall i :: 0 <= i < |Split(s, sep)| ==> Free(Split(s, sep)[i], sep)
    decreases |s|
  {
    if s != [] {
      SplitPiecesFree(s[1..], sep);
    }
  }

  /** `parts.join(sep)`. */
  function Join(parts: seq<string>, sep: char): string
    requires |parts| >= 1
  {
    if |parts| == 1 then parts[0] else parts[0] + [sep] + Join(parts[1..], sep)
  }

  /** Joining the pieces of a split gives back the original string. */
  lemma {:induction false} JoinSplit(s: string, sep: char)
    ensures Join(Split(s, sep), sep) == s
    decreases |s|
  {
    if s != [] {
      JoinSplit(s[1..], sep);
      var rest := Split(s[1..], sep);
      assert s == [s[0]] + s[1..];
      if s[0] == sep {
        assert ([[]] + rest)[1..] == rest;
      } else if |rest| > 1 {
        assert Join(rest, sep) == rest[0] + [sep] + Join(rest[1..], sep);
        assert ([[s[0]] + rest[0]] + rest[1..])[1..] == rest[1..];
        assert Join([[s[0]] + rest[0]] + rest[1..], sep) == [s[0]] + rest[0] + [sep] + Join(rest[1..], sep);
      } else {
        assert Join(rest, sep) == rest[0];
      }
    }
  }

  /** A leading character other than the separator joins the first piece. */
  lemma SplitCons(c: char, u: string, sep: char)
    requires c != sep
    ensures Split([c] + u, sep) == [[c] + Split(u, sep)[0]] + Split(u, sep)[1..]
  {
    assert ([c] + u)[1..] == u;
  }

  /** A prefix without separators joins the first piece. */
  lemma {:induction false} SplitPrefix(a: string, t: string, sep: char)
    requires Free(a, sep)
    ensures Split(a + t, sep) == [a + Split(t, sep)[0]] + Split(t, sep)[1..]
    decreases |a|
  {
    var st := Split(t, sep);
    if a != [] {
      assert Free(a[1..], sep) && a[0] != sep;
      SplitPrefix(a[1..], t, sep);
      assert a + t == [a[0]] + (a[1..] + t);
      SplitCons(a[0], a[1..] + t, sep);
      assert [a[0]] + (a[1..] + st[0]) == a + st[0];
    } else {
      assert a + t == t;
      assert [] + st[0] == st[0];
      assert st == [st[0]] + st[1..];
    }
  }

  /** Splitting pieces that contain no separator, once joined, gives back the pieces. */
  lemma {:induction false} SplitJoin(parts: seq<string>, sep: char)
    requires |parts| >= 1
    requires forall i :: 0 <= i < |parts| ==> Free(parts[i], sep)
    ensures Split(Join(parts, sep), sep) == parts
  {
    if |parts| == 1 {
      SplitPrefix(parts[0], [], sep);
      assert parts[0] + [] == parts[0];
    } else {
      var rest := Join(parts[1..], sep);
      SplitJoin(parts[1..], sep);
      assert parts[0] + [sep] + rest == parts[0] + ([sep] + rest);
      SplitPrefix(parts[0], [sep] + rest, sep);
      assert ([sep] + rest)[1..] == rest;
      assert Split([sep] + rest, sep) == [[]] + Split(rest, sep);
      assert parts[0] + [] == parts[0];
      assert parts == [parts[0]] + parts[1..];
    }
  }

  /** Three pieces without separators, joined by it, split back into the three. */
  lemma SplitThree(a: string, b: string, c: string, sep: char)
    requires Free(a, sep) && Free(b, sep) && Free(c, sep)
    ensures Split(a + [sep] + b + [sep] + c, sep) == [a, b, c]
  {
    var parts := [a, b, c];
    assert Join(parts, sep) == a + [sep] + b + [sep] + c by {
      assert parts[1..] == [b, c];
      assert [b, c][1..] == [c];
      assert Join([b, c], sep) == b + [sep] + c;
    }
    SplitJoin(parts, sep);
  }

  // ---------------------------------------------------------------------------------------
  // Decimal digits and integers

  predicate IsDigit(c: char) {
    '0' <= c <= '9'
  }

  predicate AllDigits(s: string) {
    forall k :: 0 <= k < |s| ==> IsDigit(s[k])
  }

  function DigitChar(d: int): char
    requires 0 <= d < 10
  {
    ('0' as int + d) as char
  }

  function DigitValue(c: char): int
    requires IsDigit(c)
  {
    c as int - '0' as int
  }

  /** The decimal numeral of a natural number, without leading zeros. */
  function NatToString(n: nat): (r: string)
    ensures |r| >= 1 && AllDigits(r)
  {
    if n < 10 then [DigitChar(n)] else NatToString(n / 10) + [DigitChar(n % 10)]
  }

  /** `String(i)` / `i.toString()` for an integer-valued number. */
  function IntToString(i: int): string {
    if i < 0 then "-" + NatToString(-i) else NatToString(i)
  }

  /** The longest prefix of `s` made of decimal digits. */
  function DigitPrefix(s: string): (r: string)
    ensures |r| <= |s| && r == s[..|r|] && AllDigits(r)
    ensures |r| < |s| ==> !IsDigit(s[|r|])
  {
    if s != [] && IsDigit(s[0]) then [s[0]] + DigitPrefix(s[1..]) else []
  }

  /** The value of a string of decimal digits, read most significant first. */
  function DigitsValue(ds: string): nat
    requires AllDigits(ds)
  {
    if ds == [] then 0 else DigitsValue(ds[..|ds| - 1]) * 10 + DigitValue(ds[|ds| - 1])
  }

  /** What `parseInt` and `parseFloat` read before the digits: leading white space is
      skipped, then a `-` makes the number negative and a `-` or `+` is consumed. */
  function SignAndBody(s: string): (r: (bool, string))
    ensures |r.1| <= |s| && r.1 == s[|s| - |r.1|..]
  {
    var t := TrimStart(s);
    var negative := t != [] && t[0] == '-';
    (negative, if t != [] && (t[0] == '-' || t[0] == '+') then t[1..] else t)
  }

  /** `parseInt(s, 10)`: after the sign, the longest run of decimal digits; `None` stands for
      `NaN` (no digit at all). */
  function ParseInt(s: string): Option<int> {
    var (negative, body) := SignAndBody(s);
    var ds := DigitPrefix(body);
    if ds == [] then None else Some(if negative then -(DigitsValue(ds) as int) else DigitsValue(ds))
  }

  lemma {:induction false} DigitsValueOfNatToString(n: nat)
    ensures DigitsValue(NatToString(n)) == n
  {
    if n >= 10 {
      DigitsValueOfNatToString(n / 10);
      var s := NatToString(n);
      assert s[..|s| - 1] == NatToString(n / 10);
    }
  }

  lemma {:induction false} DigitPrefixOfDigits(s: string, t: string)
    requires AllDigits(s)
    requires t == [] || !IsDigit(t[0])
    ensures DigitPrefix(s + t) == s
    decreases |s|
  {
    if s == [] {
      assert s + t == t;
    } else {
      assert (s + t)[1..] == s[1..] + t;
      DigitPrefixOfDigits(s[1..], t);
    }
  }

  lemma TrimStartUnchanged(s: string)
    requires s == [] || !IsSpace(s[0])
    ensures TrimStart(s) == s
  {
  }

  /** The digits of a numeral are read back whole. */
  lemma DigitPrefixOfNumeral(n: nat)
    ensures DigitPrefix(NatToString(n)) == NatToString(n)
  {
    DigitPrefixOfDigits(NatToString(n), []);
    assert NatToString(n) + [] == NatToString(n);
  }

  /** The numeral of an integer is read as its sign and the numeral of its magnitude. */
  lemma SignAndBodyOfInteger(i: int)
    ensures SignAndBody(IntToString(i)) == (i < 0, NatToString(if i < 0 then -i else i))
  {
    var n: nat := if i < 0 then -i else i;
    var digits := NatToString(n);
    assert IsDigit(digits[0]);
    if i < 0 {
      var s := "-" + digits;
      assert s[0] == '-';
      TrimStartUnchanged(s);
      assert s[1..] == digits;
    } else {
      assert digits[0] != '-' && digits[0] != '+';
      TrimStartUnchanged(digits);
    }
  }

  /** `parseInt` reads back exactly the integer that `toString` wrote. */
  lemma ParseIntToString(i: int)
    ensures ParseInt(IntToString(i)) == Some(i)
  {
    var n: nat := if i < 0 then -i else i;
    SignAndBodyOfInteger(i);
    DigitsValueOfNatToString(n);
    DigitPrefixOfNumeral(n);
  }

  /** Different natural numbers have different numerals. */
  lemma NatToStringInjective(a: nat, b: nat)
    requires NatToString(a) == NatToString(b)
    ensures a == b
  {
    DigitsValueOfNatToString(a);
    DigitsValueOfNatToString(b);
  }

  // ---------------------------------------------------------------------------------------
  // parseFloat

  function Pow10(n: nat): (r: real)
    ensures r >= 1.0
  {
    if n == 0 then 1.0 else 10.0 * Pow10(n - 1)
  }

  /** The exponent of a `parseFloat` literal: `e` or `E`, an optional sign and at least one
      digit; anything else is not part of the literal and counts as exponent 0. */
  function ExponentOf(s: string): int {
    if s != [] && (s[0] == 'e' || s[0] == 'E') then
      var t := s[1..];
      var body := if t != [] && (t[0] == '-' || t[0] == '+') then t[1..] else t;
      var ds := DigitPrefix(body);
      if ds == [] then 0
      else if t[0] == '-' then -(DigitsValue(ds) as int)
      else DigitsValue(ds)
    else 0
  }

  /** `x` times ten to the power `e`. */
  function Scaled(x: real, e: int): real {
    if e >= 0 then x * Pow10(e) else x / Pow10(-e)
  }

  /** `parseFloat(s)` on decimal literals: after the sign, an unsigned literal; `None` stands
      for `NaN`. */
  function ParseFloat(s: string): Option<real> {
    var (negative, body) := SignAndBody(s);
    match UnsignedFloat(body)
    case None => None
    case Some(magnitude) => Some(if negative then -magnitude else magnitude)
  }

  /** The value of the unsigned literal at the start of `body`: digits with an optional
      fraction (at least one digit in all), an optional exponent, and whatever follows
      ignored. */
  function UnsignedFloat(body: string): Option<real> {
    var whole := DigitPrefix(body);
    var afterWhole := body[|whole|..];
    var hasPoint := afterWhole != [] && afterWhole[0] == '.';
    var fraction := if hasPoint then DigitPrefix(afterWhole[1..]) else [];
    if whole == [] && fraction == [] then None
    else
      var literalLength := if hasPoint then |whole| + 1 + |fraction| else |whole|;
      Some(Scaled(Magnitude(whole, fraction), ExponentOf(body[literalLength..])))
  }

  /** The value of the digits before and after the point. */
  function Magnitude(whole: string, fraction: string): real
    requires AllDigits(whole) && AllDigits(fraction)
  {
    DigitsValue(whole) as real + FractionValue(fraction)
  }

  /** The value of the digits after the point: their integer value over the matching power
      of ten. */
  function FractionValue(fraction: string): real
    requires AllDigits(fraction)
  {
    DigitsValue(fraction) as real / Pow10(|fraction|)
  }

  /** A bare numeral is read as the number it denotes. */
  lemma UnsignedFloatOfNumeral(n: nat)
    ensures UnsignedFloat(NatToString(n)) == Some(n as real)
  {
    var digits := NatToString(n);
    DigitsValueOfNatToString(n);
    DigitPrefixOfNumeral(n);
    assert digits[|digits|..] == [];
    assert DigitPrefix([]) == [];
    assert ExponentOf([]) == 0;
  }

  /** `parseFloat` agrees with `parseInt` on the numeral of an integer. */
  lemma ParseFloatOfInteger(i: int)
    ensures ParseFloat(IntToString(i)) == Some(i as real)
  {
    SignAndBodyOfInteger(i);
    UnsignedFloatOfNumeral(if i < 0 then -i else i);
  }

  /** The literal of a decimal with a fraction: an optional `-`, the numeral of the whole
      part, a point and the digits of the fraction, as in `-0.4` or `12.25`. */
  function DecimalNumeral(negative: bool, whole: nat, fraction: string): string {
    (if negative then "-" else "") + NatToString(whole) + "." + fraction
  }

  /** The number such a literal denotes: the whole part plus the fraction's digits over the
      matching power of ten, negated after a `-`. */
  function DecimalValue(negative: bool, whole: nat, fraction: string): real
    requires AllDigits(fraction)
  {
    var magnitude := whole as real + FractionValue(fraction);
    if negative then -magnitude else magnitude
  }

  /** A whole part, a point and a non-empty fraction are read as one literal, with no
      exponent after it. */
  lemma UnsignedFloatOfDecimal(whole: nat, fraction: string)
    requires AllDigits(fraction) && fraction != []
    ensures UnsignedFloat(NatToString(whole) + "." + fraction)
         == Some(DecimalValue(false, whole, fraction))
  {
    var digits := NatToString(whole);
    var body := digits + ("." + fraction);
    assert body == NatToString(whole) + "." + fraction;
    assert DigitPrefix(body) == digits by {
      DigitPrefixOfDigits(digits, "." + fraction);
    }
    assert DigitPrefix(fraction) == fraction by {
      DigitPrefixOfDigits(fraction, []);
      assert fraction + [] == fraction;
    }
    assert body[|digits|..] == "." + fraction;
    assert |body| == |digits| + 1 + |fraction|;
    UnsignedFloatOfPieces(body, digits, fraction);
    assert Magnitude(digits, fraction) == DecimalValue(false, whole, fraction) by {
      DigitsValueOfNatToString(whole);
    }
  }

  /** The literal of a body that is a run of digits, a point and a run of digits, and
      nothing after them. */
  lemma UnsignedFloatOfPieces(body: string, digits: string, fraction: string)
    requires DigitPrefix(body) == digits && fraction != [] && DigitPrefix(fraction) == fraction
    requires body[|digits|..] == "." + fraction && |body| == |digits| + 1 + |fraction|
    ensures UnsignedFloat(body) == Some(Magnitude(digits, fraction))
  {
    var afterWhole := body[|digits|..];
    assert afterWhole[1..] == fraction;
    var literalLength := |digits| + 1 + |fraction|;
    assert body[literalLength..] == [];
    assert ExponentOf([]) == 0;
  }

  /** `parseFloat` reads a signed decimal literal back as the number it denotes. */
  lemma ParseFloatOfDecimal(negative: bool, whole: nat, fraction: string)
    requires AllDigits(fraction) && fraction != []
    ensures ParseFloat(DecimalNumeral(negative, whole, fraction))
         == Some(DecimalValue(negative, whole, fraction))
  {
    var body := NatToString(whole) + "." + fraction;
    SignAndBodyOfDecimal(negative, whole, fraction);
    UnsignedFloatOfDecimal(whole, fraction);
    ParseFloatOfSign(DecimalNumeral(negative, whole, fraction), negative, body,
                     DecimalValue(false, whole, fraction));
    assert DecimalValue(negative, whole, fraction)
        == if negative then -DecimalValue(false, whole, fraction) else DecimalValue(false, whole, fraction);
  }

  /** A decimal literal is read as its sign and the unsigned literal after it. */
  lemma SignAndBodyOfDecimal(negative: bool, whole: nat, fraction: string)
    ensures SignAndBody(DecimalNumeral(negative, whole, fraction))
         == (negative, NatToString(whole) + "." + fraction)
  {
    var s := DecimalNumeral(negative, whole, fraction);
    var body := NatToString(whole) + "." + fraction;
    assert IsDigit(body[0]);
    if negative {
      assert s == "-" + body && s[0] == '-';
      TrimStartUnchanged(s);
      assert s[1..] == body;
    } else {
      assert s == body;
      TrimStartUnchanged(s);
    }
  }

  /** `parseFloat` negates the unsigned literal after a `-`. */
  lemma ParseFloatOfSign(s: string, negative: bool, body: string, magnitude: real)
    requires SignAndBody(s).0 == negative && SignAndBody(s).1 == body
    requires UnsignedFloat(body) == Some(magnitude)
    ensures ParseFloat(s) == Some(if negative then -magnitude else magnitude)
  {
  }

  /** Such a literal holds no separator other than `-` or `.`. */
  lemma DecimalFree(negative: bool, whole: nat, fraction: string, sep: char)
    requires AllDigits(fraction) && !IsDigit(sep) && sep != '-' && sep != '.'
    ensures Free(DecimalNumeral(negative, whole, fraction), sep)
  {
    var digits := NatToString(whole);
    var s := DecimalNumeral(negative, whole, fraction);
    assert s == (if negative then "-" else "") + digits + "." + fraction;
  }

  // ---------------------------------------------------------------------------------------
  // Formatting

  /** `s.padStart(width, c)`: `s` preceded by as many copies of `c` as make it `width` long. */
  function PadStart(s: string, width: nat, c: char): (r: string)
    ensures |r| == if |s| >= width then |s| else width
    ensures r[|r| - |s|..] == s
    ensures forall k :: 0 <= k < |r| - |s| ==> r[k] == c
  {
    if |s| >= width then s else seq(width - |s|, _ => c) + s
  }

  /** `String(n).padStart(2, '0')`. */
  function TwoDigits(n: int): string {
    PadStart(IntToString(n), 2, '0')
  }

  /** A number from 0 to 99 is written as exactly two digits, and `parseInt` reads it back. */
  lemma TwoDigitsRoundTrip(n: int)
    requires 0 <= n < 100
    ensures |TwoDigits(n)| == 2 && AllDigits(TwoDigits(n))
    ensures ParseInt(TwoDigits(n)) == Some(n)
  {
    if n < 10 {
      assert TwoDigits(n) == ['0', DigitChar(n)] by {
        assert IntToString(n) == [DigitChar(n)];
      }
      PaddedDigitRoundTrip(n);
    } else {
      assert |NatToString(n)| == 2 by {
        assert NatToString(n) == NatToString(n / 10) + [DigitChar(n % 10)];
      }
      assert TwoDigits(n) == IntToString(n);
      ParseIntToString(n);
    }
  }

  lemma PaddedDigitRoundTrip(d: int)
    requires 0 <= d < 10
    ensures ParseInt(['0', DigitChar(d)]) == Some(d)
  {
    var s := ['0', DigitChar(d)];
    TrimStartUnchanged(s);
    assert SignAndBody(s) == (false, s);
    assert DigitPrefix(s) == s by {
      DigitPrefixOfDigits(s, []);
      assert s + [] == s;
    }
    assert s[..1] == ['0'] && s[1] == DigitChar(d);
    assert DigitsValue(['0']) == 0;
    assert DigitValue(DigitChar(d)) == d;
    assert DigitsValue(s) == d;
  }

  /** The numeral of a natural number holds no character other than digits. */
  lemma NumeralFree(n: int, sep: char)
    requires n >= 0 && !IsDigit(sep)
    ensures Free(IntToString(n), sep)
  {
  }

  /** Two padded digits hold no separator. */
  lemma TwoDigitsFree(month: int, sep: char)
    requires 0 <= month < 100 && !IsDigit(sep)
    ensures Free(TwoDigits(month), sep)
  {
    TwoDigitsRoundTrip(month);
    assert AllDigits(TwoDigits(month));
  }

  /** `x.toFixed(2)` for numbers below 10^21: the nearest multiple of 1/100 (ties away from
      zero), with a leading `-` for negative `x`. */
  function ToFixed2(x: real): (r: string)
    ensures |r| >= 4
    ensures r[0] == '-' <==> x < 0.0
    decreases if x < 0.0 then 1 else 0
  {
    if x < 0.0 then "-" + ToFixed2(-x)
    else
      var n := (x * 100.0 + 0.5).Floor;
      assert n >= 0;
      NatToString(n / 100) + "." + PadStart(NatToString(n % 100), 2, '0')
  }

  // ---------------------------------------------------------------------------------------
  // The default order of Array.prototype.sort()

  /** `a <= b` in code-unit order, which is how `sort()` without a comparator orders the
      string forms of its elements. */
  predicate LexLe(a: string, b: string) {
    a == [] || (b != [] && (a[0] < b[0] || (a[0] == b[0] && LexLe(a[1..], b[1..]))))
  }

  lemma {:induction false} LexLeTotal(a: string, b: string)
    ensures LexLe(a, b) || LexLe(b, a)
  {
    if a != [] && b != [] && a[0] == b[0] {
      LexLeTotal(a[1..], b[1..]);
    }
  }

  lemma {:induction false} LexLeAntisymmetric(a: string, b: string)
    requires LexLe(a, b) && LexLe(b, a)
    ensures a == b
  {
    if a != [] {
      LexLeAntisymmetric(a[1..], b[1..]);
    }
  }

  lemma {:induction false} LexLeTransitive(a: string, b: string, c: string)
    requires LexLe(a, b) && LexLe(b, c)
    ensures LexLe(a, c)
  {
    if a != [] && a[0] == b[0] && b[0] == c[0] {
      LexLeTransitive(a[1..], b[1..], c[1..]);
    }
  }

  /** Appending one character to two strings of the same length compares them on the
      common part first and on the last characters only when the parts are equal. */
  lemma {:induction false} LexLeAppend(a: string, b: string, x: char, y: char)
    requires |a| == |b|
    ensures LexLe(a + [x], b + [y]) <==> (a == b && x <= y) || (a != b && LexLe(a, b))
  {
    if a != [] {
      assert (a + [x])[1..] == a[1..] + [x];
      assert (b + [y])[1..] == b[1..] + [y];
      LexLeAppend(a[1..], b[1..], x, y);
      if a[0] == b[0] && a[1..] == b[1..] {
        assert a == b;
      }
    }
  }

  lemma {:induction false} NatToStringShort(n: nat)
    ensures |NatToString(n)| == 1 <==> n < 10
  {
    if n >= 10 {
      assert |NatToString(n)| == |NatToString(n / 10)| + 1;
    }
  }

  /** Numerals of the same length compare as text exactly as their numbers compare. */
  lemma {:induction false} TextOrderOfEqualLength(a: nat, b: nat)
    requires |NatToString(a)| == |NatToString(b)|
    ensures LexLe(NatToString(a), NatToString(b)) <==> a <= b
    decreases a
  {
    NatToStringShort(a);
    NatToStringShort(b);
    if a >= 10 {
      TextOrderOfEqualLength(a / 10, b / 10);
      LexLeAppend(NatToString(a / 10), NatToString(b / 10), DigitChar(a % 10), DigitChar(b % 10));
      if NatToString(a / 10) == NatToString(b / 10) {
        NatToStringInjective(a / 10, b / 10);
      }
    }
  }

  lemma FourDigitNumerals(n: nat)
    requires 1000 <= n <= 9999
    ensures |NatToString(n)| == 4
  {
    assert |NatToString(n / 1000)| == 1;
    assert |NatToString(n / 100)| == 2 by {
      assert NatToString(n / 100) == NatToString(n / 100 / 10) + [DigitChar(n / 100 % 10)];
      assert n / 100 / 10 == n / 1000;
    }
    assert |NatToString(n / 10)| == 3 by {
      assert NatToString(n / 10) == NatToString(n / 10 / 10) + [DigitChar(n / 10 % 10)];
      assert n / 10 / 10 == n / 100;
    }
  }

  /** `a` sorts no later than `b` under `sort()` without a comparator. */
  predicate TextLe(a: int, b: int) {
    LexLe(IntToString(a), IntToString(b))
  }

  predicate SortedAsText(xs: seq<int>) {
    forall i, j :: 0 <= i < j < |xs| ==> TextLe(xs[i], xs[j])
  }

  /** For four-digit numbers the text order is the numeric order. */
  lemma FourDigitTextOrder(a: int, b: int)
    requires 1000 <= a <= 9999 && 1000 <= b <= 9999
    ensures TextLe(a, b) <==> a <= b
  {
    FourDigitNumerals(a);
    FourDigitNumerals(b);
    TextOrderOfEqualLength(a, b);
  }

  function InsertAsText(x: int, sorted: seq<int>): (r: seq<int>)
    requires SortedAsText(sorted)
    ensures multiset(r) == multiset(sorted) + multiset{x}
    ensures SortedAsText(r)
  {
    if sorted == [] then [x]
    else if TextLe(x, sorted[0]) then
      InsertFirstSorted(x, sorted);
      [x] + sorted
    else
      var rest := InsertAsText(x, sorted[1..]);
      InsertLaterSorted(x, sorted, rest);
      assert sorted == [sorted[0]] + sorted[1..];
      [sorted[0]] + rest
  }

  lemma InsertFirstSorted(x: int, sorted: seq<int>)
    requires SortedAsText(sorted) && sorted != [] && TextLe(x, sorted[0])
    ensures SortedAsText([x] + sorted)
  {
    forall j | 0 <= j < |sorted| ensures TextLe(x, sorted[j]) {
      if j > 0 {
        LexLeTransitive(IntToString(x), IntToString(sorted[0]), IntToString(sorted[j]));
      }
    }
  }

  lemma InsertLaterSorted(x: int, sorted: seq<int>, rest: seq<int>)
    requires SortedAsText(sorted) && sorted != [] && !TextLe(x, sorted[0])
    requires multiset(rest) == multiset(sorted[1..]) + multiset{x} && SortedAsText(rest)
    ensures SortedAsText([sorted[0]] + rest)
  {
    LexLeTotal(IntToString(x), IntToString(sorted[0]));
    forall j | 0 <= j < |rest| ensures TextLe(sorted[0], rest[j]) {
      assert rest[j] in multiset(rest);
      if rest[j] != x {
        assert rest[j] in multiset(sorted[1..]);
        var k :| 0 <= k < |sorted[1..]| && sorted[1..][k] == rest[j];
        assert sorted[k + 1] == rest[j];
      }
    }
  }

  /** `xs.sort()` on numbers: the elements rearranged into the order of their decimal text. */
  function SortAsText(xs: seq<int>): (r: seq<int>)
    ensures multiset(r) == multiset(xs)
    ensures SortedAsText(r)
  {
    if xs == [] then []
    else
      assert xs == [xs[0]] + xs[1..];
      InsertAsText(xs[0], SortAsText(xs[1..]))
  }

  /** The default sort is not numeric once the numbers differ in length: 1000 comes before 999. */
  lemma TextSortIsNotNumeric()
    ensures SortAsText([999, 1000]) == [1000, 999]
  {
    assert !TextLe(999, 1000) by {
      assert IntToString(999)[0] == '9' by {
        assert NatToString(999) == NatToString(99) + ['9'];
        assert NatToString(99) == NatToString(9) + ['9'];
      }
      assert IntToString(1000)[0] == '1' by {
        assert NatToString(1000) == NatToString(100) + ['0'];
        assert NatToString(100) == NatToString(10) + ['0'];
        assert NatToString(10) == NatToString(1) + ['0'];
      }
    }
    assert SortAsText([1000]) == [1000] by {
      assert [1000][1..] == [];
    }
    assert [999, 1000][1..] == [1000];
    assert SortAsText([999, 1000]) == InsertAsText(999, [1000]);
    assert InsertAsText(999, [1000]) == [1000] + InsertAsText(999, []);
  }
}
