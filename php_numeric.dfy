/** PHP's numeric strings: the grammar is_numeric accepts and the (int)
    cast, which reads the longest numeric prefix of any string. */
module PhpNumeric {
  import opened Prelude

  /** The white space is_numeric accepts around a number. */
  predicate IsNumericSpace(c: char) {
    c == ' ' || c == '\t' || c == '\n' || c == '\r' || c == '\U{000B}' || c == '\U{000C}'
  }

  function SkipNumericSpaces(s: string, i: nat): (j: nat)
    requires i <= |s|
    ensures i <= j <= |s|
    ensures forall k :: i <= k < j ==> IsNumericSpace(s[k])
    ensures j < |s| ==> !IsNumericSpace(s[j])
    decreases |s| - i
  {
    if i < |s| && IsNumericSpace(s[i]) then SkipNumericSpaces(s, i + 1) else i
  }

  function DigitsEnd(s: string, i: nat): (j: nat)
    requires i <= |s|
    ensures i <= j <= |s|
    ensures forall k :: i <= k < j ==> IsDigit(s[k])
    ensures j < |s| ==> !IsDigit(s[j])
    decreases |s| - i
  {
    if i < |s| && IsDigit(s[i]) then DigitsEnd(s, i + 1) else i
  }

  /** The value of a run of decimal digits. */
  function DigitsValue(s: string): nat
    requires forall k :: 0 <= k < |s| ==> IsDigit(s[k])
  {
    if s == [] then 0
    else
      assert IsDigit(s[|s| - 1]);
      DigitsValue(s[..|s| - 1]) * 10 + (s[|s| - 1] as int - '0' as int)
  }

  /** The value of the decimal digits s[i..j]. */
  function DigitsAt(s: string, i: nat, j: nat): nat
    requires i <= j <= |s|
    requires forall k :: i <= k < j ==> IsDigit(s[k])
    decreases j - i
  {
    if j == i then 0
    else
      assert IsDigit(s[j - 1]);
      DigitsAt(s, i, j - 1) * 10 + (s[j - 1] as int - '0' as int)
  }

  /** Digits at the same positions of two strings have the same value. */
  lemma {:induction false} DigitsAtAgree(s: string, t: string, i: nat, j: nat)
    requires i <= j <= |s| && j <= |t|
    requires forall k :: i <= k < j ==> IsDigit(s[k]) && t[k] == s[k]
    ensures DigitsAt(s, i, j) == DigitsAt(t, i, j)
    decreases j - i
  {
    if j > i {
      DigitsAtAgree(s, t, i, j - 1);
    }
  }

  /** Read at its positions, a whole run of digits has its value. */
  lemma {:induction false} DigitsAtWhole(s: string)
    requires forall k :: 0 <= k < |s| ==> IsDigit(s[k])
    ensures DigitsAt(s, 0, |s|) == DigitsValue(s)
    decreases |s|
  {
    if s != [] {
      var init := s[..|s| - 1];
      DigitsAtWhole(init);
      DigitsAtAgree(s, init, 0, |s| - 1);
    }
  }

  function Pow10(n: nat): (r: nat)
    ensures r >= 1
  {
    if n == 0 then 1 else 10 * Pow10(n - 1)
  }

  /** A numeric string: sign, all digits (integer then fraction), how many of
      them are fraction digits, and the decimal exponent. */
  datatype Numeric = Numeric(negative: bool, mantissa: nat, fractionDigits: nat, exponent: int)

  /** The longest numeric prefix after leading white space: an optional
      sign, digits with an optional '.' and fraction (at least one digit in
      all) and an optional exponent; gives the number and where it ends. */
  function NumericPrefix(s: string): (r: Option<(Numeric, nat)>)
    ensures r.Some? ==> r.value.1 <= |s|
  {
    var a := SkipNumericSpaces(s, 0);
    var b := if a < |s| && IsSign(s[a]) then a + 1 else a;
    NumberAt(s, a, b, MantissaPart(s, b))
  }

  /** The number whose sign ends at b and whose mantissa is m, with the
      exponent after it; none without a digit. */
  function NumberAt(s: string, a: nat, b: nat, m: (nat, nat, nat)): (r: Option<(Numeric, nat)>)
    requires b <= m.0 <= m.1 <= m.2 <= |s|
    requires b == a || (b == a + 1 && IsSign(s[a]))
    requires forall k :: b <= k < m.0 ==> IsDigit(s[k])
    requires forall k :: m.1 <= k < m.2 ==> IsDigit(s[k])
    ensures r.Some? ==> r.value.1 <= |s|
  {
    if m.0 == b && m.2 == m.1 then None
    else
      var x := ExponentPart(s, m.2);
      Some((Numeric(b == a + 1 && s[a] == '-', ScaledDigits(s, b, m.0, m.1, m.2), m.2 - m.1, x.1), x.0))
  }

  /** is_numeric's grammar: a numeric prefix followed by nothing but
      white space. */
  function ParseNumeric(s: string): (r: Option<Numeric>)
    ensures r.Some? <==> NumericPrefix(s).Some? && SkipNumericSpaces(s, NumericPrefix(s).value.1) == |s|
    ensures r.Some? ==> r.value == NumericPrefix(s).value.0
  {
    match NumericPrefix(s)
    case None => None
    case Some(p) => if SkipNumericSpaces(s, p.1) == |s| then Some(p.0) else None
  }

  /** The value of the integer digits s[b..c] followed by the fraction
      digits s[d..e]. */
  function ScaledDigits(s: string, b: nat, c: nat, d: nat, e: nat): nat
    requires b <= c <= d <= e <= |s|
    requires forall k :: b <= k < c ==> IsDigit(s[k])
    requires forall k :: d <= k < e ==> IsDigit(s[k])
  {
    DigitsAt(s, b, c) * Pow10(e - d) + DigitsAt(s, d, e)
  }

  predicate IsSign(c: char) {
    c == '+' || c == '-'
  }

  predicate IsExponentMark(c: char) {
    c == 'e' || c == 'E'
  }

  /** The digits from b, an optional '.', and the fraction digits after it:
      the integer digits are s[b..c], the fraction digits s[d..e]. */
  function MantissaPart(s: string, b: nat): (r: (nat, nat, nat))
    requires b <= |s|
    ensures b <= r.0 <= r.1 <= r.2 <= |s|
    ensures (r.1 == r.0 && r.2 == r.0) || (r.1 == r.0 + 1 && s[r.0] == '.')
    ensures forall k :: b <= k < r.0 ==> IsDigit(s[k])
    ensures forall k :: r.1 <= k < r.2 ==> IsDigit(s[k])
  {
    var c := DigitsEnd(s, b);
    if c < |s| && s[c] == '.' then (c, c + 1, DigitsEnd(s, c + 1)) else (c, c, c)
  }

  /** Where the exponent's digits would start after a mark at e: past the
      mark and past a sign right after it. */
  function ExponentDigitsStart(s: string, e: nat): (f: nat)
    requires e < |s|
    ensures f == e + 1 || (f == e + 2 && e + 1 < |s| && IsSign(s[e + 1]))
    ensures f <= |s|
  {
    if e + 1 < |s| && IsSign(s[e + 1]) then e + 2 else e + 1
  }

  /** The value of an exponent 'e' or 'E' at e with its digits s[f..g]. */
  function ExponentValue(s: string, e: nat, f: nat, g: nat): int
    requires e < f <= g <= |s|
    requires forall k :: f <= k < g ==> IsDigit(s[k])
  {
    if f == e + 2 && s[e + 1] == '-' then -(DigitsAt(s, f, g) as int) else DigitsAt(s, f, g)
  }

  /** The optional exponent starting at e: 'e' or 'E', an optional sign and
      at least one digit; without digits there is no exponent. Gives the
      position after it and its value. */
  function ExponentPart(s: string, e: nat): (r: (nat, int))
    requires e <= |s|
    ensures e <= r.0 <= |s|
    ensures r.0 == e ==> r.1 == 0
    ensures r.0 > e ==> IsExponentMark(s[e]) && e < ExponentDigitsStart(s, e) < r.0
    ensures r.0 > e ==> forall k :: ExponentDigitsStart(s, e) <= k < r.0 ==> IsDigit(s[k])
    ensures r.0 > e ==> r.1 == ExponentValue(s, e, ExponentDigitsStart(s, e), r.0)
  {
    if e < |s| && IsExponentMark(s[e]) && DigitsEnd(s, ExponentDigitsStart(s, e)) > ExponentDigitsStart(s, e) then
      var f := ExponentDigitsStart(s, e);
      var g := DigitsEnd(s, f);
      (g, ExponentValue(s, e, f, g))
    else (e, 0)
  }

  predicate IsNumeric(s: string) {
    ParseNumeric(s).Some?
  }

  // ---------------------------------------------------------------------
  // The grammar, by the positions of its parts

  /** A number at the start of s, given by where its parts begin and end:
      white space s[..a], an optional sign s[a..b], the integer digits
      s[b..c], optionally a '.' at c followed by the fraction digits s[d..e]
      (at least one digit in the integer and fraction parts together), and
      optionally an exponent s[e..g]: 'e' or 'E', an optional sign and at
      least one digit s[f..g]. */
  predicate PrefixLayout(s: string, a: nat, b: nat, c: nat, d: nat, e: nat, f: nat, g: nat) {
    a <= b <= c <= d <= e <= f <= g <= |s|
    && (forall k :: 0 <= k < a ==> IsNumericSpace(s[k]))
    && (b == a || (b == a + 1 && IsSign(s[a])))
    && (forall k :: b <= k < c ==> IsDigit(s[k]))
    && ((d == c && e == c) || (d == c + 1 && s[c] == '.'))
    && (forall k :: d <= k < e ==> IsDigit(s[k]))
    && (b < c || d < e)
    && ((f == e && g == e)
        || (e < f < g && IsExponentMark(s[e]) && (f == e + 1 || (f == e + 2 && IsSign(s[e + 1])))))
    && (forall k :: f <= k < g ==> IsDigit(s[k]))
  }

  /** is_numeric's grammar: such a number followed by nothing but white
      space. */
  predicate Layout(s: string, a: nat, b: nat, c: nat, d: nat, e: nat, f: nat, g: nat) {
    PrefixLayout(s, a, b, c, d, e, f, g) && forall k :: g <= k < |s| ==> IsNumericSpace(s[k])
  }

  /** The number a layout spells: its sign, its digits, how many of them
      follow the '.', and its exponent (0 when it has none). */
  function LayoutValue(s: string, a: nat, b: nat, c: nat, d: nat, e: nat, f: nat, g: nat): Numeric
    requires PrefixLayout(s, a, b, c, d, e, f, g)
  {
    Numeric(b == a + 1 && s[a] == '-', ScaledDigits(s, b, c, d, e), e - d,
            if g == e then 0 else ExponentValue(s, e, f, g))
  }

  /** The parser's positions form a layout of the prefix it reads, and it
      reads the number that layout spells. */
  lemma PrefixHasLayout(s: string) returns (a: nat, b: nat, c: nat, d: nat, e: nat, f: nat, g: nat)
    requires NumericPrefix(s).Some?
    ensures PrefixLayout(s, a, b, c, d, e, f, g)
    ensures g == NumericPrefix(s).value.1
    ensures LayoutValue(s, a, b, c, d, e, f, g) == NumericPrefix(s).value.0
  {
    a := SkipNumericSpaces(s, 0);
    b := if a < |s| && IsSign(s[a]) then a + 1 else a;
    var m := MantissaPart(s, b);
    c, d, e := m.0, m.1, m.2;
    var x := ExponentPart(s, e);
    g := x.0;
    f := if g == e then e else ExponentDigitsStart(s, e);
    PrefixHasDigit(s, a, b, c, d, e);
    PartsLayout(s, a, b, c, d, e, f, g);
    ExponentShape(s, e, f, g);
    PrefixOfParts(s, a, b, c, d, e, g, x.1);
    assert LayoutValue(s, a, b, c, d, e, f, g)
           == Numeric(b == a + 1 && s[a] == '-', ScaledDigits(s, b, c, d, e), e - d, x.1);
  }

  /** The parts the parser finds form a layout. */
  lemma PartsLayout(s: string, a: nat, b: nat, c: nat, d: nat, e: nat, f: nat, g: nat)
    requires a == SkipNumericSpaces(s, 0)
    requires b == if a < |s| && IsSign(s[a]) then a + 1 else a
    requires MantissaPart(s, b) == (c, d, e) && (b < c || d < e)
    requires g == ExponentPart(s, e).0
    requires f == if g == e then e else ExponentDigitsStart(s, e)
    ensures PrefixLayout(s, a, b, c, d, e, f, g)
  {
    ExponentShape(s, e, f, g);
  }

  /** A number the parser reads has a digit before or after the '.'. */
  lemma PrefixHasDigit(s: string, a: nat, b: nat, c: nat, d: nat, e: nat)
    requires NumericPrefix(s).Some?
    requires a == SkipNumericSpaces(s, 0)
    requires b == if a < |s| && IsSign(s[a]) then a + 1 else a
    requires MantissaPart(s, b) == (c, d, e)
    ensures b < c || d < e
  {
  }

  /** The exponent the parser finds at e, as a layout's exponent part. */
  lemma ExponentShape(s: string, e: nat, f: nat, g: nat)
    requires e <= |s| && g == ExponentPart(s, e).0
    requires f == if g == e then e else ExponentDigitsStart(s, e)
    ensures e <= f <= g <= |s|
    ensures (f == e && g == e)
            || (e < f < g && IsExponentMark(s[e]) && (f == e + 1 || (f == e + 2 && IsSign(s[e + 1]))))
    ensures forall k :: f <= k < g ==> IsDigit(s[k])
    ensures ExponentPart(s, e).1 == if g == e then 0 else ExponentValue(s, e, f, g)
  {
  }

  /** What follows a layout's mantissa is neither a digit nor a '.'. */
  lemma AfterMantissa(s: string, a: nat, b: nat, c: nat, d: nat, e: nat, f: nat, g: nat)
    requires Layout(s, a, b, c, d, e, f, g)
    ensures e < |s| ==> !IsDigit(s[e]) && s[e] != '.'
  {
    if e < |s| && g == e {
      assert IsNumericSpace(s[g]);
    }
  }

  /** The white space and the sign of a layout are where the parser finds
      them. */
  lemma SignOfLayout(s: string, a: nat, b: nat, c: nat, d: nat, e: nat, f: nat, g: nat)
    requires Layout(s, a, b, c, d, e, f, g)
    ensures a < |s| && SkipNumericSpaces(s, 0) == a
    ensures b == (if IsSign(s[a]) then a + 1 else a)
  {
    if b == a + 1 {
      assert !IsNumericSpace(s[a]);
    } else if b < c {
      assert IsDigit(s[b]);
    } else {
      assert s[c] == '.';
    }
  }

  /** The mantissa of a layout is the one the parser reads. */
  lemma MantissaOfLayout(s: string, a: nat, b: nat, c: nat, d: nat, e: nat, f: nat, g: nat)
    requires Layout(s, a, b, c, d, e, f, g)
    ensures MantissaPart(s, b) == (c, d, e)
  {
    AfterMantissa(s, a, b, c, d, e, f, g);
    assert DigitsEnd(s, b) == c;
    if d == c + 1 {
      assert DigitsEnd(s, d) == e;
    }
  }

  /** The exponent of a layout is the one the parser reads. */
  lemma ExponentOfLayout(s: string, a: nat, b: nat, c: nat, d: nat, e: nat, f: nat, g: nat)
    requires Layout(s, a, b, c, d, e, f, g)
    ensures ExponentPart(s, e) == (g, if g == e then 0 else ExponentValue(s, e, f, g))
  {
    if g == e {
      assert e < |s| ==> IsNumericSpace(s[e]);
    } else {
      assert ExponentDigitsStart(s, e) == f by {
        if f == e + 1 && e + 1 < |s| {
          assert IsDigit(s[e + 1]);
        }
      }
      assert g < |s| ==> IsNumericSpace(s[g]);
      assert DigitsEnd(s, f) == g;
    }
  }

  /** A layout of the whole string parses to the number it spells. */
  lemma LayoutParses(s: string, a: nat, b: nat, c: nat, d: nat, e: nat, f: nat, g: nat)
    requires Layout(s, a, b, c, d, e, f, g)
    ensures ParseNumeric(s) == Some(LayoutValue(s, a, b, c, d, e, f, g))
  {
    SignOfLayout(s, a, b, c, d, e, f, g);
    MantissaOfLayout(s, a, b, c, d, e, f, g);
    ExponentOfLayout(s, a, b, c, d, e, f, g);
    LayoutPrefix(s, a, b, c, d, e, f, g);
    assert SkipNumericSpaces(s, g) == |s|;
  }

  /** The parser reads a layout's number and stops where the layout ends. */
  lemma LayoutPrefix(s: string, a: nat, b: nat, c: nat, d: nat, e: nat, f: nat, g: nat)
    requires Layout(s, a, b, c, d, e, f, g)
    requires a < |s| && SkipNumericSpaces(s, 0) == a
    requires b == (if IsSign(s[a]) then a + 1 else a)
    requires MantissaPart(s, b) == (c, d, e)
    requires ExponentPart(s, e) == (g, if g == e then 0 else ExponentValue(s, e, f, g))
    ensures NumericPrefix(s) == Some((LayoutValue(s, a, b, c, d, e, f, g), g))
  {
    PrefixOfParts(s, a, b, c, d, e, g, if g == e then 0 else ExponentValue(s, e, f, g));
  }

  /** The parser's result from the parts it finds: white space up to a,
      the sign up to b, the mantissa (c, d, e) with at least one digit,
      and the exponent ending at g with value x. */
  lemma PrefixOfParts(s: string, a: nat, b: nat, c: nat, d: nat, e: nat, g: nat, x: int)
    requires SkipNumericSpaces(s, 0) == a
    requires b == (if a < |s| && IsSign(s[a]) then a + 1 else a)
    requires MantissaPart(s, b) == (c, d, e) && (b < c || d < e)
    requires ExponentPart(s, e) == (g, x)
    ensures NumericPrefix(s) == Some((Numeric(b == a + 1 && s[a] == '-', ScaledDigits(s, b, c, d, e), e - d, x), g))
  {
    assert NumericPrefix(s) == NumberAt(s, a, b, (c, d, e));
    NumberOfParts(s, a, b, c, d, e, g, x);
  }

  lemma NumberOfParts(s: string, a: nat, b: nat, c: nat, d: nat, e: nat, g: nat, x: int)
    requires b <= c <= d <= e <= |s|
    requires b == a || (b == a + 1 && IsSign(s[a]))
    requires forall k :: b <= k < c ==> IsDigit(s[k])
    requires forall k :: d <= k < e ==> IsDigit(s[k])
    requires b < c || d < e
    requires ExponentPart(s, e) == (g, x)
    ensures NumberAt(s, a, b, (c, d, e)) == Some((Numeric(b == a + 1 && s[a] == '-', ScaledDigits(s, b, c, d, e), e - d, x), g))
  {
  }

  /** is_numeric accepts exactly the strings that have a layout. */
  lemma IsNumericLayout(s: string)
    ensures IsNumeric(s) <==> exists a, b, c, d, e, f, g :: Layout(s, a, b, c, d, e, f, g)
  {
    forall a, b, c, d, e, f, g | Layout(s, a, b, c, d, e, f, g)
      ensures IsNumeric(s)
    {
      LayoutParses(s, a, b, c, d, e, f, g);
    }
    if IsNumeric(s) {
      var a, b, c, d, e, f, g := NumericHasLayout(s);
    }
  }

  /** The layout of a numeric string, as the parser finds it. */
  lemma NumericHasLayout(s: string) returns (a: nat, b: nat, c: nat, d: nat, e: nat, f: nat, g: nat)
    requires IsNumeric(s)
    ensures Layout(s, a, b, c, d, e, f, g)
  {
    a, b, c, d, e, f, g := PrefixHasLayout(s);
    assert SkipNumericSpaces(s, g) == |s|;
  }

  // ---------------------------------------------------------------------
  // The (int) cast

  /** (int) of a numeric string: the value truncated toward zero. */
  function NumericToInt(n: Numeric): int {
    var shift := n.exponent - n.fractionDigits;
    var magnitude := if shift >= 0 then n.mantissa * Pow10(shift) else n.mantissa / Pow10(-shift);
    if n.negative then -magnitude else magnitude
  }

  /** The integer of a number is its sign and the whole part of its
      magnitude: the mantissa scaled up by a non-negative shift, or the
      largest integer whose scaled value does not exceed the mantissa. */
  lemma NumericToIntTruncates(n: Numeric)
    ensures var shift := n.exponent - n.fractionDigits;
            var v := NumericToInt(n);
            var m := if v < 0 then -v else v;
            (n.negative ==> v <= 0) && (!n.negative ==> v >= 0)
            && (shift >= 0 ==> m == n.mantissa * Pow10(shift))
            && (shift < 0 ==> m * Pow10(-shift) <= n.mantissa < (m + 1) * Pow10(-shift))
  {
    if n.exponent - n.fractionDigits < 0 {
      ScaledDown(n);
    } else {
      ScaledUp(n);
    }
  }

  lemma ScaledUp(n: Numeric)
    requires n.exponent - n.fractionDigits >= 0
    ensures var q := n.mantissa * Pow10(n.exponent - n.fractionDigits);
            q >= 0 && NumericToInt(n) == if n.negative then -q else q
  {
    ProductNat(n.mantissa, Pow10(n.exponent - n.fractionDigits));
  }

  lemma ScaledDown(n: Numeric)
    requires n.exponent - n.fractionDigits < 0
    ensures var p := Pow10(n.fractionDigits - n.exponent);
            var q := n.mantissa / p;
            q >= 0 && q * p <= n.mantissa < (q + 1) * p
            && NumericToInt(n) == if n.negative then -q else q
  {
    WholePart(n.mantissa, Pow10(n.fractionDigits - n.exponent));
  }

  lemma ProductNat(x: nat, y: nat)
    ensures x * y >= 0
  {
  }

  /** The quotient is the whole part: q * p <= x < (q + 1) * p. */
  lemma WholePart(x: nat, p: nat)
    requires p >= 1
    ensures x / p >= 0 && (x / p) * p <= x < (x / p + 1) * p
  {
    var q := x / p;
    assert x == q * p + x % p;
    assert (q + 1) * p == q * p + p;
  }

  /** PHP's (int) cast of a string: the numeric prefix truncated toward
      zero, and 0 when the string does not start with a number. */
  function IntCast(s: string): int {
    match NumericPrefix(s)
    case None => 0
    case Some(p) => NumericToInt(p.0)
  }

  /** On a string with a layout, (int) is the number it spells, truncated. */
  lemma IntCastOfLayout(s: string, a: nat, b: nat, c: nat, d: nat, e: nat, f: nat, g: nat)
    requires Layout(s, a, b, c, d, e, f, g)
    ensures IntCast(s) == NumericToInt(LayoutValue(s, a, b, c, d, e, f, g))
  {
    LayoutParses(s, a, b, c, d, e, f, g);
  }

  /** A layout of a prefix of s is a layout of that prefix read alone, and
      spells the same number. */
  lemma PrefixLayoutCut(s: string, a: nat, b: nat, c: nat, d: nat, e: nat, f: nat, g: nat)
    requires PrefixLayout(s, a, b, c, d, e, f, g)
    ensures Layout(s[..g], a, b, c, d, e, f, g)
    ensures LayoutValue(s[..g], a, b, c, d, e, f, g) == LayoutValue(s, a, b, c, d, e, f, g)
  {
    var u := s[..g];
    DigitsAtAgree(s, u, b, c);
    DigitsAtAgree(s, u, d, e);
    DigitsAtAgree(s, u, f, g);
  }

  /** (int) reads the longest numeric prefix and ignores what follows: the
      prefix is itself numeric and casts to the same integer. */
  lemma IntCastReadsPrefix(s: string)
    requires NumericPrefix(s).Some?
    ensures var p := s[..NumericPrefix(s).value.1];
            IsNumeric(p) && IntCast(s) == IntCast(p)
  {
    var a, b, c, d, e, f, g := PrefixHasLayout(s);
    PrefixLayoutCut(s, a, b, c, d, e, f, g);
    LayoutParses(s[..g], a, b, c, d, e, f, g);
  }

  /** The string opens with a number: after the leading white space and an
      optional sign comes a digit, or a '.' followed by a digit. */
  predicate HasLeadingNumber(s: string) {
    var a := SkipNumericSpaces(s, 0);
    var b := if a < |s| && IsSign(s[a]) then a + 1 else a;
    (b < |s| && IsDigit(s[b])) || (b + 1 < |s| && s[b] == '.' && IsDigit(s[b + 1]))
  }

  /** A string that does not open with a number casts to 0, whatever
      follows ("abc12" included). */
  lemma IntCastWithoutLeadingNumber(s: string)
    requires !HasLeadingNumber(s)
    ensures IntCast(s) == 0
  {
    if NumericPrefix(s).Some? {
      var a, b, c, d, e, f, g := PrefixHasLayout(s);
      LayoutOpensNumber(s, a, b, c, d, e, f, g);
      assert false;
    }
  }

  /** Every layout of a prefix starts where the leading white space ends,
      so the string opens with a number. */
  lemma LayoutOpensNumber(s: string, a: nat, b: nat, c: nat, d: nat, e: nat, f: nat, g: nat)
    requires PrefixLayout(s, a, b, c, d, e, f, g)
    ensures HasLeadingNumber(s)
  {
    var j := SkipNumericSpaces(s, 0);
    assert a < |s| && !IsNumericSpace(s[a]) by {
      if b == a { if b < c { assert IsDigit(s[b]); } else { assert s[c] == '.'; } }
    }
    assert j == a;
    if b == c {
      assert d == c + 1 && s[c] == '.' && IsDigit(s[d]);
    } else {
      assert IsDigit(s[b]);
    }
  }

  /** "abc12" casts to 0: the digits come after text. */
  lemma IntCastLettersFirst(s: string)
    requires s == "abc12"
    ensures IntCast(s) == 0
  {
    assert SkipNumericSpaces(s, 0) == 0;
    IntCastWithoutLeadingNumber(s);
  }

  /** A string with no digit at all casts to 0. */
  lemma IntCastWithoutDigits(s: string)
    requires forall k :: 0 <= k < |s| ==> !IsDigit(s[k])
    ensures IntCast(s) == 0
  {
    var a := SkipNumericSpaces(s, 0);
    var b := if a < |s| && IsSign(s[a]) then a + 1 else a;
    assert !(b < |s| && IsDigit(s[b]));
    assert !(b + 1 < |s| && IsDigit(s[b + 1]));
    IntCastWithoutLeadingNumber(s);
  }

  /** A run of decimal digits casts to its value. */
  lemma IntCastOfDigits(s: string)
    requires s != [] && forall k :: 0 <= k < |s| ==> IsDigit(s[k])
    ensures IntCast(s) == DigitsValue(s)
  {
    assert Layout(s, 0, 0, |s|, |s|, |s|, |s|, |s|);
    IntCastOfLayout(s, 0, 0, |s|, |s|, |s|, |s|, |s|);
    DigitsAtWhole(s);
  }

  /** (int) drops the fraction of a number. */
  lemma IntCastTruncates(s: string)
    requires s == "2.9"
    ensures IntCast(s) == 2
  {
    PointLayout(s, false);
    IntCastOfLayout(s, 0, 0, 1, 2, 3, 3, 3);
    TwoPointNine(false);
  }

  /** Below zero too the fraction is dropped toward zero, not toward minus
      infinity. */
  lemma IntCastTruncatesNegative(s: string)
    requires s == "-2.9"
    ensures IntCast(s) == -2
  {
    PointLayout(s, true);
    IntCastOfLayout(s, 0, 1, 2, 3, 4, 4, 4);
    TwoPointNine(true);
  }

  /** "2.9" and "-2.9" spell 29 with one fraction digit. */
  lemma PointLayout(s: string, negative: bool)
    requires s == (if negative then "-2.9" else "2.9")
    ensures var o := if negative then 1 else 0;
            Layout(s, 0, o, o + 1, o + 2, o + 3, o + 3, o + 3)
            && LayoutValue(s, 0, o, o + 1, o + 2, o + 3, o + 3, o + 3) == Numeric(negative, 29, 1, 0)
  {
    var o := if negative then 1 else 0;
    assert s[o] == '2' && s[o + 2] == '9';
    assert DigitsAt(s, o, o) == 0 && DigitsAt(s, o + 2, o + 2) == 0;
    assert DigitsAt(s, o, o + 1) == 2 && DigitsAt(s, o + 2, o + 3) == 9;
  }

  lemma TwoPointNine(negative: bool)
    ensures NumericToInt(Numeric(negative, 29, 1, 0)) == if negative then -2 else 2
  {
    assert Pow10(1) == 10;
  }

  /** (int) applies an exponent. */
  lemma IntCastExponent(s: string)
    requires s == "1e2"
    ensures IntCast(s) == 100
  {
    ExponentLayout(s);
    IntCastOfLayout(s, 0, 0, 1, 1, 1, 2, 3);
    assert Pow10(2) == 100;
  }

  /** "1e2" spells 1 with exponent 2. */
  lemma ExponentLayout(s: string)
    requires s == "1e2"
    ensures Layout(s, 0, 0, 1, 1, 1, 2, 3) && LayoutValue(s, 0, 0, 1, 1, 1, 2, 3) == Numeric(false, 1, 0, 2)
  {
    assert DigitsAt(s, 0, 1) == 1 && DigitsAt(s, 2, 3) == 2;
  }

  /** (int) reads the numeric prefix and ignores the text after it. */
  lemma IntCastPrefix(s: string)
    requires s == "12abc"
    ensures IntCast(s) == 12
  {
    assert SkipNumericSpaces(s, 0) == 0;
    assert DigitsEnd(s, 2) == 2;
    assert DigitsEnd(s, 0) == 2;
    assert MantissaPart(s, 0) == (2, 2, 2);
    assert ExponentPart(s, 2) == (2, 0);
    assert NumericPrefix(s).value.1 == 2;
    IntCastReadsPrefix(s);
    var t := s[..2];
    assert t == "12";
    IntCastOfDigits(t);
  }
}
