// Decimal text of numbers: what `formatValue` prints, and how the printed text is read back.
// Rounding is exact over rationals; a finite float64 is a sign and a magnitude, so that
// negative zero is kept apart from zero as it is in Go.
module Decimal {
  import opened Wrappers
  import Text

  datatype Float = Finite(neg: bool, mag: real) | Infinite(neg: bool) | NaN
  {
    predicate Valid() {
      Finite? ==> mag >= 0.0
    }

    function Value(): real
      requires Finite?
    {
      if neg then -mag else mag
    }
  }

  /** Go's `a >= b` on float64. */
  predicate AtLeast(a: Float, b: Float) {
    match (a, b)
    case (NaN, _) => false
    case (_, NaN) => false
    case (Infinite(n), Infinite(m)) => !n || m
    case (Infinite(n), Finite(_, _)) => !n
    case (Finite(_, _), Infinite(m)) => m
    case (Finite(_, _), Finite(_, _)) => a.Value() >= b.Value()
  }

  // ----- rounding -----

  /** Round to the nearest integer, exact halves to the even one. */
  function RoundHalfEven(x: real): (n: int)
    ensures x - 0.5 <= n as real <= x + 0.5
    ensures n as real == x - 0.5 || n as real == x + 0.5 ==> n % 2 == 0
    ensures x >= 0.0 ==> n >= 0
  {
    var f := x.Floor;
    var rest := x - f as real;
    if rest < 0.5 || (rest == 0.5 && f % 2 == 0) then f else f + 1
  }

  function Hundredths(mag: real): nat
    requires mag >= 0.0
  {
    RoundHalfEven(mag * 100.0)
  }

  function OfHundredths(neg: bool, h: nat): Float {
    Finite(neg, h as real / 100.0)
  }

  /** The value a printed text stands for: rounded to two decimals, sign kept. */
  function Rounded(f: Float): Float
    requires f.Finite? && f.Valid()
  {
    OfHundredths(f.neg, Hundredths(f.mag))
  }

  // ----- digits -----

  predicate IsDigit(c: char) {
    '0' <= c <= '9'
  }

  predicate AllDigits(s: string) {
    forall i | 0 <= i < |s| :: IsDigit(s[i])
  }

  function Digit(n: nat): char
    requires n < 10
  {
    ('0' as int + n) as char
  }

  function DigitsOf(n: nat): (s: string)
    ensures |s| > 0 && AllDigits(s)
    ensures |s| > 1 ==> s[0] != '0'
  {
    if n < 10 then [Digit(n)] else DigitsOf(n / 10) + [Digit(n % 10)]
  }

  function Number(s: string): nat
    requires AllDigits(s)
  {
    if s == "" then 0 else Number(s[..|s| - 1]) * 10 + (s[|s| - 1] as int - '0' as int)
  }

  lemma {:induction false} NumberOfDigits(n: nat)
    ensures Number(DigitsOf(n)) == n
  {
    if n >= 10 {
      NumberOfDigits(n / 10);
      assert DigitsOf(n)[..|DigitsOf(n)| - 1] == DigitsOf(n / 10);
    } else {
      assert DigitsOf(n)[..0] == "";
    }
  }

  // ----- printing -----

  function TwoDigits(n: nat): string
    requires n < 100
  {
    [Digit(n / 10), Digit(n % 10)]
  }

  function Sign(neg: bool): string {
    if neg then "-" else ""
  }

  /** `fmt.Sprintf("%.2f", v)`. */
  function Fixed2(f: Float): string
    requires f.Valid()
  {
    match f
    case NaN => "NaN"
    case Infinite(neg) => if neg then "-Inf" else "+Inf"
    case Finite(neg, mag) =>
      var h := Hundredths(mag);
      Sign(neg) + DigitsOf(h / 100) + "." + TwoDigits(h % 100)
  }

  /** `strings.TrimRight(s, string(c))`. */
  function TrimRight(s: string, c: char): string {
    if s != "" && s[|s| - 1] == c then TrimRight(s[..|s| - 1], c) else s
  }

  function FormatValue(f: Float): string
    requires f.Valid()
  {
    TrimRight(TrimRight(Fixed2(f), '0'), '.')
  }

  // ----- reading -----

  /** `x` moved `places` decimal places to the right. */
  function Shift(x: real, places: nat): (r: real)
    requires x >= 0.0
    ensures r >= 0.0
  {
    if places == 0 then x else Shift(x, places - 1) / 10.0
  }

  /** Digits, optionally with one point, at least one digit in all. */
  function ParseUnsigned(s: string): (r: Option<real>)
    ensures r.Some? ==> r.value >= 0.0
  {
    var dot := Text.Find(s, '.');
    var whole := s[..dot];
    var part := if dot < |s| then s[dot + 1..] else "";
    if AllDigits(whole) && AllDigits(part) && |whole| + |part| > 0 then
      Some(Number(whole) as real + Shift(Number(part) as real, |part|))
    else
      None
  }

  /** `strconv.ParseFloat` on plain decimal texts and on the texts `%.2f` gives for NaN and infinities. */
  function ParseFloat(s: string): (r: Option<Float>)
    ensures r.Some? ==> r.value.Valid()
  {
    var signed := s != "" && (s[0] == '-' || s[0] == '+');
    var mag := ParseUnsigned(if signed then s[1..] else s);
    if mag.Some? then Some(Finite(signed && s[0] == '-', mag.value))
    else if s == "NaN" then Some(NaN)
    else if s == "+Inf" || s == "-Inf" then Some(Infinite(s[0] == '-'))
    else None
  }

  // ----- the two undo each other -----

  lemma TrimRightStop(s: string, x: char, c: char)
    requires x != c
    ensures TrimRight(s + [x], c) == s + [x]
  {
    assert (s + [x])[|s + [x]| - 1] == x;
  }

  lemma TrimRightStep(s: string, c: char)
    ensures TrimRight(s + [c], c) == TrimRight(s, c)
  {
    assert (s + [c])[..|s + [c]| - 1] == s;
  }

  /** The printed fraction: nothing, one digit, or two digits that do not end in 0. */
  function Fraction(n: nat): (s: string)
    requires n < 100
    ensures s == "" <==> n == 0
    ensures s != "" ==> s[|s| - 1] != '0'
  {
    if n == 0 then ""
    else if n % 10 == 0 then ['.', Digit(n / 10)]
    else ['.', Digit(n / 10), Digit(n % 10)]
  }

  /** A number of hundredths in its shortest decimal form. */
  function PlainText(h: nat): (s: string)
    ensures s != "" && IsDigit(s[0])
  {
    DigitsOf(h / 100) + Fraction(h % 100)
  }

  lemma TrimTwoDigits(whole: string, a: char, b: char)
    requires whole != "" && IsDigit(whole[|whole| - 1]) && IsDigit(a) && IsDigit(b)
    ensures TrimRight(TrimRight(whole + ['.'] + [a] + [b], '0'), '.')
         == if b != '0' then whole + ['.'] + [a] + [b] else if a != '0' then whole + ['.'] + [a] else whole
  {
    var point := whole + ['.'];
    if b != '0' {
      TrimRightStop(point + [a], b, '0');
      TrimRightStop(point + [a], b, '.');
    } else {
      TrimRightStep(point + [a], '0');
      if a != '0' {
        TrimRightStop(point, a, '0');
        TrimRightStop(point, a, '.');
      } else {
        TrimRightStep(point, '0');
        TrimRightStop(whole, '.', '0');
        TrimRightStep(whole, '.');
      }
    }
  }

  /** Trimming drops trailing zeros of the fraction and a bare point, never a digit of the integer part. */
  lemma TrimKeepsInteger(f: Float)
    requires f.Finite? && f.Valid()
    ensures FormatValue(f) == Sign(f.neg) + PlainText(Hundredths(f.mag))
  {
    var n := Hundredths(f.mag) % 100;
    var whole := Sign(f.neg) + DigitsOf(Hundredths(f.mag) / 100);
    var a, b := Digit(n / 10), Digit(n % 10);
    TrimTwoDigits(whole, a, b);
    assert Fixed2(f) == whole + ['.'] + [a] + [b];
    assert Sign(f.neg) + PlainText(Hundredths(f.mag)) == whole + Fraction(n);
    FractionIs(n);
  }

  lemma FractionIs(n: nat)
    requires n < 100
    ensures var a, b := Digit(n / 10), Digit(n % 10);
            && (Fraction(n) == if b != '0' then ['.'] + [a] + [b] else if a != '0' then ['.'] + [a] else "")
            && (b == '0' <==> n % 10 == 0) && (a == '0' <==> n / 10 == 0)
  {
  }

  /** NaN and the infinities are printed by name, and read back. */
  lemma NamesReadBack(f: Float)
    requires !f.Finite?
    ensures ParseFloat(FormatValue(f)) == Some(f)
  {
    var s := Fixed2(f);
    var c := s[|s| - 1];
    assert c == 'f' || c == 'N';
    assert TrimRight(s, '0') == s && TrimRight(s, '.') == s;
    var bare := if f.NaN? then s else s[1..];
    assert !IsDigit(bare[0]);
    assert bare == "NaN" || bare == "Inf";
    NoNumber(bare);
  }

  lemma NoNumber(s: string)
    requires |s| == 3 && forall i | 0 <= i < 3 :: !IsDigit(s[i]) && s[i] != '.'
    ensures ParseUnsigned(s) == None
  {
    Text.FindNone(s, '.');
    assert s[..3] == s;
  }

  lemma {:induction false} FindAfterDigits(whole: string, rest: string)
    requires AllDigits(whole)
    requires rest == "" || rest[0] == '.'
    ensures Text.Find(whole + rest, '.') == |whole|
  {
    if whole == "" {
      assert whole + rest == rest;
    } else {
      FindAfterDigits(whole[1..], rest);
      assert (whole + rest)[1..] == whole[1..] + rest;
    }
  }

  lemma FractionNumber(n: nat)
    requires n < 100
    ensures var d := if n == 0 then "" else Fraction(n)[1..];
            AllDigits(d) && Shift(Number(d) as real, |d|) == n as real / 100.0
  {
    if n != 0 {
      var d := Fraction(n)[1..];
      if n % 10 == 0 {
        assert d == [Digit(n / 10)] && d[..0] == "";
        assert Number(d) == n / 10;
        assert Shift(Number(d) as real, 1) == Shift(Number(d) as real, 0) / 10.0;
      } else {
        assert d == [Digit(n / 10), Digit(n % 10)];
        assert d[..1] == [Digit(n / 10)] && d[..1][..0] == "";
        assert Number(d[..1]) == n / 10;
        assert Number(d) == n / 10 * 10 + n % 10;
        assert Shift(Number(d) as real, 2) == Shift(Number(d) as real, 1) / 10.0;
        assert Shift(Number(d) as real, 1) == Shift(Number(d) as real, 0) / 10.0;
      }
    }
  }

  lemma ParseUnsignedText(h: nat)
    ensures ParseUnsigned(PlainText(h)) == Some(h as real / 100.0)
  {
    var whole, frac := DigitsOf(h / 100), Fraction(h % 100);
    var d := if frac == "" then "" else frac[1..];
    FindAfterDigits(whole, frac);
    NumberOfDigits(h / 100);
    FractionNumber(h % 100);
    var s := whole + frac;
    assert s[..|whole|] == whole;
    assert d == if |whole| < |s| then s[|whole| + 1..] else "";
    assert h as real / 100.0 == (h / 100) as real + (h % 100) as real / 100.0;
  }

  lemma ParseSigned(neg: bool, text: string, mag: real)
    requires text != "" && IsDigit(text[0]) && ParseUnsigned(text) == Some(mag)
    ensures ParseFloat(Sign(neg) + text) == Some(Finite(neg, mag))
  {
    var s := Sign(neg) + text;
    if neg {
      assert s[0] == '-' && s[1..] == text;
    } else {
      assert s == text;
    }
  }

  lemma ParsePlain(neg: bool, h: nat)
    ensures ParseFloat(Sign(neg) + PlainText(h)) == Some(OfHundredths(neg, h))
  {
    ParseUnsignedText(h);
    ParseSigned(neg, PlainText(h), h as real / 100.0);
  }

  /** Reading a printed value gives the value rounded to two decimals, with its sign. */
  lemma ParseOfFormat(f: Float)
    requires f.Finite? && f.Valid()
    ensures ParseFloat(FormatValue(f)) == Some(Rounded(f))
  {
    TrimKeepsInteger(f);
    ParsePlain(f.neg, Hundredths(f.mag));
  }

  lemma HundredthsIsStable(x: real)
    requires x >= 0.0
    ensures Hundredths(Hundredths(x) as real / 100.0) == Hundredths(x)
  {
    var h := Hundredths(x);
    assert h as real / 100.0 * 100.0 == h as real;
  }

  /** A number of hundredths is a fixed point of rounding. */
  lemma RoundedIsStable(f: Float)
    requires f.Finite? && f.Valid()
    ensures Rounded(f).Valid() && Rounded(Rounded(f)) == Rounded(f)
  {
    HundredthsIsStable(f.mag);
  }

  /** Printing, reading and printing again gives the same text. */
  lemma FormatIsStable(f: Float)
    requires f.Finite? && f.Valid()
    ensures Rounded(f).Valid() && FormatValue(Rounded(f)) == FormatValue(f)
  {
    RoundedIsStable(f);
    TrimKeepsInteger(f);
    TrimKeepsInteger(Rounded(f));
    HundredthsIsStable(f.mag);
  }

  /** Two values print alike exactly when they round alike: the text loses nothing but the third decimal. */
  lemma FormatIsExact(f: Float, g: Float)
    requires f.Finite? && f.Valid() && g.Finite? && g.Valid()
    ensures FormatValue(f) == FormatValue(g) <==> Rounded(f) == Rounded(g)
  {
    ParseOfFormat(f);
    ParseOfFormat(g);
    FormatIsStable(f);
    FormatIsStable(g);
  }
}
