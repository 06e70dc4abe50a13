// `humanizeBytes`: the loop that picks the unit, and what the printed amount means.
module ByteSizes {
  import opened Wrappers
  import opened Decimal

  newtype int64 = x: int | -0x8000_0000_0000_0000 <= x < 0x8000_0000_0000_0000

  const UNIT: int64 := 1024
  const LETTERS: string := "KMGTPE"

  function Pow1024(e: nat): (p: nat)
    ensures p > 0
  {
    if e == 0 then 1 else 1024 * Pow1024(e - 1)
  }

  lemma {:induction false} Pow1024Monotone(d: nat, e: nat)
    requires d < e
    ensures 1024 * Pow1024(d) <= Pow1024(e)
    decreases e
  {
    if d < e - 1 {
      Pow1024Monotone(d, e - 1);
    }
  }

  /** The exponent whose unit brackets `b`: 0 for bytes, 1 for KiB and so on. */
  ghost predicate InUnit(b: nat, e: nat) {
    (e > 0 ==> Pow1024(e) <= b) && b < Pow1024(e + 1)
  }

  function UnitOf(b: nat): (e: nat)
    ensures InUnit(b, e)
    ensures e == 0 <==> b < 1024
  {
    assert Pow1024(1) == 1024 * Pow1024(0);
    if b < 1024 then 0 else 1 + UnitOf(b / 1024)
  }

  lemma UnitsAreOrdered(b: nat, c: nat, d: nat, e: nat)
    requires b <= c && InUnit(b, d) && InUnit(c, e)
    ensures d <= e
  {
    if e + 1 < d {
      Pow1024Monotone(e + 1, d);
    }
  }

  // ----- multiplication and division -----

  lemma Scale(a: nat, b: nat, d: nat)
    requires a <= b
    ensures a * d <= b * d
  {
  }

  lemma Cancel(a: nat, b: nat, d: nat)
    requires a * d < b * d
    ensures a < b
  {
    if b <= a {
      Scale(b, a, d);
    }
  }

  lemma DivisionIsUnique(b: nat, d: nat, q: nat, r: nat)
    requires d > 0 && b == q * d + r && r < d
    ensures b / d == q && b % d == r
  {
    var p := b / d;
    assert b == p * d + b % d;
    assert p * d < (q + 1) * d;
    assert q * d < (p + 1) * d;
    Cancel(p, q + 1, d);
    Cancel(q, p + 1, d);
  }

  /** `b / div` to one decimal, in tenths: the nearest one, exact halves to even. */
  function Tenths(b: nat, div: nat): (t: nat)
    requires div > 0
    ensures 10 * b - t * div <= div / 2 && t * div - 10 * b <= div / 2
  {
    var q, r := 10 * b / div, 10 * b % div;
    Nearest(10 * b, div);
    if 2 * r < div || (2 * r == div && q % 2 == 0) then q else q + 1
  }

  lemma Nearest(a: nat, div: nat)
    requires div > 0
    ensures var q, r := a / div, a % div;
            && a - q * div == r && (q + 1) * div - a == div - r && 0 <= r < div
            && (2 * r <= div ==> r <= div / 2) && (2 * r >= div ==> div - r <= div / 2)
  {
    var q, r := a / div, a % div;
    assert a == q * div + r;
    assert (q + 1) * div == q * div + div;
  }

  /** Where two tenths are equally near it is the even one. */
  lemma TiesToEven(b: nat, div: nat)
    requires div > 0
    ensures var t := Tenths(b, div);
            2 * (10 * b - t * div) == div || 2 * (t * div - 10 * b) == div ==> t % 2 == 0
  {
    var q, r := 10 * b / div, 10 * b % div;
    assert 10 * b == q * div + r;
    assert (q + 1) * div == q * div + div;
    assert Tenths(b, div) == q || Tenths(b, div) == q + 1;
  }

  /** The text printed for `b` bytes shown in unit `e`. */
  function SizeText(b: nat, e: nat): string
    requires 1 <= e <= |LETTERS|
  {
    var t := Tenths(b, Pow1024(e));
    DigitsOf(t / 10) + "." + [Digit(t % 10)] + " " + [LETTERS[e - 1]] + "iB"
  }

  function ByteText(b: int): string {
    (if b < 0 then "-" + DigitsOf(-b) else DigitsOf(b)) + " B"
  }

  /** The unit loop never overflows, ends inside the six letters, and finds the bracketing unit. */
  method HumanizeBytes(b: int64) returns (text: string)
    ensures b < UNIT ==> text == ByteText(b as int)
    ensures b >= UNIT ==> 1 <= UnitOf(b as int) <= |LETTERS| && text == SizeText(b as int, UnitOf(b as int))
  {
    if b < UNIT {
      return ByteText(b as int);
    }
    var div, exp := UNIT, 0;
    var n := b / UNIT;
    assert Pow1024(1) == 1024 * Pow1024(0);
    while n >= UNIT
      invariant 0 <= exp <= 5
      invariant div as int == Pow1024(exp + 1)
      invariant n as int == b as int / div as int && n >= 1
      decreases n
    {
      DivideOnce(b as int, div as int);
      SixUnitsSuffice(b as int, exp + 1);
      div := div * UNIT;
      exp := exp + 1;
      n := n / UNIT;
    }
    BracketOf(b as int, div as int);
    UnitsAreOrdered(b as int, b as int, exp + 1, UnitOf(b as int));
    UnitsAreOrdered(b as int, b as int, UnitOf(b as int), exp + 1);
    text := SizeText(b as int, exp + 1);
  }

  lemma DivideOnce(b: nat, div: nat)
    requires div > 0
    ensures b / div / 1024 == b / (1024 * div)
    ensures b / div >= 1024 ==> b >= 1024 * div
  {
    var q := b / div;
    var r := q / 1024;
    assert b == q * div + b % div;
    assert q == 1024 * r + q % 1024;
    Scale(q % 1024, 1023, div);
    assert q * div == (1024 * r) * div + q % 1024 * div;
    assert (1024 * r) * div == r * (1024 * div);
    DivisionIsUnique(b, 1024 * div, r, q % 1024 * div + b % div);
    if q >= 1024 {
      Scale(1024, q, div);
    }
  }

  lemma BracketOf(b: nat, div: nat)
    requires div > 0 && 1 <= b / div < 1024
    ensures div <= b < 1024 * div
  {
    var q := b / div;
    assert b == q * div + b % div;
    Scale(1, q, div);
    Scale(q, 1023, div);
  }

  lemma SixUnitsSuffice(b: nat, e: nat)
    requires b < 0x8000_0000_0000_0000 && b >= 1024 * Pow1024(e)
    ensures e <= 5 && 1024 * Pow1024(e) < 0x8000_0000_0000_0000
  {
    assert Pow1024(1) == 1024 * Pow1024(0) == 1024;
    assert Pow1024(2) == 1024 * Pow1024(1) == 0x10_0000;
    assert Pow1024(3) == 1024 * Pow1024(2) == 0x4000_0000;
    assert Pow1024(4) == 1024 * Pow1024(3) == 0x100_0000_0000;
    assert Pow1024(5) == 1024 * Pow1024(4) == 0x4_0000_0000_0000;
    assert Pow1024(6) == 1024 * Pow1024(5) == 0x1000_0000_0000_0000;
    if e > 6 {
      Pow1024Monotone(6, e);
    }
  }

  lemma UnitIs(b: nat, e: nat)
    requires InUnit(b, e)
    ensures UnitOf(b) == e
  {
    UnitsAreOrdered(b, b, e, UnitOf(b));
    UnitsAreOrdered(b, b, UnitOf(b), e);
  }

  lemma Powers()
    ensures Pow1024(1) == 0x400 && Pow1024(2) == 0x10_0000 && Pow1024(3) == 0x4000_0000
    ensures Pow1024(4) == 0x100_0000_0000 && Pow1024(5) == 0x4_0000_0000_0000
    ensures Pow1024(6) == 0x1000_0000_0000_0000 && Pow1024(7) == 0x40_0000_0000_0000_0000
  {
    assert Pow1024(1) == 1024 * Pow1024(0);
    assert Pow1024(2) == 1024 * Pow1024(1);
    assert Pow1024(3) == 1024 * Pow1024(2);
    assert Pow1024(4) == 1024 * Pow1024(3);
    assert Pow1024(5) == 1024 * Pow1024(4);
    assert Pow1024(6) == 1024 * Pow1024(5);
    assert Pow1024(7) == 1024 * Pow1024(6);
  }

  /** Which unit stands behind the amount, by size. */
  function UnitName(b: nat): string {
    if b < 0x10_0000 then " KiB"
    else if b < 0x4000_0000 then " MiB"
    else if b < 0x100_0000_0000 then " GiB"
    else if b < 0x4_0000_0000_0000 then " TiB"
    else if b < 0x1000_0000_0000_0000 then " PiB"
    else " EiB"
  }

  /** The text of every size from 1024 on names the right unit, and the number before it reads back as the amount of
      that unit to one decimal. */
  lemma TextReadBack(b: nat)
    requires 0x400 <= b < 0x40_0000_0000_0000_0000
    ensures 1 <= UnitOf(b) <= |LETTERS|
    ensures var text := SizeText(b, UnitOf(b)); var n := |text| - 4;
            && n > 0 && text[n..] == UnitName(b)
            && ParseUnsigned(text[..n]) == Some(Tenths(b, Pow1024(UnitOf(b))) as real / 10.0)
  {
    UnitFor(b);
    var e := UnitOf(b);
    var t := Tenths(b, Pow1024(e));
    AmountReadBack(t);
    TextParts(DigitsOf(t / 10) + "." + [Digit(t % 10)], [LETTERS[e - 1]]);
  }

  lemma TextParts(amount: string, letter: string)
    requires |letter| == 1
    ensures var text := amount + " " + letter + "iB"; var n := |text| - 4;
            n == |amount| && text[..n] == amount && text[n..] == " " + letter + "iB"
  {
  }

  lemma UnitFor(b: nat)
    requires 0x400 <= b < 0x40_0000_0000_0000_0000
    ensures 1 <= UnitOf(b) <= |LETTERS| && UnitName(b) == " " + [LETTERS[UnitOf(b) - 1]] + "iB"
  {
    Powers();
    UnitIs(b, if b < 0x10_0000 then 1 else if b < 0x4000_0000 then 2 else if b < 0x100_0000_0000 then 3
              else if b < 0x4_0000_0000_0000 then 4 else if b < 0x1000_0000_0000_0000 then 5 else 6);
  }

  lemma AmountReadBack(t: nat)
    ensures ParseUnsigned(DigitsOf(t / 10) + "." + [Digit(t % 10)]) == Some(t as real / 10.0)
  {
    var whole, part := DigitsOf(t / 10), [Digit(t % 10)];
    var s := whole + "." + part;
    assert s == whole + ("." + part);
    FindAfterDigits(whole, "." + part);
    NumberOfDigits(t / 10);
    assert s[..|whole|] == whole && s[|whole| + 1..] == part;
    assert part[..0] == "" && Number(part) == t % 10;
    assert Shift(Number(part) as real, 1) == Shift(Number(part) as real, 0) / 10.0;
    assert t as real / 10.0 == (t / 10) as real + (t % 10) as real / 10.0;
  }

  /** And below 1024 the number of bytes, also a negative one. */
  lemma BytesReadBack(b: int)
    ensures var text := ByteText(b); var n := |text| - 2;
            && n > 0 && text[n..] == " B"
            && ParseFloat(text[..n]) == Some(Finite(b < 0, if b < 0 then (-b) as real else b as real))
  {
    var m: nat := if b < 0 then -b else b;
    var digits := DigitsOf(m);
    FindAfterDigits(digits, "");
    assert digits + "" == digits;
    NumberOfDigits(m);
    assert digits[..|digits|] == digits;
    ParseSigned(b < 0, digits, m as real);
    assert ByteText(b) == Sign(b < 0) + digits + " B";
  }

  /** The amount on screen, in tenths of a byte: the size the printed text stands for. */
  function ShownTenthBytes(b: nat): nat {
    Tenths(b, Pow1024(UnitOf(b))) * Pow1024(UnitOf(b))
  }

  /** The amount shown is within a twentieth of its unit of the real one. */
  lemma ShownIsClose(b: nat)
    ensures 20 * b - 2 * ShownTenthBytes(b) <= Pow1024(UnitOf(b))
    ensures 2 * ShownTenthBytes(b) - 20 * b <= Pow1024(UnitOf(b))
  {
    var div := Pow1024(UnitOf(b));
    var shown := Tenths(b, div) * div;
    assert 2 * (div / 2) <= div;
  }

  lemma TenthsMonotone(b: nat, c: nat, div: nat)
    requires b <= c && div > 0
    ensures Tenths(b, div) <= Tenths(c, div)
  {
    var q, p := 10 * b / div, 10 * c / div;
    assert 10 * b == q * div + 10 * b % div && 10 * c == p * div + 10 * c % div;
    assert q * div < (p + 1) * div;
    Cancel(q, p + 1, div);
  }

  /** A whole number of units prints as itself. */
  lemma TenthsOfWhole(k: nat, div: nat)
    requires div > 0
    ensures Tenths(k * div, div) == 10 * k
  {
    assert 10 * (k * div) == (10 * k) * div;
    DivisionIsUnique(10 * (k * div), div, 10 * k, 0);
  }

  /** A larger size never reads smaller, also where the unit changes. */
  lemma ShownIsMonotone(b: nat, c: nat)
    requires b <= c
    ensures ShownTenthBytes(b) <= ShownTenthBytes(c)
  {
    var d, e := UnitOf(b), UnitOf(c);
    var x, y := Pow1024(d), Pow1024(e);
    UnitsAreOrdered(b, c, d, e);
    if d == e {
      TenthsMonotone(b, c, x);
      Scale(Tenths(b, x), Tenths(c, x), x);
    } else {
      Pow1024Monotone(d, e);
      TopIsAtMost1024(b);
      TenthsMonotone(1 * y, c, y);
      TenthsOfWhole(1, y);
      Scale(Tenths(b, x), 10240, x);
      Scale(10, Tenths(c, y), y);
    }
  }

  lemma TopIsAtMost1024(b: nat)
    ensures Tenths(b, Pow1024(UnitOf(b))) <= 10240
  {
    var div := Pow1024(UnitOf(b));
    TenthsMonotone(b, 1024 * div, div);
    TenthsOfWhole(1024, div);
  }

  /** A size reads 1024.0 of its unit exactly when it is within a twentieth of the next unit. */
  lemma TopOfUnit(b: nat)
    ensures var div := Pow1024(UnitOf(b));
            Tenths(b, div) == 10240 <==> 20 * b >= 20479 * div
  {
    var div := Pow1024(UnitOf(b));
    if 20 * b >= 20479 * div {
      TopTie(b, div);
    }
    if Tenths(b, div) == 10240 {
      TopIsNear(b, div);
    }
  }

  lemma TopIsNear(b: nat, div: nat)
    requires div > 0 && Tenths(b, div) == 10240
    ensures 20 * b >= 20479 * div
  {
    assert 10240 * div - 10 * b <= div / 2;
    assert 20480 * div - 20 * b <= 2 * (div / 2) <= div;
  }

  lemma TopTie(b: nat, div: nat)
    requires div > 0 && 20 * b >= 20479 * div && b < 1024 * div
    ensures Tenths(b, div) == 10240
  {
    var r := 10 * b - 10239 * div;
    assert 10 * b == 10239 * div + r;
    DivisionIsUnique(10 * b, div, 10239, r);
  }
}
