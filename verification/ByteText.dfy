/** Byte sizes as text, with no decimals: formatBytes and parseBytes of web/src/lib/format.ts in exact arithmetic. */
module ByteText {
  import opened Wrappers
  import opened Text

  // ---- powers of two and their logarithms ----

  /** Two to the power k, which may be negative. */
  function Pow2(k: int): (p: real)
    ensures p > 0.0
    decreases if k < 0 then -k else k
  {
    if k == 0 then 1.0 else if k > 0 then 2.0 * Pow2(k - 1) else Pow2(k + 1) / 2.0
  }

  lemma Pow2Doubles(k: int)
    ensures Pow2(k + 1) == 2.0 * Pow2(k)
  {
  }

  lemma {:induction false} Pow2Grows(j: int, k: int)
    requires j <= k
    ensures Pow2(j) <= Pow2(k)
    decreases k - j
  {
    if j < k {
      Pow2Doubles(k - 1);
      Pow2Grows(j, k - 1);
    }
  }

  /** The exponent of the largest power of two that is at most n. */
  function FloorLog2(n: real): (k: int)
    requires n > 0.0
    ensures Pow2(k) <= n < Pow2(k + 1)
    decreases n < 1.0, if n < 1.0 then (1.0 / n).Floor else n.Floor
  {
    if n >= 2.0 then
      var k := FloorLog2(n / 2.0);
      Pow2Doubles(k);
      Pow2Doubles(k + 1);
      k + 1
    else if n >= 1.0 then
      Pow2Doubles(0);
      0
    else
      HalvesOfInverse(n);
      var k := FloorLog2(2.0 * n);
      Pow2Doubles(k - 1);
      Pow2Doubles(k);
      k - 1
  }

  lemma HalvesOfInverse(n: real)
    requires 0.0 < n < 1.0
    ensures 1.0 / (2.0 * n) == (1.0 / n) / 2.0
    ensures (1.0 / n) > 1.0
    ensures (1.0 / (2.0 * n)).Floor < (1.0 / n).Floor
  {
    var x, y := 1.0 / n, 1.0 / (2.0 * n);
    assert x * n == 1.0;
    assert y * (2.0 * n) == 1.0;
    assert (2.0 * y - x) * n == 0.0;
    assert 2.0 * y == x;
    PositiveFactor(x - 1.0, n);
  }

  lemma PositiveFactor(a: real, n: real)
    requires n > 0.0 && a * n > 0.0
    ensures a > 0.0
  {
  }

  lemma FloorLog2Is(n: real, k: int)
    requires n > 0.0 && Pow2(k) <= n < Pow2(k + 1)
    ensures FloorLog2(n) == k
  {
    var j := FloorLog2(n);
    if j < k {
      Pow2Grows(j + 1, k);
    } else if k < j {
      Pow2Grows(k + 1, j);
    }
  }

  // ---- units ----

  function Pow1024(i: nat): (u: nat)
    ensures u > 0
  {
    if i == 0 then 1 else 1024 * Pow1024(i - 1)
  }

  lemma {:induction false} Pow1024IsPow2(i: nat)
    ensures Pow1024(i) as real == Pow2(10 * i)
  {
    if i > 0 {
      Pow1024IsPow2(i - 1);
      var k := 10 * i;
      assert Pow2(k) == 1024.0 * Pow2(k - 10) by {
        Pow2Doubles(k - 1);
        Pow2Doubles(k - 2);
        Pow2Doubles(k - 3);
        Pow2Doubles(k - 4);
        Pow2Doubles(k - 5);
        Pow2Doubles(k - 6);
        Pow2Doubles(k - 7);
        Pow2Doubles(k - 8);
        Pow2Doubles(k - 9);
        Pow2Doubles(k - 10);
      }
    }
  }

  /** How often 1024 divides into n, and never past the last unit. Negative below one byte. */
  function UnitIndex(n: real): (i: int)
    requires n > 0.0
    ensures i <= 5
    ensures n >= 1.0 <==> i >= 0
  {
    var k := FloorLog2(n);
    assert n >= 1.0 ==> k >= 0 by {
      if k < 0 {
        Pow2Grows(k + 1, 0);
      }
    }
    assert k >= 0 ==> n >= 1.0 by {
      if k >= 0 {
        Pow2Grows(0, k);
      }
    }
    if k / 10 < 5 then k / 10 else 5
  }

  /** Indexing past the front of the list of units reads "undefined". */
  function UnitName(i: int): string
    requires i <= 5
  {
    if i < 0 then "undefined" else ["B", "KB", "MB", "GB", "TB", "PB"][i]
  }

  /** Math.round, and toFixed(0) on what is not negative: halves go up. */
  function RoundHalfUp(x: real): (r: int)
    ensures r as real - 0.5 <= x < r as real + 0.5
  {
    (x + 0.5).Floor
  }

  function ToFixed0(x: real): string {
    if x >= 0.0 then Digits(RoundHalfUp(x)) else "-" + Digits(RoundHalfUp(0.0 - x))
  }

  /** formatBytes(n, 0). */
  function FormatBytes(n: real): string {
    if n == 0.0 then "0 B"
    else
      var i := UnitIndex(if n < 0.0 then 0.0 - n else n);
      ToFixed0(n / Pow2(10 * i)) + " " + UnitName(i)
  }

  // ---- parsing ----

  predicate IsNumeral(c: char) {
    IsDigit(c) || c == '.'
  }

  /** The leading digits and dots. */
  function NumeralPrefix(s: string): (t: string)
    ensures |t| <= |s| && t == s[..|t|]
    ensures |t| < |s| ==> !IsNumeral(s[|t|])
  {
    if s == "" || !IsNumeral(s[0]) then "" else [s[0]] + NumeralPrefix(s[1..])
  }

  function DigitPrefix(s: string): (t: string)
    ensures |t| <= |s| && t == s[..|t|] && AllDigits(t)
    ensures |t| < |s| ==> !IsDigit(s[|t|])
  {
    if s == "" || !IsDigit(s[0]) then "" else [s[0]] + DigitPrefix(s[1..])
  }

  /** An exact decimal: so many units of the last place. */
  datatype Number = Number(digits: nat, places: nat)

  /** parseFloat on digits and dots: the longest prefix that is a decimal number, if any. */
  function ParseFloat(s: string): Option<Number> {
    var whole := DigitPrefix(s);
    var frac := if |whole| < |s| then DigitPrefix(s[|whole| + 1..]) else "";
    if whole == "" && frac == "" then None else Some(Decimal(whole, frac))
  }

  function Decimal(whole: string, frac: string): Number
    requires AllDigits(whole) && AllDigits(frac)
  {
    Number(NumberOf(whole) * Pow10(|frac|) + NumberOf(frac), |frac|)
  }

  function WithoutPrefix(s: string, c: char): string {
    if s != "" && s[0] == c then s[1..] else s
  }

  /** The exponent of the optional unit letter. */
  function UnitLetter(s: string): (e: nat)
    ensures e <= 5
  {
    if s == "" then 0
    else if s[0] == 'k' then 1 else if s[0] == 'm' then 2 else if s[0] == 'g' then 3
    else if s[0] == 't' then 4 else if s[0] == 'p' then 5 else 0
  }

  /** What follows the number, once its unit letter is known: nothing but an optional i and an optional b. */
  function AfterUnit(tail: string): string {
    WithoutPrefix(WithoutPrefix(if UnitLetter(tail) > 0 then tail[1..] else tail, 'i'), 'b')
  }

  /** Math.round of a over p: halves go up. */
  function RoundedQuotient(a: nat, p: nat): nat
    requires p > 0
  {
    (2 * a + p) / (2 * p)
  }

  function Scaled(value: Option<Number>, e: nat): Option<int> {
    match value
    case None => None
    case Some(v) => Some(RoundedQuotient(v.digits * Pow1024(e), Pow10(v.places)))
  }

  /** A run of digits and dots, and what follows it without leading white space. */
  function ParseParts(numeral: string, tail: string): Option<int> {
    if numeral == "" || AfterUnit(tail) != "" then None else Scaled(ParseFloat(numeral), UnitLetter(tail))
  }

  function ParseLabel(s: string): Option<int> {
    var numeral := NumeralPrefix(s);
    ParseParts(numeral, TrimLeft(s[|numeral|..]))
  }

  /** parseBytes: None is null. */
  function ParseBytes(input: string): Option<int> {
    var s := ToLower(Trim(input));
    if |s| == 0 || (|s| == 1 && s[0] == '0') then Some(0) else ParseLabel(s)
  }

  // ---- the round trip ----

  /** The unit a size prints in. */
  function UnitOf(n: real): nat
    requires n >= 1.0
  {
    Pow1024(UnitIndex(n))
  }

  lemma {:induction false} PrefixOfDigits(d: string, rest: string)
    requires AllDigits(d) && (rest != "" ==> !IsNumeral(rest[0]))
    ensures NumeralPrefix(d + rest) == d && DigitPrefix(d) == d
  {
    if d != "" {
      assert (d + rest)[1..] == d[1..] + rest;
      PrefixOfDigits(d[1..], rest);
    }
  }

  lemma LabelInLowerCase(d: string, i: nat)
    requires AllDigits(d) && d != "" && i <= 5
    ensures ToLower(Trim(d + " " + UnitName(i))) == d + " " + ToLower(UnitName(i))
  {
    var s := d + " " + UnitName(i);
    assert s[0] == d[0] && IsDigit(d[0]);
    assert s[|s| - 1] == 'B';
    TrimKeeps(s);
    assert forall k :: 0 <= k < |d| ==> IsDigit(s[k]) && LowerChar(s[k]) == d[k];
  }

  lemma UnitNameParses(i: nat)
    requires i <= 5
    ensures var tail := ToLower(UnitName(i));
            tail != "" && !IsSpace(tail[0]) && UnitLetter(tail) == i && AfterUnit(tail) == ""
  {
    var name := UnitName(i);
    if i == 0 {
      assert ToLower(name) == ['b'];
    } else {
      var letter := ['k', 'm', 'g', 't', 'p'][i - 1];
      assert ToLower(name) == [letter, 'b'];
      assert [letter, 'b'][1..] == ['b'];
    }
  }

  lemma OneSpaceTrims(tail: string)
    requires tail != "" && !IsSpace(tail[0])
    ensures TrimLeft(" " + tail) == tail
  {
    assert (" " + tail)[1..] == tail;
    assert TrimLeft(tail) == tail;
  }

  lemma SplitAtSpace(s: string, d: string, tail: string)
    requires s == d + " " + tail
    ensures s == d + (" " + tail) && s[|d|..] == " " + tail
  {
  }

  lemma SpacedTail(d: string, tail: string)
    requires AllDigits(d) && tail != "" && !IsSpace(tail[0])
    ensures var s := d + " " + tail; NumeralPrefix(s) == d && DigitPrefix(d) == d && TrimLeft(s[|d|..]) == tail
  {
    SplitAtSpace(d + " " + tail, d, tail);
    PrefixOfDigits(d, " " + tail);
    OneSpaceTrims(tail);
  }

  lemma LabelOfSpaced(d: string, tail: string)
    requires AllDigits(d) && tail != "" && !IsSpace(tail[0])
    ensures ParseLabel(d + " " + tail) == ParseParts(d, tail)
  {
    SpacedTail(d, tail);
  }

  lemma LongLabel(s: string)
    requires |s| >= 2 && ToLower(Trim(s)) == s
    ensures ParseBytes(s) == ParseLabel(s)
  {
  }

  lemma ParseOfSpaced(d: string, tail: string)
    requires AllDigits(d) && d != "" && tail != "" && !IsSpace(tail[0])
    requires var s := d + " " + tail; ToLower(Trim(s)) == s
    ensures ParseBytes(d + " " + tail) == ParseParts(d, tail)
  {
    LabelOfSpaced(d, tail);
    LongLabel(d + " " + tail);
  }

  lemma NoFraction(d: string)
    requires AllDigits(d)
    ensures Decimal(d, "") == Number(NumberOf(d), 0)
  {
    assert NumberOf("") == 0 && Pow10(0) == 1;
  }

  lemma WholeNumeral(d: string)
    requires AllDigits(d) && d != "" && DigitPrefix(d) == d
    ensures ParseFloat(d) == Some(Decimal(d, ""))
  {
  }

  /** Parsing a label whose numeral and unit have been told apart. */
  lemma WholePartsParse(d: string, tail: string, q: nat, i: nat)
    requires AllDigits(d) && d != "" && NumberOf(d) == q && DigitPrefix(d) == d
    requires UnitLetter(tail) == i && AfterUnit(tail) == ""
    ensures ParseParts(d, tail) == Some(q * Pow1024(i))
  {
    WholeNumeral(d);
    NoFraction(d);
    ScaledWhole(ParseFloat(d), q, i);
  }

  lemma ScaledWhole(value: Option<Number>, q: nat, i: nat)
    requires value == Some(Number(q, 0))
    ensures Scaled(value, i) == Some(q * Pow1024(i))
  {
    WholeStays(q * Pow1024(i));
  }

  lemma WholeStays(a: nat)
    ensures RoundedQuotient(a, 1) == a && Pow10(0) == 1
  {
  }

  lemma SplitLabelParses(d: string, q: nat, i: nat)
    requires AllDigits(d) && d != "" && NumberOf(d) == q && i <= 5
    ensures ParseBytes(d + " " + UnitName(i)) == Some(q * Pow1024(i))
  {
    var unit := ToLower(UnitName(i));
    LabelInLowerCase(d, i);
    UnitNameParses(i);
    SpacedTail(d, unit);
    WholePartsParse(d, unit, q, i);
    assert |d + " " + unit| >= 2;
  }

  /** A printed label of digits, a space and a unit reads back as that many units. */
  lemma LabelParses(q: nat, i: nat)
    requires i <= 5
    ensures ParseBytes(Digits(q) + " " + UnitName(i)) == Some(q * Pow1024(i))
  {
    SplitLabelParses(Digits(q), q, i);
  }

  /** The whole number of units a size prints as. */
  function Printed(n: real): nat
    requires n >= 1.0
  {
    RoundHalfUp(n / UnitOf(n) as real)
  }

  /** Printing a size of at least one byte and parsing the label gives the nearest whole number of its unit. */
  lemma ParseOfFormat(n: real)
    requires n >= 1.0
    ensures ParseBytes(FormatBytes(n)) == Some(Printed(n) * UnitOf(n))
  {
    var i := UnitIndex(n);
    Pow1024IsPow2(i);
    PositiveQuotient(n, Pow2(10 * i));
    LabelParses(Printed(n), i);
  }

  /** Below one byte the label has no unit and does not parse. */
  lemma SubByteLabelIsNoSize(n: real)
    requires 0.0 < n < 1.0
    ensures ParseBytes(FormatBytes(n)) == None
  {
    var i := UnitIndex(n);
    PositiveQuotient(n, Pow2(10 * i));
    UndefinedDoesNotParse(ToFixed0(n / Pow2(10 * i)));
  }

  lemma PositiveQuotient(n: real, p: real)
    requires n > 0.0 && p > 0.0
    ensures n / p > 0.0
  {
    assert (n / p) * p == n;
  }

  lemma UndefinedDoesNotParse(d: string)
    requires AllDigits(d) && d != ""
    ensures ParseBytes(d + " " + "undefined") == None
  {
    UnknownUnit(d, "undefined");
  }

  predicate MayStartUnit(c: char) {
    c == 'k' || c == 'm' || c == 'g' || c == 't' || c == 'p' || c == 'i' || c == 'b'
  }

  /** A lower-case tail that starts with neither a unit letter nor an i or a b does not parse. */
  lemma UnknownUnit(d: string, tail: string)
    requires AllDigits(d) && d != "" && tail != "" && IsLower(tail)
    requires !IsSpace(tail[0]) && !IsSpace(tail[|tail| - 1]) && !MayStartUnit(tail[0])
    ensures ParseBytes(d + " " + tail) == None
  {
    LowerCaseKept(d, tail);
    ParseOfSpaced(d, tail);
    UnknownTail(d, tail);
  }

  lemma UnknownTail(d: string, tail: string)
    requires tail != "" && !MayStartUnit(tail[0])
    ensures ParseParts(d, tail) == None
  {
    assert AfterUnit(tail) == tail;
  }

  lemma LowerCaseKept(d: string, tail: string)
    requires AllDigits(d) && d != "" && tail != "" && IsLower(tail) && !IsSpace(tail[|tail| - 1])
    ensures var s := d + " " + tail; ToLower(Trim(s)) == s
  {
    var s := d + " " + tail;
    assert s[0] == d[0] && s[|s| - 1] == tail[|tail| - 1];
    TrimKeeps(s);
    DigitsAreLower(d);
    LowerJoins(d + " ", tail);
    LowerKeeps(s);
  }

  /** A size is whole in the unit it prints in. */
  ghost predicate IsWhole(n: real)
    requires n >= 1.0
  {
    exists q: nat :: n == (q * UnitOf(n)) as real
  }

  lemma NearestUnits(n: real, u: nat, q: int)
    requires u > 0 && q == RoundHalfUp(n / u as real)
    ensures 2.0 * ((q * u) as real - n) <= u as real
    ensures 2.0 * (n - (q * u) as real) <= u as real
  {
    var x, v, r := n / u as real, u as real, q as real;
    assert x * v == n;
    Product(q, u);
    AtMostHalf(r, x, v);
    AtMostHalf(x, r, v);
    assert 2.0 * (r * v - n) <= v;
    assert 2.0 * (n - r * v) <= v;
  }

  lemma Product(q: int, u: nat)
    ensures (q * u) as real == q as real * u as real
  {
  }

  lemma AtMostHalf(a: real, b: real, v: real)
    requires a - b <= 0.5 && v > 0.0
    ensures 2.0 * (a * v - b * v) <= v
  {
    var e := 1.0 - 2.0 * (a - b);
    assert e * v >= 0.0;
    assert e * v == v - 2.0 * (a * v - b * v);
  }

  lemma WholeIsExact(n: real, u: nat, q: nat)
    requires u > 0 && n == (q * u) as real
    ensures RoundHalfUp(n / u as real) == q
  {
    assert n == q as real * u as real;
    assert n / u as real == q as real;
  }

  /** Parse after format is the identity exactly on the sizes that are whole in their unit, and otherwise within half a
      unit. */
  lemma FormatThenParse(n: real)
    requires n >= 1.0
    ensures var back := ParseBytes(FormatBytes(n));
            && back.Some?
            && (back.value as real == n <==> IsWhole(n))
            && 2.0 * (back.value as real - n) <= UnitOf(n) as real
            && 2.0 * (n - back.value as real) <= UnitOf(n) as real
  {
    ParseOfFormat(n);
    NearestUnits(n, UnitOf(n), Printed(n));
    if IsWhole(n) {
      var q: nat :| n == (q * UnitOf(n)) as real;
      WholeIsExact(n, UnitOf(n), q);
    }
  }

  /** What the user drawer fills its quota field with. */
  function InitialQuota(quota: nat): string {
    if quota > 0 then FormatBytes(quota as real) else ""
  }

  /** The quota field of the user drawer, left untouched, sends nothing exactly when the quota is unlimited or whole in
      its unit. */
  lemma UntouchedQuotaIsNoChange(quota: nat)
    ensures ParseBytes(InitialQuota(quota)) == Some(quota as int) <==> quota == 0 || IsWhole(quota as real)
  {
    if quota > 0 {
      PositiveQuota(quota, InitialQuota(quota));
    } else {
      EmptyIsUnlimited(InitialQuota(quota));
    }
  }

  lemma PositiveQuota(quota: nat, initial: string)
    requires quota > 0 && initial == FormatBytes(quota as real)
    ensures ParseBytes(initial) == Some(quota as int) <==> IsWhole(quota as real)
  {
    FormatThenParse(quota as real);
    SameSize(ParseBytes(initial), quota, IsWhole(quota as real));
  }

  lemma SameSize(back: Option<int>, quota: nat, whole: bool)
    requires back.Some? && (back.value as real == quota as real <==> whole)
    ensures back == Some(quota as int) <==> whole
  {
  }

  lemma EmptyIsUnlimited(initial: string)
    requires initial == ""
    ensures ParseBytes(initial) == Some(0)
  {
  }
}
