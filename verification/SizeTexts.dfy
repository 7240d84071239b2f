/** Which texts are sizes and which sizes they are, and how a size is written: formatBytes and parseBytes of
    web/src/lib/format.ts told by their grammar. */
module SizeTexts {
  import opened Wrappers
  import opened Text
  import opened ByteText

  // ---- units ----

  /** Bytes in a unit: each is 1024 of the one before. */
  function UnitBytes(e: nat): nat
    requires e <= 5
  {
    if e == 0 then 1
    else if e == 1 then 1024
    else if e == 2 then 1_048_576
    else if e == 3 then 1_073_741_824
    else if e == 4 then 1_099_511_627_776
    else 1_125_899_906_842_624
  }

  lemma UnitsAre(e: nat)
    requires e <= 5
    ensures Pow1024(e) == UnitBytes(e)
  {
    assert Pow1024(1) == 1024 * Pow1024(0);
    assert Pow1024(2) == 1024 * Pow1024(1);
    assert Pow1024(3) == 1024 * Pow1024(2);
    assert Pow1024(4) == 1024 * Pow1024(3);
    assert Pow1024(5) == 1024 * Pow1024(4);
  }

  /** A size of a byte or more is written in the largest unit it reaches, which is never beyond the petabyte. */
  lemma WrittenInTheLargestUnit(n: real)
    requires n >= 1.0
    ensures var i := UnitIndex(n);
            0 <= i <= 5 && UnitBytes(i) as real <= n && (i < 5 ==> n < UnitBytes(i + 1) as real)
  {
    var i, k := UnitIndex(n), FloorLog2(n);
    Pow1024IsPow2(i);
    Pow2Grows(10 * i, k);
    UnitsAre(i);
    if i < 5 {
      Pow1024IsPow2(i + 1);
      Pow2Grows(k + 1, 10 * (i + 1));
      UnitsAre(i + 1);
    }
  }

  /** The label of such a size: a whole number, nearest to it in that unit, a space and the unit. */
  lemma LabelIs(n: real)
    requires n >= 1.0
    ensures var i, q := UnitIndex(n), Printed(n);
            && FormatBytes(n) == Digits(q) + " " + ["B", "KB", "MB", "GB", "TB", "PB"][i]
            && 2.0 * ((q * UnitBytes(i)) as real - n) <= UnitBytes(i) as real
            && 2.0 * (n - (q * UnitBytes(i)) as real) <= UnitBytes(i) as real
  {
    var i := UnitIndex(n);
    Pow1024IsPow2(i);
    PositiveQuotient(n, Pow2(10 * i));
    NearestUnits(n, UnitOf(n), Printed(n));
    UnitsAre(i);
  }

  /** Numbers are written without leading zeros. */
  lemma {:induction false} NoLeadingZero(n: nat)
    requires n > 0
    ensures Digits(n)[0] != '0'
  {
    if n >= 10 {
      NoLeadingZero(n / 10);
      assert Digits(n)[0] == Digits(n / 10)[0];
    }
  }

  // ---- parsing ----

  /** A unit as it may be typed: a letter or none, then an i or none, then a b or none. */
  function UnitText(e: nat, i: bool, b: bool): string
    requires e <= 5
  {
    (if e == 0 then "" else [['k', 'm', 'g', 't', 'p'][e - 1]]) + (if i then "i" else "") + if b then "b" else ""
  }

  lemma UnitIsRead(e: nat, i: bool, b: bool)
    requires e <= 5
    ensures UnitLetter(UnitText(e, i, b)) == e && AfterUnit(UnitText(e, i, b)) == ""
  {
    var rest := (if i then "i" else "") + if b then "b" else "";
    var last := if b then "b" else "";
    assert UnitText(e, i, b) == (if e == 0 then "" else [['k', 'm', 'g', 't', 'p'][e - 1]]) + rest;
    assert e > 0 ==> UnitText(e, i, b)[1..] == rest;
    assert e == 0 ==> UnitText(e, i, b) == rest;
    assert i ==> rest == "i" + last && rest[1..] == last;
    assert !i ==> rest == last;
    assert WithoutPrefix(rest, 'i') == last;
    assert b ==> last[1..] == "";
  }

  lemma OnlyUnitsAreRead(tail: string) returns (i: bool, b: bool)
    requires AfterUnit(tail) == ""
    ensures tail == UnitText(UnitLetter(tail), i, b)
  {
    var e := UnitLetter(tail);
    var rest := if e > 0 then tail[1..] else tail;
    i := rest != "" && rest[0] == 'i';
    var last := WithoutPrefix(rest, 'i');
    b := last != "" && last[0] == 'b';
    assert last == if b then "b" else "" by {
      assert b ==> last == ['b'] + last[1..];
    }
    assert rest == (if i then "i" else "") + last by {
      assert i ==> rest == ['i'] + rest[1..];
    }
    assert e > 0 ==> tail == [tail[0]] + rest;
  }

  /** Digits, perhaps a point and more digits, and perhaps a point again and whatever digits and points. */
  predicate Spells(s: string, whole: string, frac: string, junk: string) {
    s == whole + "." + frac + junk || (s == whole && frac == "" && junk == "")
  }

  /** A number as it may be typed; what follows a second point does not count. */
  predicate IsNumber(s: string, whole: string, frac: string, junk: string) {
    && AllDigits(whole) && AllDigits(frac) && (whole != "" || frac != "")
    && (junk == "" || junk[0] == '.') && (forall i :: 0 <= i < |junk| ==> IsNumeral(junk[i]))
    && Spells(s, whole, frac, junk)
  }

  lemma {:induction false} LeadingDigits(d: string, rest: string)
    requires AllDigits(d) && (rest == "" || !IsDigit(rest[0]))
    ensures DigitPrefix(d + rest) == d
  {
    if d != "" {
      assert (d + rest)[1..] == d[1..] + rest;
      LeadingDigits(d[1..], rest);
    }
  }

  lemma FloatIs(s: string, whole: string, frac: string)
    requires AllDigits(whole) && AllDigits(frac) && (whole != "" || frac != "") && DigitPrefix(s) == whole
    requires if |whole| < |s| then DigitPrefix(s[|whole| + 1..]) == frac else frac == ""
    ensures ParseFloat(s) == Some(Decimal(whole, frac))
  {
  }

  lemma AfterPoint(s: string, whole: string, rest: string)
    requires s == whole + "." + rest
    ensures s == whole + ("." + rest) && |whole| < |s| && s[|whole| + 1..] == rest
  {
  }

  lemma PointedPrefix(s: string, whole: string, rest: string)
    requires AllDigits(whole) && s == whole + ("." + rest)
    ensures DigitPrefix(s) == whole
  {
    LeadingDigits(whole, "." + rest);
  }

  lemma PointIsSpelt(whole: string, frac: string, junk: string)
    ensures whole + "." + frac + junk == whole + "." + (frac + junk)
  {
  }

  lemma NumberIsRead(s: string, whole: string, frac: string, junk: string)
    requires IsNumber(s, whole, frac, junk)
    ensures ParseFloat(s) == Some(Decimal(whole, frac))
  {
    if s == whole + "." + frac + junk {
      PointIsSpelt(whole, frac, junk);
      AfterPoint(s, whole, frac + junk);
      PointedPrefix(s, whole, frac + junk);
      LeadingDigits(frac, junk);
    } else {
      assert s == whole + "";
      LeadingDigits(whole, "");
    }
    FloatIs(s, whole, frac);
  }

  lemma PointedSpelling(s: string, whole: string, rest: string, frac: string, junk: string)
    requires |whole| < |s| && s[|whole|] == '.' && whole == s[..|whole|] && rest == s[|whole| + 1..]
             && rest == frac + junk
    ensures s == whole + "." + frac + junk
  {
    assert s == whole + [s[|whole|]] + rest;
    assert whole + "." + frac + junk == whole + "." + (frac + junk);
  }

  lemma Leftovers(rest: string) returns (frac: string, junk: string)
    requires forall i :: 0 <= i < |rest| ==> IsNumeral(rest[i])
    ensures frac == DigitPrefix(rest) && rest == frac + junk && (junk == "" || junk[0] == '.')
    ensures forall i :: 0 <= i < |junk| ==> IsNumeral(junk[i])
  {
    frac := DigitPrefix(rest);
    junk := rest[|frac|..];
    forall i | 0 <= i < |junk|
      ensures IsNumeral(junk[i])
    {
      assert junk[i] == rest[|frac| + i];
    }
  }

  lemma AfterNumeral(s: string, k: nat, rest: string)
    requires k < |s| && rest == s[k + 1..] && forall i :: 0 <= i < |s| ==> IsNumeral(s[i])
    ensures forall i :: 0 <= i < |rest| ==> IsNumeral(rest[i])
  {
  }

  lemma FloatNeedsDigits(s: string, whole: string)
    requires whole == DigitPrefix(s) && ParseFloat(s).Some?
    ensures |whole| < |s| ==> whole != "" || DigitPrefix(s[|whole| + 1..]) != ""
    ensures |whole| == |s| ==> whole != ""
  {
  }

  lemma OnlyNumbersAreRead(s: string) returns (whole: string, frac: string, junk: string)
    requires ParseFloat(s).Some? && forall i :: 0 <= i < |s| ==> IsNumeral(s[i])
    ensures IsNumber(s, whole, frac, junk)
  {
    whole := DigitPrefix(s);
    FloatNeedsDigits(s, whole);
    if |whole| < |s| {
      var rest := s[|whole| + 1..];
      assert IsNumeral(s[|whole|]);
      AfterNumeral(s, |whole|, rest);
      frac, junk := Leftovers(rest);
      PointedSpelling(s, whole, rest, frac, junk);
    } else {
      frac, junk := "", "";
    }
  }

  lemma {:induction false} NumeralsFirst(s: string, rest: string)
    requires (forall i :: 0 <= i < |s| ==> IsNumeral(s[i])) && (rest == "" || !IsNumeral(rest[0]))
    ensures NumeralPrefix(s + rest) == s
  {
    if s != "" {
      assert (s + rest)[1..] == s[1..] + rest;
      NumeralsFirst(s[1..], rest);
    }
  }

  lemma {:induction false} NumeralPrefixIsNumeral(s: string)
    ensures forall i :: 0 <= i < |NumeralPrefix(s)| ==> IsNumeral(NumeralPrefix(s)[i])
  {
    if s != "" && IsNumeral(s[0]) {
      NumeralPrefixIsNumeral(s[1..]);
    }
  }

  /** A size as it may be typed, once it is trimmed and in small letters: a number, white space, and a unit. */
  ghost predicate IsSize(s: string, number: string, spaces: string, e: nat, i: bool, b: bool) {
    e <= 5 && AllSpaces(spaces) && s == number + spaces + UnitText(e, i, b)
  }

  lemma UnitsStart(e: nat, i: bool, b: bool)
    requires e <= 5 && UnitText(e, i, b) != ""
    ensures !IsSpace(UnitText(e, i, b)[0]) && !IsNumeral(UnitText(e, i, b)[0])
  {
  }

  lemma NumbersAreNumerals(s: string, whole: string, frac: string, junk: string)
    requires IsNumber(s, whole, frac, junk)
    ensures s != "" && forall k :: 0 <= k < |s| ==> IsNumeral(s[k])
  {
    var pointed := whole + "." + frac + junk;
    assert forall k :: |whole| + 1 <= k < |whole| + 1 + |frac| ==> pointed[k] == frac[k - |whole| - 1];
    assert forall k :: |whole| + 1 + |frac| <= k < |pointed| ==> pointed[k] == junk[k - |whole| - 1 - |frac|];
    assert forall k :: 0 <= k < |whole| ==> pointed[k] == whole[k];
  }

  lemma PartsAreRead(s: string, number: string, spaces: string, e: nat, i: bool, b: bool)
    requires IsSize(s, number, spaces, e, i, b) && forall k :: 0 <= k < |number| ==> IsNumeral(number[k])
    ensures NumeralPrefix(s) == number && TrimLeft(s[|number|..]) == UnitText(e, i, b)
  {
    var unit := UnitText(e, i, b);
    var rest := spaces + unit;
    assert s == number + rest;
    if unit != "" {
      UnitsStart(e, i, b);
    }
    assert rest != "" ==> !IsNumeral(rest[0]);
    NumeralsFirst(number, rest);
    assert s[|number|..] == rest;
    TrimLeftIs(spaces, unit);
  }

  /** The quotient to the nearest whole number, halves upwards. */
  predicate IsRounded(r: int, a: nat, p: nat) {
    var x := r * p;
    2 * x <= 2 * a + p < 2 * x + 2 * p
  }

  /** What a size comes to: its digits, by a power of ten for those after the point, times its unit, to the nearest
      whole byte, halves upwards. */
  predicate IsNearest(r: int, whole: string, frac: string, e: nat)
    requires e <= 5
  {
    AllDigits(whole + frac) && IsRounded(r, NumberOf(whole + frac) * UnitBytes(e), Pow10(|frac|))
  }

  lemma Rounds(a: nat, p: nat)
    requires p > 0
    ensures IsRounded(RoundedQuotient(a, p), a, p)
  {
    var n, d, r := 2 * a + p, 2 * p, RoundedQuotient(a, p);
    DividedWithRest(n, d);
    Doubled(r, p);
  }

  lemma DividedWithRest(n: nat, d: nat)
    requires d > 0
    ensures n / d * d <= n < n / d * d + d
  {
  }

  lemma Doubled(r: nat, p: nat)
    ensures r * (2 * p) == 2 * (r * p)
  {
  }

  /** Digits before and after the point, read as one number. */
  lemma {:induction false} NumberOfJoined(whole: string, frac: string)
    requires AllDigits(whole) && AllDigits(frac)
    ensures AllDigits(whole + frac) && NumberOf(whole + frac) == NumberOf(whole) * Pow10(|frac|) + NumberOf(frac)
  {
    if frac == "" {
      assert whole + frac == whole;
    } else {
      var init, last := frac[..|frac| - 1], frac[|frac| - 1];
      NumberOfJoined(whole, init);
      assert whole + frac == (whole + init) + [last];
      NumberOfOneMore(whole + init, last);
      Shifted(NumberOf(whole), Pow10(|init|), NumberOf(init), last as int - '0' as int);
    }
  }

  lemma ScaledRounds(value: Option<Number>, n: nat, w: nat, e: nat)
    requires value == Some(Number(n, w))
    ensures Scaled(value, e).Some? && IsRounded(Scaled(value, e).value, n * Pow1024(e), Pow10(w))
  {
    Rounds(n * Pow1024(e), Pow10(w));
  }

  lemma SameUnit(r: int, n: nat, p: nat, u: nat, v: nat)
    requires IsRounded(r, n * u, p) && u == v
    ensures IsRounded(r, n * v, p)
  {
  }

  lemma ScaledIsNearest(value: Option<Number>, n: nat, whole: string, frac: string, e: nat)
    requires AllDigits(whole + frac) && n == NumberOf(whole + frac) && e <= 5 && value == Some(Number(n, |frac|))
    ensures Scaled(value, e).Some? && IsNearest(Scaled(value, e).value, whole, frac, e)
  {
    ScaledRounds(value, n, |frac|, e);
    UnitsAre(e);
    SameUnit(Scaled(value, e).value, n, Pow10(|frac|), Pow1024(e), UnitBytes(e));
  }

  lemma PartsAreScaled(number: string, tail: string, e: nat)
    requires number != "" && AfterUnit(tail) == "" && UnitLetter(tail) == e
    ensures ParseParts(number, tail) == Scaled(ParseFloat(number), e)
  {
  }

  lemma LabelIsItsParts(s: string, number: string, tail: string)
    requires NumeralPrefix(s) == number && TrimLeft(s[|number|..]) == tail
    ensures ParseLabel(s) == ParseParts(number, tail)
  {
  }

  /** What is read of a text of that shape: its number, and its unit. */
  lemma PartsOfSize(
    s: string, whole: string, frac: string, junk: string, number: string, spaces: string, e: nat, i: bool, b: bool)
    requires IsNumber(number, whole, frac, junk) && IsSize(s, number, spaces, e, i, b)
    ensures ParseLabel(s) == Scaled(ParseFloat(number), e)
  {
    var tail := UnitText(e, i, b);
    NumbersAreNumerals(number, whole, frac, junk);
    PartsAreRead(s, number, spaces, e, i, b);
    LabelIsItsParts(s, number, tail);
    UnitIsRead(e, i, b);
    PartsAreScaled(number, tail, e);
  }

  lemma DecimalIsJoined(whole: string, frac: string)
    requires AllDigits(whole) && AllDigits(frac)
    ensures AllDigits(whole + frac) && Decimal(whole, frac) == Number(NumberOf(whole + frac), |frac|)
  {
    NumberOfJoined(whole, frac);
  }

  lemma ValueIsNearest(value: Option<Number>, whole: string, frac: string, e: nat)
    requires AllDigits(whole) && AllDigits(frac) && e <= 5 && value == Some(Decimal(whole, frac))
    ensures Scaled(value, e).Some? && IsNearest(Scaled(value, e).value, whole, frac, e)
  {
    DecimalIsJoined(whole, frac);
    ScaledIsNearest(value, NumberOf(whole + frac), whole, frac, e);
  }

  predicate IsZero(s: string) {
    |s| == 1 && s[0] == '0'
  }

  lemma BytesOfText(input: string, s: string)
    requires s == ToLower(Trim(input)) && s != ""
    ensures ParseBytes(input) == if IsZero(s) then Some(0) else ParseLabel(s)
  {
  }

  lemma NumberIsThere(
    s: string, whole: string, frac: string, junk: string, number: string, spaces: string, e: nat, i: bool, b: bool)
    requires IsNumber(number, whole, frac, junk) && IsSize(s, number, spaces, e, i, b)
    ensures s != "" && (IsZero(s) ==> IsNearest(0, whole, frac, e))
  {
    NumbersAreNumerals(number, whole, frac, junk);
    SizeIsNotEmpty(s, number, spaces, e, i, b);
    if IsZero(s) {
      LoneNumber(s, number, spaces, e, i, b);
      ZeroIsZero(whole, frac, junk, number, e);
    }
  }

  /** Every text of that shape is a size, in whatever case and whatever white space surrounds it. */
  lemma SizesAreRead(
    input: string, whole: string, frac: string, junk: string, number: string, spaces: string, e: nat, i: bool, b: bool)
    requires IsNumber(number, whole, frac, junk)
    requires IsSize(ToLower(Trim(input)), number, spaces, e, i, b)
    ensures ParseBytes(input).Some? && IsNearest(ParseBytes(input).value, whole, frac, e)
  {
    var s := ToLower(Trim(input));
    NumberIsThere(s, whole, frac, junk, number, spaces, e, i, b);
    BytesOfText(input, s);
    PartsOfSize(s, whole, frac, junk, number, spaces, e, i, b);
    NumberIsRead(number, whole, frac, junk);
    ValueIsNearest(ParseFloat(number), whole, frac, e);
  }

  lemma SizeIsNotEmpty(s: string, number: string, spaces: string, e: nat, i: bool, b: bool)
    requires IsSize(s, number, spaces, e, i, b) && number != ""
    ensures s != ""
  {
  }

  lemma LoneNumber(s: string, number: string, spaces: string, e: nat, i: bool, b: bool)
    requires IsSize(s, number, spaces, e, i, b) && number != "" && IsZero(s)
    ensures number == ['0']
  {
    assert |s| == |number| + |spaces| + |UnitText(e, i, b)|;
    assert s[0] == number[0];
  }

  lemma ZeroIsZero(whole: string, frac: string, junk: string, number: string, e: nat)
    requires IsNumber(number, whole, frac, junk) && number == ['0'] && e <= 5
    ensures IsNearest(0, whole, frac, e)
  {
    assert |whole + "." + frac + junk| == |whole| + 1 + |frac| + |junk|;
    assert (whole + "." + frac + junk)[|whole|] == '.';
    assert whole == ['0'] && frac == "";
    NumberOfOneMore("", '0');
    assert "" + ['0'] == ['0'] && whole + frac == ['0'];
    NothingRoundsToZero(Pow10(|frac|), UnitBytes(e));
  }

  lemma NothingRoundsToZero(p: nat, u: nat)
    requires p > 0
    ensures IsRounded(0, 0 * u, p)
  {
  }

  lemma OnlyLabelsAreRead(s: string)
    returns (whole: string, frac: string, junk: string, number: string, spaces: string, e: nat, i: bool, b: bool)
    requires ParseLabel(s).Some?
    ensures IsNumber(number, whole, frac, junk) && IsSize(s, number, spaces, e, i, b)
  {
    number := NumeralPrefix(s);
    var rest := s[|number|..];
    var tail := TrimLeft(rest);
    spaces := rest[..|rest| - |tail|];
    ReadParts(s, number, tail);
    e := UnitLetter(tail);
    i, b := OnlyUnitsAreRead(tail);
    NumeralPrefixIsNumeral(s);
    whole, frac, junk := OnlyNumbersAreRead(number);
    Pieces(s, number, rest, spaces, tail);
  }

  lemma ReadParts(s: string, number: string, tail: string)
    requires number == NumeralPrefix(s) && tail == TrimLeft(s[|number|..]) && ParseLabel(s).Some?
    ensures AfterUnit(tail) == "" && ParseFloat(number).Some?
  {
  }

  lemma Pieces(s: string, number: string, rest: string, spaces: string, tail: string)
    requires |number| <= |s| && number == s[..|number|] && rest == s[|number|..]
    requires |tail| <= |rest| && tail == rest[|rest| - |tail|..] && spaces == rest[..|rest| - |tail|]
    ensures s == number + spaces + tail
  {
    assert s == number + rest && rest == spaces + tail;
  }

  /** And nothing else but the empty text, which is no limit. */
  lemma OnlySizesAreRead(input: string)
    returns (whole: string, frac: string, junk: string, number: string, spaces: string, e: nat, i: bool, b: bool)
    requires ParseBytes(input).Some? && Trim(input) != ""
    ensures IsNumber(number, whole, frac, junk) && IsSize(ToLower(Trim(input)), number, spaces, e, i, b)
  {
    var s := ToLower(Trim(input));
    BytesOfText(input, s);
    if IsZero(s) {
      whole, frac, junk, number, spaces, e, i, b := ['0'], "", "", ['0'], "", 0, false, false;
      assert s == number + spaces + UnitText(e, i, b);
    } else {
      whole, frac, junk, number, spaces, e, i, b := OnlyLabelsAreRead(s);
    }
  }

  lemma EmptyIsNoLimit(input: string)
    requires Trim(input) == ""
    ensures ParseBytes(input) == Some(0)
  {
  }
}
