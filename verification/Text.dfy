/** Decimal text, trimming and case folding on byte strings, as the components share them. */
module Text {

  // ---- decimal numbers ----

  predicate IsDigit(c: char) {
    '0' <= c <= '9'
  }

  predicate AllDigits(s: string) {
    forall i :: 0 <= i < |s| ==> IsDigit(s[i])
  }

  function DigitValue(c: char): nat
    requires IsDigit(c)
  {
    c as int - '0' as int
  }

  function DigitChar(d: nat): (c: char)
    requires d < 10
    ensures IsDigit(c) && DigitValue(c) == d
  {
    (d + '0' as int) as char
  }

  /** The number a run of decimal digits denotes; leading zeros are allowed. */
  function NumberOf(s: string): nat
    requires AllDigits(s)
  {
    if s == "" then 0 else 10 * NumberOf(s[..|s| - 1]) + DigitValue(s[|s| - 1])
  }

  function Pow10(w: nat): (p: nat)
    ensures p > 0
  {
    if w == 0 then 1 else 10 * Pow10(w - 1)
  }

  /** Decimal spelling without leading zeros. */
  function Digits(n: nat): (s: string)
    ensures s != "" && AllDigits(s) && NumberOf(s) == n
  {
    if n < 10 then [DigitChar(n)]
    else
      var s := Digits(n / 10) + [DigitChar(n % 10)];
      assert s[..|s| - 1] == Digits(n / 10);
      s
  }

  /** Exactly w digits, for a number that fits. */
  function FixedDigits(n: nat, w: nat): (s: string)
    requires n < Pow10(w)
    ensures |s| == w && AllDigits(s) && NumberOf(s) == n
  {
    if w == 0 then ""
    else
      var s := FixedDigits(n / 10, w - 1) + [DigitChar(n % 10)];
      assert s[..|s| - 1] == FixedDigits(n / 10, w - 1);
      s
  }

  function TwoDigits(n: nat): (s: string)
    requires n < 100
    ensures |s| == 2 && AllDigits(s) && NumberOf(s) == n
  {
    assert Pow10(2) == 100;
    FixedDigits(n, 2)
  }

  /** Zero-padded to at least w digits, wider when the number needs it. */
  function PadInt(n: nat, w: nat): (s: string)
    ensures AllDigits(s) && NumberOf(s) == n
    ensures n < Pow10(w) ==> |s| == w
    ensures n >= Pow10(w) ==> |s| > w
  {
    if n < Pow10(w) then FixedDigits(n, w)
    else
      LongNumbersNeedRoom(Digits(n), w);
      Digits(n)
  }

  lemma {:induction false} LongNumbersNeedRoom(s: string, w: nat)
    requires AllDigits(s) && NumberOf(s) >= Pow10(w)
    ensures |s| > w
  {
    if w > 0 {
      LongNumbersNeedRoom(s[..|s| - 1], w - 1);
    }
  }

  // ---- trimming and case ----

  /** The ASCII white space that strings.TrimSpace and String.trim remove. */
  predicate IsSpace(c: char) {
    c == ' ' || '\t' <= c <= '\r'
  }

  function TrimLeft(s: string): (t: string)
    ensures t != "" ==> !IsSpace(t[0])
    ensures |t| <= |s| && t == s[|s| - |t|..]
    ensures forall i :: 0 <= i < |s| - |t| ==> IsSpace(s[i])
  {
    if s != "" && IsSpace(s[0]) then TrimLeft(s[1..]) else s
  }

  function TrimRight(s: string): (t: string)
    ensures t != "" ==> !IsSpace(t[|t| - 1])
    ensures |t| <= |s| && t == s[..|t|]
    ensures forall i :: |t| <= i < |s| ==> IsSpace(s[i])
  {
    if s != "" && IsSpace(s[|s| - 1]) then TrimRight(s[..|s| - 1]) else s
  }

  function Trim(s: string): (t: string)
    ensures t != "" ==> !IsSpace(t[0]) && !IsSpace(t[|t| - 1])
    ensures forall c :: c in t ==> c in s
    ensures |t| <= |s|
  {
    TrimRight(TrimLeft(s))
  }

  lemma TrimIsIdempotent(s: string)
    ensures Trim(Trim(s)) == Trim(s)
  {
    var t := Trim(s);
    if t != "" {
      assert TrimLeft(t) == t;
    }
  }

  /** A string without white space at either end is its own trim. */
  lemma TrimKeeps(s: string)
    requires s == "" || (!IsSpace(s[0]) && !IsSpace(s[|s| - 1]))
    ensures Trim(s) == s
  {
  }

  function LowerChar(c: char): char {
    if 'A' <= c <= 'Z' then (c as int + 32) as char else c
  }

  function UpperChar(c: char): char {
    if 'a' <= c <= 'z' then (c as int - 32) as char else c
  }

  function ToLower(s: string): (t: string)
    ensures |t| == |s|
  {
    seq(|s|, i requires 0 <= i < |s| => LowerChar(s[i]))
  }

  function ToUpper(s: string): (t: string)
    ensures |t| == |s|
  {
    seq(|s|, i requires 0 <= i < |s| => UpperChar(s[i]))
  }

  lemma ToUpperIsIdempotent(s: string)
    ensures ToUpper(ToUpper(s)) == ToUpper(s)
  {
  }

  predicate IsLower(s: string) {
    forall i :: 0 <= i < |s| ==> LowerChar(s[i]) == s[i]
  }

  lemma LowerKeeps(s: string)
    requires IsLower(s)
    ensures ToLower(s) == s
  {
  }

  lemma DigitsAreLower(d: string)
    requires AllDigits(d)
    ensures IsLower(d + " ")
  {
    forall i | 0 <= i < |d| + 1
      ensures LowerChar((d + " ")[i]) == (d + " ")[i]
    {
      assert (d + " ")[i] == if i < |d| then d[i] else ' ';
    }
  }

  lemma LowerJoins(s: string, t: string)
    requires IsLower(s) && IsLower(t)
    ensures IsLower(s + t)
  {
  }

  // ---- what trimming and folding mean ----

  /** The white space of ASCII: a space, a tab, a line feed, a vertical tab, a form feed, a carriage return. */
  lemma SpacesAre(c: char)
    ensures IsSpace(c) <==> c in [' ', '\t', '\n', '\U{b}', '\U{c}', '\r']
  {
  }

  predicate AllSpaces(s: string) {
    forall i :: 0 <= i < |s| ==> IsSpace(s[i])
  }

  lemma {:induction false} TrimLeftIs(a: string, s: string)
    requires AllSpaces(a) && (s == "" || !IsSpace(s[0]))
    ensures TrimLeft(a + s) == s
  {
    if a == "" {
      assert a + s == s;
    } else {
      assert (a + s)[1..] == a[1..] + s;
      TrimLeftIs(a[1..], s);
    }
  }

  lemma {:induction false} TrimRightIs(s: string, b: string)
    requires AllSpaces(b) && (s == "" || !IsSpace(s[|s| - 1]))
    ensures TrimRight(s + b) == s
  {
    if b == "" {
      assert s + b == s;
    } else {
      assert (s + b)[..|s + b| - 1] == s + b[..|b| - 1];
      TrimRightIs(s, b[..|b| - 1]);
    }
  }

  /** Trimming takes the white space off both ends and nothing else. */
  lemma TrimIs(a: string, s: string, b: string)
    requires AllSpaces(a) && AllSpaces(b) && (s == "" || (!IsSpace(s[0]) && !IsSpace(s[|s| - 1])))
    ensures Trim(a + s + b) == s
  {
    if s == "" {
      TrimLeftIs(a + s + b, "");
      assert a + s + b == (a + s + b) + "";
    } else {
      assert a + s + b == a + (s + b);
      TrimLeftIs(a, s + b);
      TrimRightIs(s, b);
    }
  }

  /** A capital and the small letter at the same place in the alphabet. */
  predicate IsPair(capital: char, small: char) {
    'A' <= capital <= 'Z' && small as int - 'a' as int == capital as int - 'A' as int
  }

  predicate SameLetter(c: char, d: char) {
    c == d || IsPair(c, d) || IsPair(d, c)
  }

  predicate SameButForCase(s: string, t: string) {
    |s| == |t| && forall i :: 0 <= i < |s| ==> SameLetter(s[i], t[i])
  }

  /** Two names that differ at most in surrounding white space and case. */
  predicate SameName(s: string, t: string) {
    SameButForCase(Trim(s), Trim(t))
  }

  lemma LowerChars(c: char, d: char)
    ensures LowerChar(c) == LowerChar(d) <==> SameLetter(c, d)
    ensures UpperChar(c) == UpperChar(d) <==> SameLetter(c, d)
  {
  }

  /** Folding to either case forgets the case of letters and nothing else. */
  lemma FoldingForgetsCase(s: string, t: string)
    ensures ToLower(s) == ToLower(t) <==> SameButForCase(s, t)
    ensures ToUpper(s) == ToUpper(t) <==> SameButForCase(s, t)
  {
    if |s| == |t| {
      forall i | 0 <= i < |s|
        ensures ToLower(s)[i] == ToLower(t)[i] <==> SameLetter(s[i], t[i])
        ensures ToUpper(s)[i] == ToUpper(t)[i] <==> SameLetter(s[i], t[i])
      {
        LowerChars(s[i], t[i]);
      }
      assert ToLower(s) == ToLower(t) <==> forall i :: 0 <= i < |s| ==> ToLower(s)[i] == ToLower(t)[i];
      assert ToUpper(s) == ToUpper(t) <==> forall i :: 0 <= i < |s| ==> ToUpper(s)[i] == ToUpper(t)[i];
    }
  }

  /** And leaves the same letters, all small or all capital. */
  lemma FoldedIsOneCase(s: string)
    ensures SameButForCase(s, ToLower(s)) && forall c :: c in ToLower(s) ==> !('A' <= c <= 'Z')
    ensures SameButForCase(s, ToUpper(s)) && forall c :: c in ToUpper(s) ==> !('a' <= c <= 'z')
  {
  }

  // ---- what decimal digits mean ----

  lemma NumberOfOneMore(s: string, c: char)
    requires AllDigits(s) && IsDigit(c)
    ensures AllDigits(s + [c]) && NumberOf(s + [c]) == 10 * NumberOf(s) + (c as int - '0' as int)
  {
    assert (s + [c])[..|s|] == s;
  }

  lemma Shifted(v: int, p: int, x: int, y: int)
    ensures 10 * (v * p + x) + y == v * (10 * p) + (10 * x + y)
  {
  }

  lemma FirstDigitOneMore(c: char, init: string, last: char)
    requires AllDigits([c] + init) && AllDigits(init) && IsDigit(last)
    requires NumberOf([c] + init) == (c as int - '0' as int) * Pow10(|init|) + NumberOf(init)
    ensures AllDigits([c] + (init + [last])) && AllDigits(init + [last])
    ensures NumberOf([c] + (init + [last]))
            == (c as int - '0' as int) * Pow10(|init| + 1) + NumberOf(init + [last])
  {
    assert [c] + (init + [last]) == ([c] + init) + [last];
    NumberOfOneMore(init, last);
    NumberOfOneMore([c] + init, last);
    Shifted(c as int - '0' as int, Pow10(|init|), NumberOf(init), last as int - '0' as int);
  }

  /** The first digit counts for the highest power of ten. */
  lemma {:induction false} FirstDigitIsHighest(c: char, s: string)
    requires IsDigit(c) && AllDigits(s)
    ensures AllDigits([c] + s) && NumberOf([c] + s) == (c as int - '0' as int) * Pow10(|s|) + NumberOf(s)
  {
    if s == "" {
      assert [c] + s == "" + [c];
      NumberOfOneMore("", c);
    } else {
      var init, last := s[..|s| - 1], s[|s| - 1];
      assert s == init + [last];
      FirstDigitIsHighest(c, init);
      FirstDigitOneMore(c, init, last);
    }
  }
}
