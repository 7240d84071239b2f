/** Hexadecimal text, as sessions.json spells digests. */
module Hex {
  import opened Wrappers

  type byte = b: int | 0 <= b < 256

  function HexChar(d: nat): char
    requires d < 16
  {
    if d < 10 then (d + '0' as int) as char else (d - 10 + 'a' as int) as char
  }

  /** hex.DecodeString accepts either case. */
  function HexValue(c: char): (v: Option<nat>)
    ensures v.Some? ==> v.value < 16
  {
    if '0' <= c <= '9' then Some(c as int - '0' as int)
    else if 'a' <= c <= 'f' then Some(c as int - 'a' as int + 10)
    else if 'A' <= c <= 'F' then Some(c as int - 'A' as int + 10)
    else None
  }

  function Encode(bytes: seq<byte>): string {
    if bytes == [] then "" else [HexChar(bytes[0] / 16), HexChar(bytes[0] % 16)] + Encode(bytes[1..])
  }

  function Decode(s: string): Option<seq<byte>> {
    if s == "" then Some([])
    else if |s| == 1 then None
    else
      match (HexValue(s[0]), HexValue(s[1]), Decode(s[2..]))
      case (Some(hi), Some(lo), Some(rest)) => Some([16 * hi + lo] + rest)
      case _ => None
  }

  lemma {:induction false} DecodeEncoded(bytes: seq<byte>)
    ensures Decode(Encode(bytes)) == Some(bytes)
  {
    if bytes != [] {
      DecodeEncoded(bytes[1..]);
      assert Encode(bytes)[2..] == Encode(bytes[1..]);
      assert bytes == [bytes[0]] + bytes[1..];
    }
  }

  /** The digit, in either case, of a number below sixteen. */
  predicate IsHexDigit(c: char, v: nat) {
    (v < 10 && c as int == '0' as int + v)
    || (10 <= v < 16 && (c as int == 'a' as int + v - 10 || c as int == 'A' as int + v - 10))
  }

  lemma HexValueIs(c: char, v: nat)
    ensures HexValue(c) == Some(v) <==> IsHexDigit(c, v)
  {
  }

  ghost predicate IsHex(c: char) {
    exists v: nat :: IsHexDigit(c, v)
  }

  ghost predicate AllHex(s: string) {
    forall i :: 0 <= i < |s| ==> IsHex(s[i])
  }

  lemma HexCharIs(c: char)
    ensures HexValue(c).Some? <==> IsHex(c)
  {
    if HexValue(c).Some? {
      HexValueIs(c, HexValue(c).value);
    } else if v: nat :| IsHexDigit(c, v) {
      HexValueIs(c, v);
    }
  }

  lemma AllHexFrom(s: string)
    requires |s| >= 2
    ensures AllHex(s) <==> IsHex(s[0]) && IsHex(s[1]) && AllHex(s[2..])
  {
    if AllHex(s[2..]) && IsHex(s[0]) && IsHex(s[1]) {
      forall i | 0 <= i < |s|
        ensures IsHex(s[i])
      {
        assert i >= 2 ==> s[i] == s[2..][i - 2];
      }
    }
  }

  /** Text decodes exactly when it is pairs of hexadecimal digits, two a byte. */
  lemma {:induction false} DecodesExactlyWhen(s: string)
    ensures Decode(s).Some? <==> |s| % 2 == 0 && AllHex(s)
    ensures Decode(s).Some? ==> |s| == 2 * |Decode(s).value|
  {
    if |s| >= 2 {
      DecodesExactlyWhen(s[2..]);
      HexCharIs(s[0]);
      HexCharIs(s[1]);
      AllHexFrom(s);
    }
  }

  /** The high digit comes first. */
  lemma {:induction false} DecodedAt(s: string, i: nat, hi: nat, lo: nat)
    requires Decode(s).Some? && i < |Decode(s).value|
    requires |s| == 2 * |Decode(s).value| && IsHexDigit(s[2 * i], hi) && IsHexDigit(s[2 * i + 1], lo)
    ensures Decode(s).value[i] == 16 * hi + lo
  {
    if i == 0 {
      HexValueIs(s[0], hi);
      HexValueIs(s[1], lo);
    } else {
      assert s[2..][2 * (i - 1)] == s[2 * i] && s[2..][2 * (i - 1) + 1] == s[2 * i + 1];
      DecodedAt(s[2..], i - 1, hi, lo);
    }
  }

  /** Digests are written in small letters. */
  lemma {:induction false} EncodedIsLower(bytes: seq<byte>)
    ensures |Encode(bytes)| == 2 * |bytes|
    ensures forall i :: 0 <= i < |Encode(bytes)| ==>
              '0' <= Encode(bytes)[i] <= '9' || 'a' <= Encode(bytes)[i] <= 'f'
  {
    if bytes != [] {
      EncodedIsLower(bytes[1..]);
    }
  }
}
