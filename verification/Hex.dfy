/** Base16 as the `hex` crate reads and writes it (section 8 of RFC 4648). */
module Hex {
  import opened GatewayTypes

  type Nibble = x: int | 0 <= x < 16

  predicate IsHexDigit(c: char) {
    '0' <= c <= '9' || 'a' <= c <= 'f' || 'A' <= c <= 'F'
  }

  predicate AllHex(s: string) {
    forall i :: 0 <= i < |s| ==> IsHexDigit(s[i])
  }

  function Value(c: char): Nibble
    requires IsHexDigit(c)
  {
    if '0' <= c <= '9' then c as int - '0' as int
    else if 'a' <= c <= 'f' then c as int - 'a' as int + 10
    else c as int - 'A' as int + 10
  }

  function Digit(v: Nibble, upper: bool): char {
    if v < 10 then ('0' as int + v) as char
    else if upper then ('A' as int + v - 10) as char
    else ('a' as int + v - 10) as char
  }

  function Encode(b: Bytes, upper: bool): string {
    if b == [] then ""
    else [Digit(b[0] / 16, upper), Digit(b[0] % 16, upper)] + Encode(b[1..], upper)
  }

  function Decode(s: string): Option<Bytes> {
    if s == "" then Some([])
    else if |s| == 1 || !IsHexDigit(s[0]) || !IsHexDigit(s[1]) then None
    else
      match Decode(s[2..])
      case None => None
      case Some(rest) => Some([Value(s[0]) * 16 + Value(s[1])] + rest)
  }

  /** The text with every upper-case hexadecimal letter replaced by its lower-case form. */
  function ToLower(s: string): string {
    seq(|s|, i requires 0 <= i < |s| =>
      if 'A' <= s[i] <= 'F' then (s[i] as int - 'A' as int + 'a' as int) as char else s[i])
  }

  lemma {:induction false} EncodeShape(b: Bytes, upper: bool)
    ensures |Encode(b, upper)| == 2 * |b|
    ensures AllHex(Encode(b, upper))
  {
    if b != [] {
      EncodeShape(b[1..], upper);
    }
  }

  /** The digits of table 5 of RFC 4648, in either case. */
  function Table(upper: bool): string {
    if upper then "0123456789ABCDEF" else "0123456789abcdef"
  }

  lemma DigitIsTabled(v: Nibble, upper: bool)
    ensures |Table(upper)| == 16 && Digit(v, upper) == Table(upper)[v]
  {
    var i: int := v;
    assert i < 10 ==> Table(upper)[i] == ('0' as int + i) as char;
  }

  /** Byte i is written as its two digits, high one first. */
  lemma {:induction false} EncodeDigits(b: Bytes, upper: bool, i: nat)
    requires i < |b|
    ensures |Encode(b, upper)| == 2 * |b|
    ensures Encode(b, upper)[2 * i] == Digit(b[i] / 16, upper)
    ensures Encode(b, upper)[2 * i + 1] == Digit(b[i] % 16, upper)
  {
    EncodeShape(b, upper);
    if i > 0 {
      EncodeDigits(b[1..], upper, i - 1);
      assert Encode(b, upper)[2..] == Encode(b[1..], upper);
    }
  }

  lemma {:induction false} RoundTrip(b: Bytes, upper: bool)
    ensures Decode(Encode(b, upper)) == Some(b)
  {
    if b != [] {
      var s := Encode(b, upper);
      assert s[2..] == Encode(b[1..], upper);
      RoundTrip(b[1..], upper);
      assert Value(s[0]) == b[0] / 16 && Value(s[1]) == b[0] % 16;
      assert b == [b[0]] + b[1..];
    }
  }

  lemma AllHexSplit(s: string)
    requires |s| >= 2
    ensures AllHex(s) <==> IsHexDigit(s[0]) && IsHexDigit(s[1]) && AllHex(s[2..])
  {
    if AllHex(s[2..]) && IsHexDigit(s[0]) && IsHexDigit(s[1]) {
      forall i | 0 <= i < |s| ensures IsHexDigit(s[i]) {
        if i >= 2 {
          assert s[2..][i - 2] == s[i];
        }
      }
    }
  }

  /** Decoding succeeds exactly on hexadecimal text of even length, and halves it. */
  lemma {:induction false} DecodeDomain(s: string)
    ensures Decode(s).Some? <==> |s| % 2 == 0 && AllHex(s)
    ensures Decode(s).Some? ==> |s| == 2 * |Decode(s).value|
  {
    if |s| >= 2 {
      DecodeDomain(s[2..]);
      AllHexSplit(s);
    }
  }

  lemma LowerPair(c: char, d: char)
    requires IsHexDigit(c) && IsHexDigit(d)
    ensures var v: int := Value(c) as int * 16 + Value(d);
      ToLower([c, d]) == [Digit(v / 16, false), Digit(v % 16, false)]
  {
    var v: int := Value(c) as int * 16 + Value(d);
    assert v / 16 == Value(c) && v % 16 == Value(d);
  }

  /** What is decoded is the meaning of the text: up to letter case, the text is
      the encoding of the result. */
  lemma {:induction false} DecodeSound(s: string)
    requires Decode(s).Some?
    ensures ToLower(s) == Encode(Decode(s).value, false)
  {
    if s != "" {
      var b := Decode(s).value;
      calc {
        ToLower(s);
        ToLower([s[0], s[1]]) + ToLower(s[2..]);
        { LowerPair(s[0], s[1]); }
        [Digit(b[0] / 16, false), Digit(b[0] % 16, false)] + ToLower(s[2..]);
        { DecodeSound(s[2..]); assert b[1..] == Decode(s[2..]).value; }
        [Digit(b[0] / 16, false), Digit(b[0] % 16, false)] + Encode(b[1..], false);
        Encode(b, false);
      }
    }
  }
}
