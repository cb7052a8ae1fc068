/** Base64 with the strictness of the `base64` crate's STANDARD and URL_SAFE_NO_PAD
    engines: sections 4 and 5 of RFC 4648, with canonical padding for the first, no
    padding for the second, and zero trailing bits for both (section 3.5). */
module Base64 {
  import opened GatewayTypes

  datatype Alphabet = Standard | UrlSafe

  type Sextet = x: int | 0 <= x < 64

  const PAD: char := '='

  function Digit(a: Alphabet, v: Sextet): char {
    if v < 26 then ('A' as int + v) as char
    else if v < 52 then ('a' as int + v - 26) as char
    else if v < 62 then ('0' as int + v - 52) as char
    else if v == 62 then (if a == Standard then '+' else '-')
    else (if a == Standard then '/' else '_')
  }

  predicate IsDigit(a: Alphabet, c: char) {
    || 'A' <= c <= 'Z'
    || 'a' <= c <= 'z'
    || '0' <= c <= '9'
    || c == (if a == Standard then '+' else '-')
    || c == (if a == Standard then '/' else '_')
  }

  predicate AllDigits(a: Alphabet, s: string) {
    forall i :: 0 <= i < |s| ==> IsDigit(a, s[i])
  }

  function Value(a: Alphabet, c: char): Sextet
    requires IsDigit(a, c)
  {
    if 'A' <= c <= 'Z' then c as int - 'A' as int
    else if 'a' <= c <= 'z' then c as int - 'a' as int + 26
    else if '0' <= c <= '9' then c as int - '0' as int + 52
    else if c == '+' || c == '-' then 62
    else 63
  }

  // ----- bytes as six-bit groups -----

  function Group(b: Bytes): seq<Sextet> {
    if |b| == 0 then []
    else if |b| == 1 then [b[0] / 4, b[0] % 4 * 16]
    else if |b| == 2 then [b[0] / 4, b[0] % 4 * 16 + b[1] / 16, b[1] % 16 * 4]
    else [b[0] / 4, b[0] % 4 * 16 + b[1] / 16, b[1] % 16 * 4 + b[2] / 64, b[2] % 64] + Group(b[3..])
  }

  /** The bytes of a sequence of groups; None when a single group is left over or
      the last group has a non-zero trailing bit. */
  function Ungroup(v: seq<Sextet>): Option<Bytes> {
    if |v| == 0 then
      Some([])
    else if |v| == 1 then
      None
    else
      var p: int, q: int := v[0], v[1];
      var x: Byte := p * 4 + q / 16;
      if |v| == 2 then
        if q % 16 != 0 then None else Some([x])
      else
        var r: int := v[2];
        var y: Byte := q % 16 * 16 + r / 4;
        if |v| == 3 then
          if r % 4 != 0 then None else Some([x, y])
        else
          var z: Byte := r % 4 * 64 + v[3];
          match Ungroup(v[4..])
          case None => None
          case Some(rest) => Some([x, y, z] + rest)
  }

  /** Number of groups that carry n bytes. */
  function GroupCount(n: nat): nat {
    n / 3 * 4 + (if n % 3 == 0 then 0 else n % 3 + 1)
  }

  lemma {:induction false} GroupLength(b: Bytes)
    ensures |Group(b)| == GroupCount(|b|)
  {
    if |b| >= 3 {
      GroupLength(b[3..]);
    }
  }

  lemma TripleInverse(x: Byte, y: Byte, z: Byte)
    ensures var p, q, r, t := x / 4, x % 4 * 16 + y / 16, y % 16 * 4 + z / 64, z % 64;
      && p * 4 + q / 16 == x && q % 16 * 16 + r / 4 == y && r % 4 * 64 + t == z
  {
  }

  lemma {:induction false} GroupUngroup(b: Bytes)
    ensures Ungroup(Group(b)) == Some(b)
  {
    if |b| >= 3 {
      GroupUngroup(b[3..]);
      TripleInverse(b[0], b[1], b[2]);
      assert Group(b)[4..] == Group(b[3..]);
      assert b == [b[0], b[1], b[2]] + b[3..];
    } else if |b| == 2 {
      TripleInverse(b[0], b[1], 0);
      assert b == [b[0], b[1]];
    } else if |b| == 1 {
      TripleInverse(b[0], 0, 0);
      assert b == [b[0]];
    }
  }

  lemma QuadInverse(p: Sextet, q: Sextet, r: Sextet, t: Sextet)
    ensures var x, y, z := p * 4 + q / 16, q % 16 * 16 + r / 4, r % 4 * 64 + t;
      && x / 4 == p && x % 4 * 16 + y / 16 == q && y % 16 * 4 + z / 64 == r && z % 64 == t
  {
  }

  lemma {:induction false} UngroupGroup(v: seq<Sextet>)
    requires Ungroup(v).Some?
    ensures Group(Ungroup(v).value) == v
  {
    if |v| >= 4 {
      UngroupGroup(v[4..]);
      var b := Ungroup(v).value;
      assert b[3..] == Ungroup(v[4..]).value;
      QuadInverse(v[0], v[1], v[2], v[3]);
      assert v == [v[0], v[1], v[2], v[3]] + v[4..];
    } else if |v| == 3 {
      QuadInverse(v[0], v[1], v[2], 0);
    } else if |v| == 2 {
      QuadInverse(v[0], v[1], 0, 0);
    }
  }

  /** The number that bytes, most significant first, append to what came before them. */
  function ByteNumber(before: nat, b: Bytes): nat
    decreases |b|
  {
    if b == [] then before else ByteNumber(before * 256 + b[0], b[1..])
  }

  /** The number that six-bit groups append to what came before them. */
  function GroupNumber(before: nat, v: seq<Sextet>): nat
    decreases |v|
  {
    if v == [] then before else GroupNumber(before * 64 + v[0], v[1..])
  }

  function Append3(before: nat, x: nat, y: nat, z: nat): nat {
    before * 0x100_0000 + x * 0x1_0000 + y * 0x100 + z
  }

  function Append4(before: nat, p: nat, q: nat, r: nat, t: nat): nat {
    before * 0x100_0000 + p * 0x4_0000 + q * 0x1000 + r * 0x40 + t
  }

  /** The number shifted by the zero bits that fill the last group of n bytes. */
  function Filled(number: nat, n: nat): nat {
    if n % 3 == 1 then number * 16 else if n % 3 == 2 then number * 4 else number
  }

  lemma TailNumber(before: nat, b: Bytes)
    requires |b| == 2
    ensures GroupNumber(before, Group(b)) == ByteNumber(before, b) * 4
  {
    var x: nat, y: nat := b[0], b[1];
    var v := Group(b);
    var v1, v2 := v[1..], v[2..];
    assert b[1..][1..] == [] && v1[1..] == v2 && v2[1..] == [];
    assert ByteNumber(before, b) == ByteNumber(before * 256 + x, b[1..]) == (before * 256 + x) * 256 + y;
    var n1: nat := before * 64 + v[0];
    var n2: nat := n1 * 64 + v[1];
    assert GroupNumber(before, v) == GroupNumber(n1, v1) == GroupNumber(n2, v2) == n2 * 64 + v[2];
  }

  lemma LastByteNumber(before: nat, b: Bytes)
    requires |b| == 1
    ensures GroupNumber(before, Group(b)) == ByteNumber(before, b) * 16
  {
    var x: nat := b[0];
    var v := Group(b);
    assert b[1..] == [] && v[1..][1..] == [];
    assert ByteNumber(before, b) == before * 256 + x;
    var n: nat := before * 64 + v[0];
    assert GroupNumber(before, v) == GroupNumber(n, v[1..]) == n * 64 + v[1];
  }

  lemma ThreeBytes(before: nat, b: Bytes)
    requires |b| >= 3
    ensures ByteNumber(before, b) == ByteNumber(Append3(before, b[0], b[1], b[2]), b[3..])
  {
    assert b[1..][1..] == b[2..] && b[2..][1..] == b[3..];
    assert ByteNumber(before * 256 + b[0], b[1..]) == ByteNumber((before * 256 + b[0]) * 256 + b[1], b[2..]);
  }

  lemma FourGroups(before: nat, v: seq<Sextet>)
    requires |v| >= 4
    ensures GroupNumber(before, v) == GroupNumber(Append4(before, v[0], v[1], v[2], v[3]), v[4..])
  {
    var v1, v2, v3 := v[1..], v[2..], v[3..];
    assert v1[1..] == v2 && v2[1..] == v3 && v3[1..] == v[4..];
    var n1: nat := before * 64 + v[0];
    var n2: nat := n1 * 64 + v[1];
    var n3: nat := n2 * 64 + v[2];
    assert GroupNumber(n1, v1) == GroupNumber(n2, v2);
    assert GroupNumber(n2, v2) == GroupNumber(n3, v3);
  }

  lemma QuadNumber(before: nat, x: nat, y: nat, z: nat)
    requires x < 256 && y < 256 && z < 256
    ensures Append4(before, x / 4, x % 4 * 16 + y / 16, y % 16 * 4 + z / 64, z % 64) == Append3(before, x, y, z)
  {
  }

  lemma RegroupThree(before: nat, b: Bytes)
    requires |b| >= 3
    ensures GroupNumber(before, Group(b)) == GroupNumber(Append3(before, b[0], b[1], b[2]), Group(b[3..]))
  {
    FourGroups(before, Group(b));
    QuadNumber(before, b[0], b[1], b[2]);
    assert Group(b)[4..] == Group(b[3..]);
  }

  lemma FilledByLastGroup(number: nat, n: nat)
    requires n >= 3
    ensures Filled(number, n - 3) == Filled(number, n)
  {
  }

  /** Regrouping is a change of base: read in base 64, the groups are the number the
      bytes are in base 256, shifted by the zero bits that fill the last group. */
  lemma {:induction false} GroupIsPositional(before: nat, b: Bytes)
    ensures GroupNumber(before, Group(b)) == Filled(ByteNumber(before, b), |b|)
    decreases |b|
  {
    if |b| >= 3 {
      var next := Append3(before, b[0], b[1], b[2]);
      calc {
        GroupNumber(before, Group(b));
        { RegroupThree(before, b); }
        GroupNumber(next, Group(b[3..]));
        { GroupIsPositional(next, b[3..]); }
        Filled(ByteNumber(next, b[3..]), |b| - 3);
        { ThreeBytes(before, b); FilledByLastGroup(ByteNumber(before, b), |b|); }
        Filled(ByteNumber(before, b), |b|);
      }
    } else if |b| == 2 {
      TailNumber(before, b);
    } else if |b| == 1 {
      LastByteNumber(before, b);
    }
  }

  const UPPER := "ABCDEFGHIJKLMNOPQRSTUVWXYZ"
  const LOWER := "abcdefghijklmnopqrstuvwxyz"
  const DECIMAL := "0123456789"

  /** The alphabet as tables 1 and 2 of RFC 4648 print it. */
  function Table(a: Alphabet): string {
    UPPER + LOWER + DECIMAL + (if a == Standard then "+/" else "-_")
  }

  lemma DigitIsTabled(a: Alphabet, v: Sextet)
    ensures |Table(a)| == 64 && Digit(a, v) == Table(a)[v]
  {
    var i: int := v;
    if i < 26 {
      assert Table(a)[i] == UPPER[i];
      assert UPPER[i] == ('A' as int + i) as char;
    } else if i < 52 {
      assert Table(a)[i] == LOWER[i - 26];
      assert LOWER[i - 26] == ('a' as int + (i - 26)) as char;
    } else if i < 62 {
      assert Table(a)[i] == DECIMAL[i - 52];
      assert DECIMAL[i - 52] == ('0' as int + (i - 52)) as char;
    }
  }

  // ----- text -----

  function Text(a: Alphabet, v: seq<Sextet>): string {
    seq(|v|, i requires 0 <= i < |v| => Digit(a, v[i]))
  }

  function Sextets(a: Alphabet, s: string): seq<Sextet>
    requires AllDigits(a, s)
  {
    seq(|s|, i requires 0 <= i < |s| => Value(a, s[i]))
  }

  lemma TextSextets(a: Alphabet, v: seq<Sextet>)
    ensures AllDigits(a, Text(a, v)) && Sextets(a, Text(a, v)) == v
  {
  }

  lemma SextetsText(a: Alphabet, s: string)
    requires AllDigits(a, s)
    ensures Text(a, Sextets(a, s)) == s
  {
  }

  /** Unpadded encoding, as URL_SAFE_NO_PAD writes it. */
  function Encode(a: Alphabet, b: Bytes): string {
    Text(a, Group(b))
  }

  /** Unpadded decoding, as URL_SAFE_NO_PAD reads it. */
  function Decode(a: Alphabet, s: string): Option<Bytes> {
    if AllDigits(a, s) then Ungroup(Sextets(a, s)) else None
  }

  function Padding(n: nat): string {
    if n % 3 == 0 then "" else if n % 3 == 1 then [PAD, PAD] else [PAD]
  }

  /** Padded encoding, as STANDARD writes it. */
  function EncodePadded(a: Alphabet, b: Bytes): string {
    Encode(a, b) + Padding(|b|)
  }

  /** Number of padding characters, at most two, that end the text. */
  function PadCount(s: string): (n: nat)
    ensures n <= 2 && n <= |s|
    ensures forall i :: |s| - n <= i < |s| ==> s[i] == PAD
  {
    if |s| > 0 && s[|s| - 1] == PAD then
      if |s| > 1 && s[|s| - 2] == PAD then 2 else 1
    else 0
  }

  /** Padded decoding, as STANDARD reads it: whole groups of four characters, and
      no digit after the padding. */
  function DecodePadded(a: Alphabet, s: string): Option<Bytes> {
    if |s| % 4 != 0 then None else Decode(a, s[..|s| - PadCount(s)])
  }

  // ----- encoding and decoding are inverse -----

  lemma EncodeShape(a: Alphabet, b: Bytes)
    ensures |Encode(a, b)| == GroupCount(|b|)
    ensures AllDigits(a, Encode(a, b))
  {
    GroupLength(b);
    TextSextets(a, Group(b));
  }

  lemma RoundTrip(a: Alphabet, b: Bytes)
    ensures Decode(a, Encode(a, b)) == Some(b)
  {
    TextSextets(a, Group(b));
    GroupUngroup(b);
  }

  /** Unpadded decoding accepts canonical text only: one text for each value. */
  lemma DecodeCanonical(a: Alphabet, s: string)
    requires Decode(a, s).Some?
    ensures Encode(a, Decode(a, s).value) == s
  {
    UngroupGroup(Sextets(a, s));
    SextetsText(a, s);
  }

  lemma EvenByFour(n: nat)
    requires n % 4 == 0
    ensures n % 2 == 0
  {
    var half := 2 * (n / 4) - n / 2;
    assert n % 2 == 2 * half;
    assert 0 <= half < 1;
  }

  lemma UnpaddedText(a: Alphabet, s: string)
    requires s == "" || s[|s| - 1] != PAD
    ensures DecodePadded(a, s).Some? ==> |s| % 2 == 0 && DecodePadded(a, s) == Decode(a, s)
  {
    if |s| % 4 == 0 {
      EvenByFour(|s|);
      assert s[..|s| - PadCount(s)] == s;
    }
  }

  lemma PadsCounted(a: Alphabet, s: string, n: nat)
    requires AllDigits(a, s) && (n % 3 != 0 ==> s != "")
    ensures PadCount(s + Padding(n)) == |Padding(n)|
  {
    var t := s + Padding(n);
    if s != "" {
      assert IsDigit(a, s[|s| - 1]) && t[|s| - 1] == s[|s| - 1];
    }
    assert n % 3 == 0 ==> t == s;
  }

  lemma EncodePaddedShape(a: Alphabet, b: Bytes)
    ensures |EncodePadded(a, b)| % 4 == 0
    ensures PadCount(EncodePadded(a, b)) == |Padding(|b|)|
  {
    EncodeShape(a, b);
    PadsCounted(a, Encode(a, b), |b|);
  }

  /** Padded text as RFC 4648 shows it: whole groups of four, made of the table's digits
      but for the equals signs that fill the last group. */
  lemma PaddedShape(a: Alphabet, b: Bytes)
    ensures |EncodePadded(a, b)| == (|b| + 2) / 3 * 4
    ensures forall i :: 0 <= i < |EncodePadded(a, b)| - (3 - |b| % 3) % 3 ==> EncodePadded(a, b)[i] in Table(a)
    ensures forall i :: |EncodePadded(a, b)| - (3 - |b| % 3) % 3 <= i < |EncodePadded(a, b)| ==>
      EncodePadded(a, b)[i] == '='
  {
    var digits := Group(b);
    GroupLength(b);
    assert |Padding(|b|)| == (3 - |b| % 3) % 3 by {
      assert |b| % 3 in {0, 1, 2};
    }
    assert GroupCount(|b|) + (3 - |b| % 3) % 3 == (|b| + 2) / 3 * 4;
    forall i | 0 <= i < |digits| ensures EncodePadded(a, b)[i] in Table(a) {
      DigitIsTabled(a, digits[i]);
      assert EncodePadded(a, b)[i] == Encode(a, b)[i] == Digit(a, digits[i]);
    }
  }

  lemma PaddedRoundTrip(a: Alphabet, b: Bytes)
    ensures DecodePadded(a, EncodePadded(a, b)) == Some(b)
  {
    EncodePaddedShape(a, b);
    var s := EncodePadded(a, b);
    assert s[..|s| - PadCount(s)] == Encode(a, b);
    RoundTrip(a, b);
  }

  lemma PaddingLength(n: nat, pad: nat)
    requires pad <= 2 && (GroupCount(n) + pad) % 4 == 0
    ensures |Padding(n)| == pad
  {
  }

  /** Padded decoding accepts canonical text only. */
  lemma PaddedDecodeCanonical(a: Alphabet, s: string)
    requires DecodePadded(a, s).Some?
    ensures EncodePadded(a, DecodePadded(a, s).value) == s
  {
    var n := |s| - PadCount(s);
    var b := DecodePadded(a, s).value;
    DecodeCanonical(a, s[..n]);
    assert n == GroupCount(|b|) by {
      EncodeShape(a, b);
    }
    PaddingLength(|b|, PadCount(s));
    assert s[n..] == Padding(|b|);
    assert s == s[..n] + s[n..];
  }

  // ----- the two alphabets -----

  /** Text that both the padded standard and the unpadded URL-safe decoder accept
      means the same bytes to both. */
  lemma DecodersAgree(s: string)
    requires DecodePadded(Standard, s).Some? && Decode(UrlSafe, s).Some?
    ensures DecodePadded(Standard, s) == Decode(UrlSafe, s)
  {
    assert s != "" ==> IsDigit(UrlSafe, s[|s| - 1]);
    UnpaddedText(Standard, s);
    assert Sextets(Standard, s) == Sextets(UrlSafe, s);
  }
}
