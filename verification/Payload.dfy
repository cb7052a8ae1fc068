/** The payload decoder of the HTTP handlers, which reads three overlapping
    encodings by priority: hexadecimal, then padded base64, then unpadded base64url. */
module Payload {
  import opened GatewayTypes
  import Hex
  import Base64

  function DecodePayload(s: string): Option<Bytes> {
    if |s| % 2 == 0 && Hex.AllHex(s) then
      Hex.Decode(s)
    else
      match Base64.DecodePadded(Base64.Standard, s)
      case Some(b) => Some(b)
      case None => Base64.Decode(Base64.UrlSafe, s)
  }

  lemma HexBranch(s: string, b: Bytes)
    requires Hex.Decode(s) == Some(b)
    ensures DecodePayload(s) == Some(b)
  {
    Hex.DecodeDomain(s);
  }

  /** Hexadecimal text in either case, such as the signature of a sign response,
      is read back exactly. */
  lemma InvertsHex(b: Bytes, upper: bool)
    ensures DecodePayload(Hex.Encode(b, upper)) == Some(b)
  {
    Hex.RoundTrip(b, upper);
    HexBranch(Hex.Encode(b, upper), b);
  }

  lemma TwoCharacters(a: Base64.Alphabet, c: char, d: char)
    requires Hex.IsHexDigit(c) && Hex.IsHexDigit(d)
    ensures Base64.Decode(a, [c, d]) != Hex.Decode([c, d])
  {
    var s := [c, d];
    assert Hex.Decode(s) == Some([Hex.Value(c) * 16 + Hex.Value(d)]) by {
      assert s[2..] == "";
      var v: Byte := Hex.Value(c) as int * 16 + Hex.Value(d);
      assert [v] + [] == [v];
    }
    if Base64.Decode(a, s).Some? {
      assert Base64.Sextets(a, s) == [Base64.Value(a, c), Base64.Value(a, d)];
      assert Base64.Value(a, d) % 16 == 0;
      assert d == 'A' && Hex.Value(d) == 10;
      var p: int, h: int := Base64.Value(a, c), Hex.Value(c);
      assert Base64.Decode(a, s).value == [p * 4];
      assert p * 4 != h * 16 + 10;
    }
  }

  /** A text that is read as hexadecimal never means the same as base64, in either
      alphabet: the lengths differ, and for two characters the low nibbles do. */
  lemma HexShadowsBase64(a: Base64.Alphabet, s: string)
    requires |s| % 2 == 0 && Hex.AllHex(s) && s != ""
    requires Base64.Decode(a, s).Some?
    ensures Hex.Decode(s).Some? && Hex.Decode(s) != Base64.Decode(a, s)
  {
    Hex.DecodeDomain(s);
    var h, b := Hex.Decode(s).value, Base64.Decode(a, s).value;
    assert |s| == Base64.GroupCount(|b|) by {
      Base64.DecodeCanonical(a, s);
      Base64.EncodeShape(a, b);
    }
    if |h| == |b| {
      assert |s| == 2;
      TwoCharacters(a, s[0], s[1]);
      assert s == [s[0], s[1]];
    }
  }

  lemma HexIsUnpadded(s: string)
    requires Hex.AllHex(s) && Base64.DecodePadded(Base64.Standard, s).Some?
    ensures |s| % 2 == 0
    ensures Base64.Decode(Base64.Standard, s) == Base64.DecodePadded(Base64.Standard, s)
  {
    if s != "" {
      assert Hex.IsHexDigit(s[|s| - 1]);
    }
    Base64.UnpaddedText(Base64.Standard, s);
  }

  /** Padded base64 of b is read back exactly when its text is empty or shows a
      character that is not hexadecimal. */
  lemma InvertsPaddedIff(b: Bytes)
    ensures var s := Base64.EncodePadded(Base64.Standard, b);
      DecodePayload(s) == Some(b) <==> s == "" || !Hex.AllHex(s)
  {
    var s := Base64.EncodePadded(Base64.Standard, b);
    Base64.PaddedRoundTrip(Base64.Standard, b);
    if Hex.AllHex(s) && s != "" {
      HexIsUnpadded(s);
      HexShadowsBase64(Base64.Standard, s);
    }
  }

  /** Unpadded base64url of b is read back exactly when its text is empty, of odd
      length, or shows a character that is not hexadecimal. */
  lemma InvertsUrlSafeIff(b: Bytes)
    ensures var s := Base64.Encode(Base64.UrlSafe, b);
      DecodePayload(s) == Some(b) <==> s == "" || |s| % 2 == 1 || !Hex.AllHex(s)
  {
    var s := Base64.Encode(Base64.UrlSafe, b);
    Base64.RoundTrip(Base64.UrlSafe, b);
    if |s| % 2 == 0 && Hex.AllHex(s) {
      if s != "" {
        HexShadowsBase64(Base64.UrlSafe, s);
      }
    } else if Base64.DecodePadded(Base64.Standard, s).Some? {
      Base64.DecodersAgree(s);
    }
  }

  /** The shortest payload whose base64 is misread: three zero bytes are "AAAA",
      which the decoder takes for the two bytes 0xAA 0xAA. */
  lemma MisreadBase64()
    ensures Base64.EncodePadded(Base64.Standard, [0, 0, 0]) == "AAAA"
    ensures DecodePayload("AAAA") == Some([0xAA, 0xAA])
  {
    var b: Bytes := [0, 0, 0];
    assert b[3..] == [];
    assert Base64.Group(b) == [0, 0, 0, 0] + Base64.Group([]);
    var h: Bytes := [0xAA, 0xAA];
    assert h[1..] == [0xAA] && h[1..][1..] == [];
    assert Hex.Encode(h, true) == ['A', 'A'] + (['A', 'A'] + Hex.Encode([], true));
    assert Hex.Encode(h, true) == "AAAA";
    InvertsHex(h, true);
  }

  /** Every accepted text is the hexadecimal (in any letter case), padded base64 or
      unpadded base64url encoding of the bytes it is taken for. */
  lemma Sound(s: string)
    requires DecodePayload(s).Some?
    ensures var b := DecodePayload(s).value;
      || Hex.ToLower(s) == Hex.Encode(b, false)
      || s == Base64.EncodePadded(Base64.Standard, b)
      || s == Base64.Encode(Base64.UrlSafe, b)
  {
    if |s| % 2 == 0 && Hex.AllHex(s) {
      Hex.DecodeSound(s);
    } else if Base64.DecodePadded(Base64.Standard, s).Some? {
      Base64.PaddedDecodeCanonical(Base64.Standard, s);
    } else {
      Base64.DecodeCanonical(Base64.UrlSafe, s);
    }
  }

  /** The priority of the three encodings costs no text: a text is rejected exactly
      when all three decoders reject it, so the hexadecimal branch, once entered,
      never fails. */
  lemma RejectsIff(s: string)
    ensures DecodePayload(s) == None <==>
      && Hex.Decode(s) == None
      && Base64.DecodePadded(Base64.Standard, s) == None
      && Base64.Decode(Base64.UrlSafe, s) == None
  {
    Hex.DecodeDomain(s);
  }

  /** The order of the two base64 decoders is immaterial: after hexadecimal, trying
      base64url first gives the same result for every text. */
  lemma FallbackOrderHarmless(s: string)
    requires Hex.Decode(s) == None
    ensures DecodePayload(s) ==
      match Base64.Decode(Base64.UrlSafe, s)
      case Some(b) => Some(b)
      case None => Base64.DecodePadded(Base64.Standard, s)
  {
    Hex.DecodeDomain(s);
    if Base64.DecodePadded(Base64.Standard, s).Some? && Base64.Decode(Base64.UrlSafe, s).Some? {
      Base64.DecodersAgree(s);
    }
  }
}
