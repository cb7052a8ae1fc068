/** PEM framing: the two line-based body decoders of the software backend, the
    single-line printer of the cluster backend, and the wrapped form other tools
    write (sections 2 and 3 of RFC 7468). */
module Pem {
  import opened GatewayTypes
  import Base64

  const DASHES := "-----"

  // ----- lines -----

  /** Index of the first line feed, or the length of the text when it has none. */
  function FirstBreak(s: string): (i: nat)
    ensures i <= |s|
    ensures forall j :: 0 <= j < i ==> s[j] != '\n'
    ensures i < |s| ==> s[i] == '\n'
  {
    if s == "" || s[0] == '\n' then 0 else 1 + FirstBreak(s[1..])
  }

  function StripCarriageReturn(line: string): string {
    if line != "" && line[|line| - 1] == '\r' then line[..|line| - 1] else line
  }

  /** The lines of a text: a final line feed opens no further line, and a carriage
      return is dropped only in front of a line feed. */
  function Lines(s: string): seq<string> {
    if s == "" then []
    else
      var i := FirstBreak(s);
      if i == |s| then [s]
      else [StripCarriageReturn(s[..i])] + Lines(s[i + 1..])
  }

  predicate IsBoundary(line: string) {
    DASHES <= line
  }

  function BodyLines(lines: seq<string>): seq<string> {
    if lines == [] then []
    else if IsBoundary(lines[0]) then BodyLines(lines[1..])
    else [lines[0]] + BodyLines(lines[1..])
  }

  function Join(lines: seq<string>): string {
    if lines == [] then "" else lines[0] + Join(lines[1..])
  }

  function Body(pem: string): string {
    Join(BodyLines(Lines(pem)))
  }

  // ----- decoders -----

  function EcdsaPemToPkcs8Der(pem: string): HsmResult<Bytes> {
    match Base64.DecodePadded(Base64.Standard, Body(pem))
    case Some(der) => Success(der)
    case None => Failure(SigningFailed("ECDSA DER decode"))
  }

  function SpkiPemToDer(pem: string): HsmResult<Bytes> {
    match Base64.DecodePadded(Base64.Standard, Body(pem))
    case Some(der) => Success(der)
    case None => Failure(VerificationFailed("SPKI decode"))
  }

  // ----- printers -----

  function Begin(name: string): string { "-----BEGIN " + name + DASHES }

  function End(name: string): string { "-----END " + name + DASHES }

  /** The printer of `export_public_key_pem`: the whole body on one line. */
  function PrintPublicKey(der: Bytes): string {
    Begin("PUBLIC KEY") + "\n" + Base64.EncodePadded(Base64.Standard, der) + "\n" + End("PUBLIC KEY") + "\n"
  }

  /** Each line followed by the line ending. */
  function Render(lines: seq<string>, eol: string): string {
    if lines == [] then "" else lines[0] + eol + Render(lines[1..], eol)
  }

  function Wrap(text: string, width: nat): seq<string>
    requires width >= 1
  {
    if text == "" then []
    else if |text| <= width then [text]
    else [text[..width]] + Wrap(text[width..], width)
  }

  predicate IsLineEnding(eol: string) {
    eol == "\n" || eol == "\r\n"
  }

  /** A framed text whose body is split over lines in any way; the last line ending is optional. */
  function Framed(name: string, body: seq<string>, eol: string, lastEol: bool): string {
    Render([Begin(name)] + body, eol) + End(name) + (if lastEol then eol else "")
  }

  // ----- lemmas about lines -----

  /** A line that can be written out and found again: no line feed, no final carriage return. */
  predicate IsLine(line: string) {
    '\n' !in line && (line != "" ==> line[|line| - 1] != '\r')
  }

  lemma FirstBreakIs(s: string, i: nat)
    requires i < |s| && s[i] == '\n'
    requires forall j :: 0 <= j < i ==> s[j] != '\n'
    ensures FirstBreak(s) == i
  {
  }

  lemma LinesAt(s: string, i: nat)
    requires i < |s| && s[i] == '\n'
    requires forall j :: 0 <= j < i ==> s[j] != '\n'
    ensures Lines(s) == [StripCarriageReturn(s[..i])] + Lines(s[i + 1..])
  {
    FirstBreakIs(s, i);
  }

  lemma LineIsCut(before: string, rest: string)
    requires '\n' !in before
    ensures Lines(before + ['\n'] + rest) == [StripCarriageReturn(before)] + Lines(rest)
  {
    var s, i := before + ['\n'] + rest, |before|;
    assert forall j :: 0 <= j < i ==> s[j] == before[j];
    assert s[..i] == before && s[i + 1..] == rest;
    LinesAt(s, i);
  }

  lemma LinesStep(line: string, eol: string, rest: string)
    requires IsLine(line) && IsLineEnding(eol)
    ensures Lines(line + eol + rest) == [line] + Lines(rest)
  {
    var s := line + eol + rest;
    var i := |line| + |eol| - 1;
    var before := if eol == "\n" then line else line + ['\r'];
    assert s == before + ['\n'] + rest && |before| == i;
    LineIsCut(before, rest);
    assert StripCarriageReturn(before) == line;
  }

  lemma RenderStep(line: string, others: seq<string>, eol: string, rest: string)
    requires IsLine(line) && IsLineEnding(eol)
    ensures Lines(Render([line] + others, eol) + rest) == [line] + Lines(Render(others, eol) + rest)
  {
    var tail := Render(others, eol) + rest;
    assert Render([line] + others, eol) + rest == line + eol + tail by {
      assert ([line] + others)[1..] == others;
    }
    LinesStep(line, eol, tail);
  }

  lemma {:induction false} LinesRender(lines: seq<string>, eol: string, rest: string)
    requires IsLineEnding(eol)
    requires forall i :: 0 <= i < |lines| ==> IsLine(lines[i])
    ensures Lines(Render(lines, eol) + rest) == lines + Lines(rest)
  {
    if lines == [] {
      assert Render(lines, eol) + rest == rest;
    } else {
      var first, others := lines[0], lines[1..];
      calc {
        Lines(Render(lines, eol) + rest);
        { assert lines == [first] + others; }
        Lines(Render([first] + others, eol) + rest);
        { RenderStep(first, others, eol, rest); }
        [first] + Lines(Render(others, eol) + rest);
        { LinesRender(others, eol, rest); }
        [first] + (others + Lines(rest));
        lines + Lines(rest);
      }
    }
  }

  lemma LastLine(line: string, eol: string)
    requires IsLine(line) && line != "" && (IsLineEnding(eol) || eol == "")
    ensures Lines(line + eol) == [line]
  {
    if eol == "" {
      assert line + eol == line;
      assert FirstBreak(line) == |line|;
    } else {
      LinesStep(line, eol, "");
      assert line + eol + "" == line + eol;
    }
  }

  lemma BodyLinesSkip(first: string, lines: seq<string>)
    ensures BodyLines([first] + lines) ==
      if IsBoundary(first) then BodyLines(lines) else [first] + BodyLines(lines)
  {
    assert ([first] + lines)[1..] == lines;
  }

  lemma {:induction false} BodyLinesKeep(body: seq<string>, last: string)
    requires forall i :: 0 <= i < |body| ==> !IsBoundary(body[i])
    requires IsBoundary(last)
    ensures BodyLines(body + [last]) == body
  {
    if body == [] {
      assert body + [last] == [last];
    } else {
      BodyLinesKeep(body[1..], last);
      assert body + [last] == [body[0]] + (body[1..] + [last]);
      BodyLinesSkip(body[0], body[1..] + [last]);
    }
  }

  lemma {:induction false} JoinParts(lines: seq<string>, i: nat, j: nat)
    requires i < |lines| && j < |lines[i]|
    ensures lines[i][j] in Join(lines)
  {
    if i == 0 {
      assert Join(lines)[j] == lines[0][j];
    } else {
      JoinParts(lines[1..], i - 1, j);
      var k :| 0 <= k < |Join(lines[1..])| && Join(lines[1..])[k] == lines[i][j];
      assert Join(lines)[|lines[0]| + k] == lines[i][j];
    }
  }

  lemma {:induction false} JoinWrap(text: string, width: nat)
    requires width >= 1
    ensures Join(Wrap(text, width)) == text
  {
    if text == "" {
    } else if |text| <= width {
      assert Join([text]) == text;
    } else {
      JoinWrap(text[width..], width);
      assert Wrap(text, width)[1..] == Wrap(text[width..], width);
      assert text == text[..width] + text[width..];
    }
  }

  // ----- round trips -----

  /** Characters of standard base64 text, padding included: neither a dash nor a line break. */
  lemma EncodedCharacters(b: Bytes, c: char)
    requires c in Base64.EncodePadded(Base64.Standard, b)
    ensures c != '-' && c != '\n' && c != '\r'
  {
    Base64.EncodeShape(Base64.Standard, b);
    var s := Base64.Encode(Base64.Standard, b);
    if c in s {
      var i :| 0 <= i < |s| && s[i] == c;
      assert Base64.IsDigit(Base64.Standard, s[i]);
    } else {
      assert c in Base64.Padding(|b|);
    }
  }

  lemma EncodedPart(b: Bytes, body: seq<string>, i: nat)
    requires Join(body) == Base64.EncodePadded(Base64.Standard, b) && i < |body|
    ensures IsLine(body[i]) && !IsBoundary(body[i])
  {
    var line := body[i];
    forall c | c in line ensures c != '-' && c != '\n' && c != '\r' {
      var j :| 0 <= j < |line| && line[j] == c;
      JoinParts(body, i, j);
      EncodedCharacters(b, c);
    }
    if line != "" {
      assert line[0] in line && line[|line| - 1] in line;
      assert line[0] != DASHES[0];
    }
  }

  lemma BoundaryLine(head: string, name: string)
    requires '\n' !in name && '\n' !in head && DASHES <= head
    ensures IsLine(head + name + DASHES) && IsBoundary(head + name + DASHES)
  {
    var line := head + name + DASHES;
    forall i | 0 <= i < |line| ensures line[i] != '\n' {
      if i < |head| {
        assert line[i] == head[i];
      } else if i < |head| + |name| {
        assert line[i] == name[i - |head|];
      }
    }
    assert line[..5] == head[..5] == DASHES;
  }

  lemma Boundaries(name: string)
    requires '\n' !in name
    ensures IsLine(Begin(name)) && IsBoundary(Begin(name))
    ensures IsLine(End(name)) && IsBoundary(End(name))
  {
    BoundaryLine("-----BEGIN ", name);
    BoundaryLine("-----END ", name);
  }

  lemma LinesOfFramed(name: string, body: seq<string>, eol: string, lastEol: bool)
    requires '\n' !in name && IsLineEnding(eol)
    requires forall i :: 0 <= i < |body| ==> IsLine(body[i])
    ensures Lines(Framed(name, body, eol, lastEol)) == [Begin(name)] + (body + [End(name)])
  {
    var lines := [Begin(name)] + body;
    var last := End(name) + (if lastEol then eol else "");
    calc {
      Lines(Framed(name, body, eol, lastEol));
      { assert Framed(name, body, eol, lastEol) == Render(lines, eol) + last; }
      Lines(Render(lines, eol) + last);
      { Boundaries(name); LinesRender(lines, eol, last); }
      lines + Lines(last);
      { Boundaries(name); LastLine(End(name), if lastEol then eol else ""); }
      lines + [End(name)];
      [Begin(name)] + (body + [End(name)]);
    }
  }

  /** However the base64 text of b is cut into lines, framing it and taking the body
      gives it back: no base64 line is mistaken for a boundary, and joining undoes the cuts. */
  lemma BodyOfFramed(b: Bytes, name: string, body: seq<string>, eol: string, lastEol: bool)
    requires '\n' !in name && IsLineEnding(eol)
    requires Join(body) == Base64.EncodePadded(Base64.Standard, b)
    ensures Body(Framed(name, body, eol, lastEol)) == Base64.EncodePadded(Base64.Standard, b)
  {
    forall i | 0 <= i < |body| ensures IsLine(body[i]) && !IsBoundary(body[i]) {
      EncodedPart(b, body, i);
    }
    LinesOfFramed(name, body, eol, lastEol);
    Boundaries(name);
    var lines := [Begin(name)] + (body + [End(name)]);
    assert BodyLines(lines) == body by {
      BodyLinesSkip(Begin(name), body + [End(name)]);
      BodyLinesKeep(body, End(name));
    }
  }

  /** Both decoders recover every byte string from its text wrapped at any width,
      under any label without a line feed, with either line ending. */
  lemma WrappedRoundTrip(b: Bytes, name: string, width: nat, eol: string, lastEol: bool)
    requires '\n' !in name && IsLineEnding(eol) && width >= 1
    ensures var pem := Framed(name, Wrap(Base64.EncodePadded(Base64.Standard, b), width), eol, lastEol);
      EcdsaPemToPkcs8Der(pem) == Success(b) && SpkiPemToDer(pem) == Success(b)
  {
    var text := Base64.EncodePadded(Base64.Standard, b);
    JoinWrap(text, width);
    BodyOfFramed(b, name, Wrap(text, width), eol, lastEol);
    Base64.PaddedRoundTrip(Base64.Standard, b);
  }

  lemma SingleLineFrame(name: string, text: string, eol: string)
    ensures Begin(name) + eol + text + eol + End(name) + eol == Framed(name, [text], eol, true)
  {
    var first := Begin(name);
    assert Render([first] + [text], eol) == first + eol + (text + eol) by {
      assert ([first] + [text])[1..] == [text] && [text][1..] == [];
      assert Render([text], eol) == text + eol + Render([], eol);
    }
  }

  lemma SingleLineRoundTrip(name: string, b: Bytes)
    requires '\n' !in name
    ensures var pem := Begin(name) + "\n" + Base64.EncodePadded(Base64.Standard, b) + "\n" + End(name) + "\n";
      EcdsaPemToPkcs8Der(pem) == Success(b) && SpkiPemToDer(pem) == Success(b)
  {
    var text := Base64.EncodePadded(Base64.Standard, b);
    SingleLineFrame(name, text, "\n");
    assert [text][1..] == [];
    assert Join([text]) == text + Join([]);
    BodyOfFramed(b, name, [text], "\n", true);
    Base64.PaddedRoundTrip(Base64.Standard, b);
  }

  /** Both decoders invert the single-line printer, the empty byte string included. */
  lemma PrinterRoundTrip(der: Bytes)
    ensures EcdsaPemToPkcs8Der(PrintPublicKey(der)) == Success(der)
    ensures SpkiPemToDer(PrintPublicKey(der)) == Success(der)
  {
    SingleLineRoundTrip("PUBLIC KEY", der);
  }

  /** Nothing else is accepted: a text decodes to der exactly when its body is the
      canonical base64 of der, so a stray blank inside a body line is refused. */
  lemma DecodesIff(pem: string, der: Bytes)
    ensures SpkiPemToDer(pem) == Success(der) <==> Body(pem) == Base64.EncodePadded(Base64.Standard, der)
    ensures EcdsaPemToPkcs8Der(pem) == Success(der) <==> SpkiPemToDer(pem) == Success(der)
  {
    Base64.PaddedRoundTrip(Base64.Standard, der);
    if SpkiPemToDer(pem) == Success(der) {
      Base64.PaddedDecodeCanonical(Base64.Standard, Body(pem));
    }
  }

  // ----- the text itself -----

  lemma FrameLines()
    ensures Begin("PUBLIC KEY") == "-----BEGIN PUBLIC KEY-----" && End("PUBLIC KEY") == "-----END PUBLIC KEY-----"
  {
  }

  /** The printer's text, line by line. */
  lemma PrinterIsFramed(der: Bytes)
    ensures PrintPublicKey(der) ==
      "-----BEGIN PUBLIC KEY-----" + "\n" + Base64.EncodePadded(Base64.Standard, der) + "\n" +
      "-----END PUBLIC KEY-----" + "\n"
  {
    FrameLines();
  }

  /** Exactly the lines that begin with five dashes are boundaries. */
  lemma BoundaryIff(line: string)
    ensures IsBoundary(line) <==>
      |line| >= 5 && line[0] == line[1] == line[2] == line[3] == line[4] == '-'
  {
    if |line| >= 5 {
      assert DASHES <= line <==> forall i :: 0 <= i < 5 ==> DASHES[i] == line[i];
    }
  }

  /** How any text falls into lines: without a line feed it is one line, as it stands,
      unless it is empty. */
  lemma OneLine(line: string)
    requires '\n' !in line
    ensures Lines(line) == if line == "" then [] else [line]
  {
    assert FirstBreak(line) == |line|;
  }

  /** Otherwise it is cut at its first line feed, where one carriage return goes too. */
  lemma FirstLine(line: string, rest: string)
    requires '\n' !in line
    ensures Lines(line + ['\r', '\n'] + rest) == [line] + Lines(rest)
    ensures line == "" || line[|line| - 1] != '\r' ==> Lines(line + ['\n'] + rest) == [line] + Lines(rest)
  {
    LineIsCut(line, rest);
    LineIsCut(line + ['\r'], rest);
    assert line + ['\r', '\n'] + rest == line + ['\r'] + ['\n'] + rest;
  }

  /** Wrapping leaves no line longer than the width, and none shorter but the last. */
  lemma {:induction false} WrapWidths(text: string, width: nat, i: nat)
    requires width >= 1 && i < |Wrap(text, width)|
    ensures 1 <= |Wrap(text, width)[i]| <= width
    ensures i < |Wrap(text, width)| - 1 ==> |Wrap(text, width)[i]| == width
  {
    if |text| > width && i > 0 {
      WrapWidths(text[width..], width, i - 1);
    }
  }
}
