/** Resolution of the client address behind trusted proxies (`AppState::resolve_client_ip`). */
module ClientIp {
  import opened GatewayTypes
  import opened Cidr

  /** Unicode White_Space, which Rust's `trim` strips. */
  predicate IsWhitespace(c: char) {
    || '\U{0009}' <= c <= '\U{000D}' || c == ' ' || c == '\U{0085}' || c == '\U{00A0}'
    || c == '\U{1680}' || '\U{2000}' <= c <= '\U{200A}' || c == '\U{2028}' || c == '\U{2029}'
    || c == '\U{202F}' || c == '\U{205F}' || c == '\U{3000}'
  }

  const SPACES := "\U{0009}\U{000A}\U{000B}\U{000C}\U{000D} \U{0085}\U{00A0}\U{1680}"
    + "\U{2000}\U{2001}\U{2002}\U{2003}\U{2004}"
    + "\U{2005}\U{2006}\U{2007}\U{2008}\U{2009}\U{200A}\U{2028}\U{2029}\U{202F}\U{205F}\U{3000}"

  /** They are twenty-five characters. */
  lemma WhitespaceIs(c: char)
    ensures |SPACES| == 25 && (IsWhitespace(c) <==> c in SPACES)
  {
    assert forall i :: 0 <= i < |SPACES| ==> IsWhitespace(SPACES[i]);
    if IsWhitespace(c) {
      var n := c as int;
      var i :=
        if n <= 0x0D then n - 0x09
        else if n == 0x20 then 5 else if n == 0x85 then 6 else if n == 0xA0 then 7 else if n == 0x1680 then 8
        else if n <= 0x200A then n - 0x2000 + 9
        else if n == 0x2028 then 20 else if n == 0x2029 then 21
        else if n == 0x202F then 22 else if n == 0x205F then 23 else 24;
      assert SPACES[i] == c;
    }
  }

  predicate AllWhitespace(s: string) {
    forall i :: 0 <= i < |s| ==> IsWhitespace(s[i])
  }

  function TrimStart(s: string): string {
    if s != "" && IsWhitespace(s[0]) then TrimStart(s[1..]) else s
  }

  function TrimEnd(s: string): string {
    if s != "" && IsWhitespace(s[|s| - 1]) then TrimEnd(s[..|s| - 1]) else s
  }

  function Trim(s: string): string {
    TrimEnd(TrimStart(s))
  }

  /** The text before the first comma, or all of it. */
  function FirstEntry(s: string): string {
    if s == "" || s[0] == ',' then "" else [s[0]] + FirstEntry(s[1..])
  }

  function ResolveClientIp(
    parsers: Parsers, trustedProxies: seq<string>, peer: IpAddr, forwardedFor: Option<string>): IpAddr {
    if MatchesAny(parsers, trustedProxies, peer) then
      match forwardedFor
      case None => peer
      case Some(header) =>
        match parsers.ip(Trim(FirstEntry(header)))
        case Some(ip) => ip
        case None => peer
    else
      peer
  }

  // ----- first entry and trimming -----

  /** The first entry is the longest prefix without a comma. */
  lemma {:induction false} FirstEntryIs(s: string, entry: string, rest: string)
    requires ',' !in entry && (rest == "" || rest[0] == ',')
    requires s == entry + rest
    ensures FirstEntry(s) == entry
  {
    if entry == "" {
      assert s == rest;
    } else {
      assert s[1..] == entry[1..] + rest;
      FirstEntryIs(s[1..], entry[1..], rest);
    }
  }

  lemma {:induction false} TrimStartPrefix(pad: string, s: string)
    requires AllWhitespace(pad)
    ensures TrimStart(pad + s) == TrimStart(s)
  {
    if pad == "" {
      assert pad + s == s;
    } else {
      assert (pad + s)[1..] == pad[1..] + s;
      TrimStartPrefix(pad[1..], s);
    }
  }

  lemma {:induction false} TrimEndSuffix(s: string, pad: string)
    requires AllWhitespace(pad)
    ensures TrimEnd(s + pad) == TrimEnd(s)
  {
    if pad == "" {
      assert s + pad == s;
    } else {
      var t := s + pad;
      assert t[..|t| - 1] == s + pad[..|pad| - 1];
      TrimEndSuffix(s, pad[..|pad| - 1]);
    }
  }

  lemma {:induction false} TrimStartSuffix(s: string, pad: string)
    requires AllWhitespace(pad)
    ensures TrimEnd(TrimStart(s + pad)) == TrimEnd(TrimStart(s))
  {
    if s == "" {
      TrimStartPrefix(pad, "");
      assert pad + "" == pad == s + pad;
    } else if IsWhitespace(s[0]) {
      assert (s + pad)[1..] == s[1..] + pad;
      TrimStartSuffix(s[1..], pad);
    } else {
      TrimEndSuffix(s, pad);
    }
  }

  lemma TrimPadded(before: string, s: string, after: string)
    requires AllWhitespace(before) && AllWhitespace(after)
    ensures Trim(before + s + after) == Trim(s)
  {
    TrimStartPrefix(before, s + after);
    assert before + s + after == before + (s + after);
    TrimStartSuffix(s, after);
  }

  predicate NoOuterWhitespace(s: string) {
    s != "" ==> !IsWhitespace(s[0]) && !IsWhitespace(s[|s| - 1])
  }

  /** Trimming takes away the surrounding whitespace and nothing else. */
  lemma TrimIs(before: string, s: string, after: string)
    requires AllWhitespace(before) && AllWhitespace(after) && NoOuterWhitespace(s)
    ensures Trim(before + s + after) == s
  {
    TrimPadded(before, s, after);
  }

  // ----- resolution -----

  /** The documented table, for every header: from a trusted proxy the leftmost entry
      decides, whatever whitespace surrounds it and whatever follows its comma; in
      every other case, an unparsable entry included, the peer itself does. */
  lemma ResolvesTable(
    parsers: Parsers, proxies: seq<string>, peer: IpAddr,
    before: string, entry: string, after: string, rest: string)
    requires ',' !in before && ',' !in entry && ',' !in after && (rest == "" || rest[0] == ',')
    requires AllWhitespace(before) && AllWhitespace(after)
    ensures ResolveClientIp(parsers, proxies, peer, None) == peer
    ensures var resolved := ResolveClientIp(parsers, proxies, peer, Some(before + entry + after + rest));
      if MatchesAny(parsers, proxies, peer) && parsers.ip(Trim(entry)).Some?
      then resolved == parsers.ip(Trim(entry)).value
      else resolved == peer
  {
    FirstEntryIs(before + entry + after + rest, before + entry + after, rest);
    TrimPadded(before, entry, after);
  }

  lemma {:induction false} Split(s: string) returns (rest: string)
    ensures s == FirstEntry(s) + rest && ',' !in FirstEntry(s) && (rest == "" || rest[0] == ',')
  {
    if s == "" || s[0] == ',' {
      rest := s;
    } else {
      rest := Split(s[1..]);
    }
  }

  /** Proxies further along the chain append a comma and their own text; padding the
      first entry or replacing what follows it never changes the resolved address. */
  lemma ChainIrrelevant(
    parsers: Parsers, proxies: seq<string>, peer: IpAddr,
    header: string, before: string, after: string, more: string)
    requires AllWhitespace(before) && AllWhitespace(after)
    ensures ResolveClientIp(parsers, proxies, peer, Some(before + FirstEntry(header) + after + "," + more)) ==
      ResolveClientIp(parsers, proxies, peer, Some(header))
  {
    var rest := Split(header);
    var entry := FirstEntry(header);
    assert "" + entry + "" + rest == header;
    ResolvesTable(parsers, proxies, peer, "", entry, "", rest);
    assert before + entry + after + "," + more == before + entry + after + ("," + more);
    ResolvesTable(parsers, proxies, peer, before, entry, after, "," + more);
  }
}
