/** The authorization gates of a sign request. The same policy is enforced twice, by
    helper functions on the HTTP side (src/http/handlers.rs) and by an inline block on
    the gRPC side (src/grpc/service.rs); both are given here as the sequence of lock
    reads they perform and as the decision they come to under one policy. */
module Gates {
  import opened GatewayTypes
  import opened Cidr
  import opened ClientIp

  datatype AuthConfig = AuthConfig(
    tokens: map<string, string>,
    allowAll: bool,
    allowedKeys: map<string, seq<string>>,
    allowedIps: map<string, seq<string>>,
    trustedProxies: seq<string>)

  /** What the gates look at in a request; a gRPC transport may not know the peer. */
  datatype SignInput = SignInput(
    callerId: string,
    token: Option<string>,
    peer: Option<IpAddr>,
    forwardedFor: Option<string>,
    keyId: string)

  datatype Verdict =
    | Granted
    | Unauthenticated
    | IpRefused(ip: IpAddr, caller: string)
    | KeyRefused(key: string, caller: string)

  // ----- HTTP helpers -----

  predicate CheckCaller(auth: AuthConfig, callerId: string, token: Option<string>) {
    auth.allowAll ||
    match token
    case Some(t) => t in auth.tokens && auth.tokens[t] == callerId
    case None => false
  }

  predicate CheckKeyAllowed(auth: AuthConfig, callerId: string, keyId: string) {
    auth.allowAll || (callerId in auth.allowedKeys ==> keyId in auth.allowedKeys[callerId])
  }

  predicate CheckIpAllowed(parsers: Parsers, auth: AuthConfig, callerId: string, ip: IpAddr) {
    auth.allowAll || (callerId in auth.allowedIps ==> MatchesAny(parsers, auth.allowedIps[callerId], ip))
  }

  /** The helper as written: a loop over the caller's patterns that returns early. */
  method CheckIpAllowedLoop(parsers: Parsers, auth: AuthConfig, callerId: string, ip: IpAddr) returns (allowed: bool)
    ensures allowed == CheckIpAllowed(parsers, auth, callerId, ip)
  {
    if auth.allowAll {
      return true;
    }
    if callerId !in auth.allowedIps {
      return true;
    }
    var patterns := auth.allowedIps[callerId];
    for i := 0 to |patterns|
      invariant forall j :: 0 <= j < i ==> !Matches(parsers, patterns[j], ip)
    {
      var net := parsers.net(patterns[i]);
      if net.Some? {
        if Contains(net.value, ip) {
          return true;
        }
      } else {
        var exact := parsers.ip(patterns[i]);
        if exact.Some? && exact.value == ip {
          return true;
        }
      }
    }
    return false;
  }

  // ----- the two sign paths, one lock read at a time -----

  /** Where a request stands: before each of its reads of the auth lock, or decided. */
  datatype Stage =
    | HttpCaller
    | HttpProxies
    | HttpIp(client: IpAddr)
    | HttpKey
    | GrpcAllowAll
    | GrpcToken
    | GrpcProxies(caller: string)
    | GrpcIp(caller: string, client: IpAddr)
    | GrpcKey(caller: string)
    | Decided(verdict: Verdict)

  /** The stages that will consult the peer address need it to be known. */
  predicate Fits(input: SignInput, stage: Stage) {
    input.peer == None ==> !stage.HttpCaller? && !stage.HttpProxies? && !stage.GrpcProxies?
  }

  /** The address a policy takes the request to come from. */
  function ClientOf(parsers: Parsers, auth: AuthConfig, input: SignInput): IpAddr
    requires input.peer.Some?
  {
    ResolveClientIp(parsers, auth.trustedProxies, input.peer.value, input.forwardedFor)
  }

  /** A bound on the lock reads still to come. */
  function Remaining(stage: Stage): nat {
    match stage
    case HttpCaller => 4
    case HttpProxies => 3
    case HttpIp(_) => 2
    case HttpKey => 1
    case GrpcAllowAll => 5
    case GrpcToken => 4
    case GrpcProxies(_) => 3
    case GrpcIp(_, _) => 2
    case GrpcKey(_) => 1
    case Decided(_) => 0
  }

  function AfterGrpcIp(input: SignInput, caller: string): Stage {
    if input.keyId == "" then Decided(Granted) else GrpcKey(caller)
  }

  function AfterGrpcToken(input: SignInput, caller: string): Stage {
    if input.peer.Some? then GrpcProxies(caller) else AfterGrpcIp(input, caller)
  }

  /** What a request does with the policy its next lock read sees. */
  function Advance(parsers: Parsers, input: SignInput, stage: Stage, auth: AuthConfig): (next: Stage)
    requires Fits(input, stage)
    ensures Fits(input, next)
    ensures !stage.Decided? ==> Remaining(next) < Remaining(stage)
  {
    match stage
    case HttpCaller =>
      if CheckCaller(auth, input.callerId, input.token) then HttpProxies else Decided(Unauthenticated)
    case HttpProxies =>
      HttpIp(ClientOf(parsers, auth, input))
    case HttpIp(client) =>
      if !CheckIpAllowed(parsers, auth, input.callerId, client) then Decided(IpRefused(client, input.callerId))
      else if input.keyId == "" then Decided(Granted)
      else HttpKey
    case HttpKey =>
      if CheckKeyAllowed(auth, input.callerId, input.keyId) then Decided(Granted)
      else Decided(KeyRefused(input.keyId, input.callerId))
    case GrpcAllowAll =>
      if auth.allowAll then Decided(Granted)
      else if input.token == None then Decided(Unauthenticated)
      else GrpcToken
    case GrpcToken =>
      if input.token == None || input.token.value !in auth.tokens then Decided(Unauthenticated)
      else AfterGrpcToken(input, auth.tokens[input.token.value])
    case GrpcProxies(caller) =>
      GrpcIp(caller, ClientOf(parsers, auth, input))
    case GrpcIp(caller, client) =>
      if caller in auth.allowedIps && !MatchesAny(parsers, auth.allowedIps[caller], client)
      then Decided(IpRefused(client, caller))
      else AfterGrpcIp(input, caller)
    case GrpcKey(caller) =>
      if caller in auth.allowedKeys && input.keyId !in auth.allowedKeys[caller]
      then Decided(KeyRefused(input.keyId, caller))
      else Decided(Granted)
    case Decided(verdict) => stage
  }

  // ----- decisions under one policy -----

  function HttpVerdict(parsers: Parsers, auth: AuthConfig, input: SignInput): Verdict
    requires input.peer.Some?
  {
    if !CheckCaller(auth, input.callerId, input.token) then Unauthenticated
    else
      var client := ClientOf(parsers, auth, input);
      if !CheckIpAllowed(parsers, auth, input.callerId, client) then IpRefused(client, input.callerId)
      else if input.keyId != "" && !CheckKeyAllowed(auth, input.callerId, input.keyId)
      then KeyRefused(input.keyId, input.callerId)
      else Granted
  }

  /** No address list for the caller, or one that admits the address. */
  predicate IpPermitted(parsers: Parsers, auth: AuthConfig, caller: string, ip: IpAddr) {
    caller !in auth.allowedIps || MatchesAny(parsers, auth.allowedIps[caller], ip)
  }

  /** No key list for the caller, or one that names the key. */
  predicate KeyPermitted(auth: AuthConfig, caller: string, keyId: string) {
    keyId == "" || caller !in auth.allowedKeys || keyId in auth.allowedKeys[caller]
  }

  function GrpcVerdict(parsers: Parsers, auth: AuthConfig, input: SignInput): Verdict {
    if auth.allowAll then Granted
    else if input.token == None || input.token.value !in auth.tokens then Unauthenticated
    else
      var caller := auth.tokens[input.token.value];
      if input.peer.Some? && !IpPermitted(parsers, auth, caller, ClientOf(parsers, auth, input))
      then IpRefused(ClientOf(parsers, auth, input), caller)
      else if !KeyPermitted(auth, caller, input.keyId) then KeyRefused(input.keyId, caller)
      else Granted
  }

  // ----- the documented policy -----

  /** A known token speaks for the caller. */
  predicate SpeaksFor(auth: AuthConfig, token: Option<string>, caller: string) {
    token.Some? && token.value in auth.tokens && auth.tokens[token.value] == caller
  }

  /** The policy both paths implement, as the documentation states it. */
  predicate Permitted(parsers: Parsers, auth: AuthConfig, input: SignInput, caller: string)
    requires input.peer.Some?
  {
    || auth.allowAll
    || (&& SpeaksFor(auth, input.token, caller)
        && IpPermitted(parsers, auth, caller, ClientOf(parsers, auth, input))
        && KeyPermitted(auth, caller, input.keyId))
  }

  /** Both paths grant exactly what the policy permits: to the caller the HTTP request
      names, and on gRPC to whichever caller the token speaks for. */
  lemma GrantedIffPermitted(parsers: Parsers, auth: AuthConfig, input: SignInput)
    requires input.peer.Some?
    ensures HttpVerdict(parsers, auth, input) == Granted <==> Permitted(parsers, auth, input, input.callerId)
    ensures GrpcVerdict(parsers, auth, input) == Granted <==>
      exists caller :: Permitted(parsers, auth, input, caller)
  {
    if GrpcVerdict(parsers, auth, input) == Granted {
      var caller := if auth.allowAll then "" else auth.tokens[input.token.value];
      assert Permitted(parsers, auth, input, caller);
    }
  }

  /** A refusal names the first gate that fails, in the order caller, address, key. */
  lemma RefusedIff(parsers: Parsers, auth: AuthConfig, input: SignInput, ip: IpAddr, caller: string, key: string)
    requires input.peer.Some?
    ensures var known := !auth.allowAll && SpeaksFor(auth, input.token, input.callerId);
      && (HttpVerdict(parsers, auth, input) == Unauthenticated <==>
            !auth.allowAll && !SpeaksFor(auth, input.token, input.callerId))
      && (HttpVerdict(parsers, auth, input) == IpRefused(ip, caller) <==>
            && known && caller == input.callerId && ip == ClientOf(parsers, auth, input)
            && !IpPermitted(parsers, auth, caller, ip))
      && (HttpVerdict(parsers, auth, input) == KeyRefused(key, caller) <==>
            && known && caller == input.callerId && key == input.keyId
            && IpPermitted(parsers, auth, caller, ClientOf(parsers, auth, input))
            && !KeyPermitted(auth, caller, key))
  {
  }

  /** The two paths come to the same verdict, with the same first reason, exactly when
      the policy admits everyone, the token is unknown, or the HTTP request names the
      caller its token speaks for. */
  lemma VerdictsAgreeIff(parsers: Parsers, auth: AuthConfig, input: SignInput)
    requires input.peer.Some?
    ensures HttpVerdict(parsers, auth, input) == GrpcVerdict(parsers, auth, input) <==>
      || auth.allowAll
      || input.token == None
      || input.token.value !in auth.tokens
      || auth.tokens[input.token.value] == input.callerId
  {
  }

  /** Without a known peer the gRPC path judges as if no caller had an address list. */
  lemma UnknownPeerSkipsIpGate(parsers: Parsers, auth: AuthConfig, input: SignInput, peer: IpAddr)
    requires input.peer == None
    ensures GrpcVerdict(parsers, auth, input) ==
      GrpcVerdict(parsers, auth.(allowedIps := map[]), input.(peer := Some(peer)))
  {
  }

  // ----- where a request is taken to come from -----

  /** A header is its first entry, between whitespace, and what follows the first comma. */
  predicate Shows(header: string, before: string, entry: string, after: string, rest: string) {
    && header == before + entry + after + rest
    && AllWhitespace(before) && AllWhitespace(after) && NoOuterWhitespace(entry)
    && ',' !in before && ',' !in entry && ',' !in after && (rest == "" || rest[0] == ',')
  }

  /** Behind a trusted proxy a request whose first forwarded entry is an address gets the
      verdict, reason included, of the same request sent from there with no header. */
  lemma ForwardedStandsForPeer(
    parsers: Parsers, auth: AuthConfig, input: SignInput, ip: IpAddr,
    before: string, entry: string, after: string, rest: string)
    requires input.peer.Some? && MatchesAny(parsers, auth.trustedProxies, input.peer.value)
    requires input.forwardedFor.Some? && Shows(input.forwardedFor.value, before, entry, after, rest)
    requires parsers.ip(entry) == Some(ip)
    ensures var direct := input.(peer := Some(ip), forwardedFor := None);
      && HttpVerdict(parsers, auth, input) == HttpVerdict(parsers, auth, direct)
      && GrpcVerdict(parsers, auth, input) == GrpcVerdict(parsers, auth, direct)
  {
    ResolvesTable(parsers, auth.trustedProxies, input.peer.value, before, entry, after, rest);
    TrimIs("", entry, "");
    assert "" + entry + "" == entry;
    var direct := input.(peer := Some(ip), forwardedFor := None);
    assert ClientOf(parsers, auth, input) == ip == ClientOf(parsers, auth, direct);
  }

  /** A header from a peer that is not trusted, or whose first entry is no address,
      changes no verdict. */
  lemma OtherHeadersIgnored(
    parsers: Parsers, auth: AuthConfig, input: SignInput,
    before: string, entry: string, after: string, rest: string)
    requires input.peer.Some? && input.forwardedFor.Some?
    requires Shows(input.forwardedFor.value, before, entry, after, rest)
    requires !MatchesAny(parsers, auth.trustedProxies, input.peer.value) || parsers.ip(entry) == None
    ensures var bare := input.(forwardedFor := None);
      && HttpVerdict(parsers, auth, input) == HttpVerdict(parsers, auth, bare)
      && GrpcVerdict(parsers, auth, input) == GrpcVerdict(parsers, auth, bare)
  {
    ResolvesTable(parsers, auth.trustedProxies, input.peer.value, before, entry, after, rest);
    TrimIs("", entry, "");
    assert "" + entry + "" == entry;
    var bare := input.(forwardedFor := None);
    assert ClientOf(parsers, auth, input) == input.peer.value == ClientOf(parsers, auth, bare);
  }

  /** The verdicts on a request without a header, which comes from its peer, written out. */
  lemma DirectVerdicts(parsers: Parsers, auth: AuthConfig, input: SignInput, peer: IpAddr)
    requires input.peer == Some(peer) && input.forwardedFor == None
    ensures HttpVerdict(parsers, auth, input) ==
      var caller := input.callerId;
      if auth.allowAll then Granted
      else if input.token == None || input.token.value !in auth.tokens || auth.tokens[input.token.value] != caller
      then Unauthenticated
      else if caller in auth.allowedIps && !MatchesAny(parsers, auth.allowedIps[caller], peer)
      then IpRefused(peer, caller)
      else if input.keyId != "" && caller in auth.allowedKeys && input.keyId !in auth.allowedKeys[caller]
      then KeyRefused(input.keyId, caller)
      else Granted
    ensures GrpcVerdict(parsers, auth, input) ==
      if auth.allowAll then Granted
      else if input.token == None || input.token.value !in auth.tokens then Unauthenticated
      else
        var caller := auth.tokens[input.token.value];
        if caller in auth.allowedIps && !MatchesAny(parsers, auth.allowedIps[caller], peer)
        then IpRefused(peer, caller)
        else if input.keyId != "" && caller in auth.allowedKeys && input.keyId !in auth.allowedKeys[caller]
        then KeyRefused(input.keyId, caller)
        else Granted
  {
    ResolvesTable(parsers, auth.trustedProxies, peer, "", "", "", "");
    assert ClientOf(parsers, auth, input) == peer;
  }

  // ----- reads that see different policies -----

  /** The stage after a sequence of lock reads. */
  function Replay(parsers: Parsers, input: SignInput, stage: Stage, seen: seq<AuthConfig>): (end: Stage)
    requires Fits(input, stage)
    ensures Fits(input, end)
    decreases |seen|
  {
    if seen == [] then stage
    else Replay(parsers, input, Advance(parsers, input, stage, seen[0]), seen[1..])
  }

  /** The verdict reached from a stage when every read sees the same policy. */
  function Finish(parsers: Parsers, input: SignInput, stage: Stage, auth: AuthConfig): Verdict
    requires Fits(input, stage)
    decreases Remaining(stage)
  {
    match stage
    case Decided(verdict) => verdict
    case _ => Finish(parsers, input, Advance(parsers, input, stage, auth), auth)
  }

  lemma FinishFromCaller(parsers: Parsers, input: SignInput, auth: AuthConfig, caller: string)
    ensures Finish(parsers, input, AfterGrpcToken(input, caller), auth) ==
      if input.peer.Some? && !IpPermitted(parsers, auth, caller, ClientOf(parsers, auth, input))
      then IpRefused(ClientOf(parsers, auth, input), caller)
      else if !KeyPermitted(auth, caller, input.keyId) then KeyRefused(input.keyId, caller)
      else Granted
  {
    assert Finish(parsers, input, AfterGrpcIp(input, caller), auth) ==
      if KeyPermitted(auth, caller, input.keyId) then Granted else KeyRefused(input.keyId, caller);
    if input.peer.Some? {
      var client := ClientOf(parsers, auth, input);
      assert Finish(parsers, input, GrpcIp(caller, client), auth) ==
        if IpPermitted(parsers, auth, caller, client)
        then Finish(parsers, input, AfterGrpcIp(input, caller), auth)
        else IpRefused(client, caller);
      assert Finish(parsers, input, GrpcProxies(caller), auth) == Finish(parsers, input, GrpcIp(caller, client), auth);
    }
  }

  lemma FinishIsVerdict(parsers: Parsers, input: SignInput, auth: AuthConfig)
    ensures input.peer.Some? ==> Finish(parsers, input, HttpCaller, auth) == HttpVerdict(parsers, auth, input)
    ensures Finish(parsers, input, GrpcAllowAll, auth) == GrpcVerdict(parsers, auth, input)
  {
    if input.peer.Some? {
      var client := ClientOf(parsers, auth, input);
      assert Finish(parsers, input, HttpProxies, auth) == Finish(parsers, input, HttpIp(client), auth);
      assert Finish(parsers, input, HttpKey, auth) ==
        if CheckKeyAllowed(auth, input.callerId, input.keyId) then Granted
        else KeyRefused(input.keyId, input.callerId);
    }
    if input.token.Some? && input.token.value in auth.tokens {
      FinishFromCaller(parsers, input, auth, auth.tokens[input.token.value]);
    }
  }

  lemma {:induction false} ReplayAppend(
    parsers: Parsers, input: SignInput, stage: Stage, seen: seq<AuthConfig>, auth: AuthConfig)
    requires Fits(input, stage)
    ensures Replay(parsers, input, stage, seen + [auth]) ==
      Advance(parsers, input, Replay(parsers, input, stage, seen), auth)
    decreases |seen|
  {
    if seen == [] {
      assert (seen + [auth])[1..] == [];
    } else {
      assert (seen + [auth])[1..] == seen[1..] + [auth];
      ReplayAppend(parsers, input, Advance(parsers, input, stage, seen[0]), seen[1..], auth);
    }
  }

  lemma {:induction false} ReplayConcat(
    parsers: Parsers, input: SignInput, stage: Stage, first: seq<AuthConfig>, second: seq<AuthConfig>)
    requires Fits(input, stage)
    ensures Replay(parsers, input, stage, first + second) ==
      Replay(parsers, input, Replay(parsers, input, stage, first), second)
    decreases |first|
  {
    if first == [] {
      assert first + second == second;
    } else {
      assert (first + second)[1..] == first[1..] + second;
      ReplayConcat(parsers, input, Advance(parsers, input, stage, first[0]), first[1..], second);
    }
  }

  /** Reads that all see one policy end in its verdict. */
  lemma {:induction false} ReplayConstant(
    parsers: Parsers, input: SignInput, stage: Stage, seen: seq<AuthConfig>, auth: AuthConfig)
    requires Fits(input, stage)
    requires forall i :: 0 <= i < |seen| ==> seen[i] == auth
    ensures Finish(parsers, input, Replay(parsers, input, stage, seen), auth) == Finish(parsers, input, stage, auth)
    decreases |seen|
  {
    if seen != [] {
      ReplayConstant(parsers, input, Advance(parsers, input, stage, seen[0]), seen[1..], auth);
    }
  }

  /** p takes the request to come from the address q does, as it does with the same
      trusted proxies, and admits, at every gate, whatever q admits. */
  ghost predicate AdmitsAtLeast(parsers: Parsers, input: SignInput, p: AuthConfig, q: AuthConfig) {
    && (input.peer.Some? ==> ClientOf(parsers, p, input) == ClientOf(parsers, q, input))
    && (forall caller, token :: CheckCaller(q, caller, token) ==> CheckCaller(p, caller, token))
    && (forall caller, ip :: CheckIpAllowed(parsers, q, caller, ip) ==> CheckIpAllowed(parsers, p, caller, ip))
    && (forall caller, key :: CheckKeyAllowed(q, caller, key) ==> CheckKeyAllowed(p, caller, key))
  }

  lemma AdmitsTransitive(parsers: Parsers, input: SignInput, p: AuthConfig, q: AuthConfig, r: AuthConfig)
    requires AdmitsAtLeast(parsers, input, p, q) && AdmitsAtLeast(parsers, input, q, r)
    ensures AdmitsAtLeast(parsers, input, p, r)
  {
  }

  /** From this stage on, the policy grants the request. */
  predicate GrantsFrom(parsers: Parsers, input: SignInput, stage: Stage, auth: AuthConfig)
    requires Fits(input, stage)
  {
    auth.allowAll || Finish(parsers, input, stage, auth) == Granted
  }

  lemma AdvanceUnderMorePermissive(parsers: Parsers, input: SignInput, stage: Stage, p: AuthConfig, q: AuthConfig)
    requires Fits(input, stage) && !stage.Decided?
    requires AdmitsAtLeast(parsers, input, p, q)
    requires GrantsFrom(parsers, input, Advance(parsers, input, stage, q), p)
    ensures GrantsFrom(parsers, input, stage, p)
  {
    if !p.allowAll {
      assert CheckCaller(q, "", None) ==> CheckCaller(p, "", None);
      match stage
      case HttpCaller =>
        assert CheckCaller(q, input.callerId, input.token);
      case HttpIp(client) =>
        assert CheckIpAllowed(parsers, q, input.callerId, client);
      case HttpKey =>
        assert CheckKeyAllowed(q, input.callerId, input.keyId);
      case GrpcToken =>
        assert CheckCaller(q, q.tokens[input.token.value], input.token);
      case GrpcIp(caller, client) =>
        assert CheckIpAllowed(parsers, q, caller, client);
      case GrpcKey(caller) =>
        assert CheckKeyAllowed(q, caller, input.keyId);
      case _ =>
    }
  }

  lemma {:induction false} ReplayDecided(parsers: Parsers, input: SignInput, stage: Stage, seen: seq<AuthConfig>)
    requires Fits(input, stage) && stage.Decided?
    ensures Replay(parsers, input, stage, seen) == stage
    decreases |seen|
  {
    if seen != [] {
      ReplayDecided(parsers, input, stage, seen[1..]);
    }
  }

  /** A request granted by reads that each saw some policy is granted by every policy
      that admits at least what each of those admits. */
  lemma {:induction false} GrantedUnderMorePermissive(
    parsers: Parsers, input: SignInput, stage: Stage, seen: seq<AuthConfig>, p: AuthConfig)
    requires Fits(input, stage)
    requires Replay(parsers, input, stage, seen) == Decided(Granted)
    requires forall i :: 0 <= i < |seen| ==> AdmitsAtLeast(parsers, input, p, seen[i])
    ensures GrantsFrom(parsers, input, stage, p)
    decreases |seen|
  {
    if seen != [] && !stage.Decided? {
      GrantedUnderMorePermissive(parsers, input, Advance(parsers, input, stage, seen[0]), seen[1..], p);
      AdvanceUnderMorePermissive(parsers, input, stage, p, seen[0]);
    } else {
      ReplayDecided(parsers, input, stage, seen);
    }
  }
}
