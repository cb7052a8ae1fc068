/** Grants that no single policy gives: what a request can be granted when any number of
    reloads fall between its reads of the auth lock (src/http/handlers.rs,
    src/grpc/service.rs and the reload task of src/main.rs). */
module TornGrants {
  import opened GatewayTypes
  import opened Cidr
  import opened Gates
  import opened Inflight
  import Watcher

  // ----- runs that can be driven on purpose -----

  lemma Unroll(parsers: Parsers, s: State, step: Step, rest: seq<Step>)
    requires Shape(s) && Enabled(s, step) && ValidRun(parsers, Next(parsers, s, step), rest)
    ensures ValidRun(parsers, s, [step] + rest)
    ensures Exec(parsers, s, [step] + rest) == Exec(parsers, Next(parsers, s, step), rest)
  {
    assert ([step] + rest)[1..] == rest;
  }

  lemma {:induction false} Then(parsers: Parsers, s: State, first: seq<Step>, second: seq<Step>)
    requires ValidRun(parsers, s, first) && ValidRun(parsers, Exec(parsers, s, first), second)
    ensures ValidRun(parsers, s, first + second)
    ensures Exec(parsers, s, first + second) == Exec(parsers, Exec(parsers, s, first), second)
    decreases |first|
  {
    if first == [] {
      assert first + second == second;
    } else {
      assert (first + second)[1..] == first[1..] + second;
      Then(parsers, Next(parsers, s, first[0]), first[1..], second);
    }
  }

  /** Steps of the reload task, as steps beside requests. */
  function Beside(reloads: seq<Watcher.Step>): seq<Step> {
    if reloads == [] then [] else [Reload(reloads[0])] + Beside(reloads[1..])
  }

  /** A run of the reload task alone is a run beside any requests. */
  lemma {:induction false} BesideRun(parsers: Parsers, s: State, reloads: seq<Watcher.Step>)
    requires Shape(s) && Watcher.Inv(s.watcher) && Watcher.ValidRun(s.watcher, reloads)
    ensures ValidRun(parsers, s, Beside(reloads))
    ensures Exec(parsers, s, Beside(reloads)) == s.(watcher := Watcher.Exec(s.watcher, reloads))
    ensures Watcher.Inv(Watcher.Exec(s.watcher, reloads))
    decreases |reloads|
  {
    if reloads != [] {
      Watcher.StepKeepsInv(s.watcher, reloads[0]);
      var next := Next(parsers, s, Reload(reloads[0]));
      BesideRun(parsers, next, reloads[1..]);
      Unroll(parsers, s, Reload(reloads[0]), Beside(reloads[1..]));
    }
  }

  // ----- a path of reads through a history of policies -----

  /** Positions in a history of policies that never go back. */
  ghost predicate Path(policies: seq<AuthConfig>, positions: seq<nat>) {
    && (forall k :: 0 <= k < |positions| ==> positions[k] < |policies|)
    && (forall j, k :: 0 <= j < k < |positions| ==> positions[j] <= positions[k])
  }

  /** A request that is alone, beside a calm reload task. */
  ghost predicate Alone(s: State) {
    Shape(s) && Watcher.Inv(s.watcher) && Watcher.Calm(s.watcher) && |s.requests| == 1
  }

  lemma ReloadOnce(parsers: Parsers, s: State, auth: AuthConfig) returns (run: seq<Step>, t: State)
    requires Alone(s)
    ensures ValidRun(parsers, s, run) && t == Exec(parsers, s, run)
    ensures Alone(t) && t.requests == s.requests && t.watcher.policies == s.watcher.policies + [auth]
  {
    var reload := Watcher.WriteAndHandle(s.watcher, [], auth, 1, true);
    BesideRun(parsers, s, reload);
    run := Beside(reload);
    t := Exec(parsers, s, run);
  }

  lemma ReplayFirst(
    parsers: Parsers, input: SignInput, stage: Stage, policies: seq<AuthConfig>, positions: seq<nat>)
    requires Fits(input, stage) && Path(policies, positions) && positions != []
    ensures Replay(parsers, input, stage, At(policies, positions)) ==
      Replay(parsers, input, Advance(parsers, input, stage, policies[positions[0]]), At(policies, positions[1..]))
  {
    assert At(policies, positions)[1..] == At(policies, positions[1..]);
  }

  /** A decided request stays as it is while the rest of the history comes to pass. */
  lemma {:induction false} ReloadsOn(parsers: Parsers, s: State, policies: seq<AuthConfig>)
    returns (run: seq<Step>, t: State)
    requires Alone(s) && s.watcher.policies <= policies
    ensures ValidRun(parsers, s, run) && t == Exec(parsers, s, run)
    ensures Alone(t) && t.watcher.policies == policies && t.requests == s.requests
    decreases |policies| - |s.watcher.policies|
  {
    run, t := [], s;
    if s.watcher.policies != policies {
      var first, next := ReloadOnce(parsers, s, policies[|s.watcher.policies|]);
      run, t := ReloadsOn(parsers, next, policies);
      Then(parsers, s, first, run);
      run := first + run;
    }
  }

  /** The request reads at the given positions of the history, or as many of them as it
      needs, and the whole history comes to pass. */
  lemma {:induction false} ReadsAt(
    parsers: Parsers, s: State, policies: seq<AuthConfig>, positions: seq<nat>) returns (run: seq<Step>, t: State)
    requires Alone(s) && s.watcher.policies <= policies && Path(policies, positions)
    requires positions != [] ==> |s.watcher.policies| - 1 <= positions[0]
    ensures ValidRun(parsers, s, run) && t == Exec(parsers, s, run)
    ensures t.watcher.policies == policies && |t.requests| == 1
    ensures var r, was := t.requests[0], s.requests[0];
      && r.input == was.input && r.entry == was.entry && r.born == was.born
      && r.stage == Replay(parsers, was.input, was.stage, At(policies, positions))
    decreases |policies| - |s.watcher.policies|, |positions|
  {
    var was, now := s.requests[0], |s.watcher.policies| - 1;
    if was.stage.Decided? || positions == [] {
      if was.stage.Decided? {
        ReplayDecided(parsers, was.input, was.stage, At(policies, positions));
      }
      run, t := ReloadsOn(parsers, s, policies);
    } else if positions[0] == now {
      ReplayFirst(parsers, was.input, was.stage, policies, positions);
      run, t := ReadsAt(parsers, Next(parsers, s, ReadLock(0)), policies, positions[1..]);
      Unroll(parsers, s, ReadLock(0), run);
      run := [ReadLock(0)] + run;
    } else {
      var reload, next := ReloadOnce(parsers, s, policies[now + 1]);
      run, t := ReadsAt(parsers, next, policies, positions);
      Then(parsers, s, reload, run);
      run := reload + run;
    }
  }

  predicate IsEntry(input: SignInput, entry: Stage) {
    entry.GrpcAllowAll? || (entry.HttpCaller? && input.peer.Some?)
  }

  /** Some run brings a request to read along the path, from its arrival on. */
  lemma PathRun(
    parsers: Parsers, input: SignInput, entry: Stage, backend: Watcher.Backend, keys: seq<KeyConfig>,
    policies: seq<AuthConfig>, positions: seq<nat>) returns (run: seq<Step>, r: Request)
    requires IsEntry(input, entry) && policies != [] && Path(policies, positions)
    ensures Reached(parsers, Watcher.Start(backend, keys, policies[0]), run, policies, r)
    ensures r.input == input && r.entry == entry && r.born == 0
    ensures r.stage == Replay(parsers, input, entry, At(policies, positions))
  {
    var start := Watcher.Start(backend, keys, policies[0]);
    var arrive := Arrive(input, entry.GrpcAllowAll?);
    Watcher.InitialInv(start);
    var s := Next(parsers, Initial(start), arrive);
    var t;
    run, t := ReadsAt(parsers, s, policies, positions);
    Unroll(parsers, Initial(start), arrive, run);
    run := [arrive] + run;
    r := t.requests[0];
  }

  // ----- what runs can grant -----

  predicate Grants(input: SignInput, entry: Stage, r: Request) {
    r.input == input && r.entry == entry && r.stage == Decided(Granted)
  }

  /** The policies in force from the request's arrival on. */
  predicate During(history: seq<AuthConfig>, r: Request, policies: seq<AuthConfig>) {
    r.born < |history| && history[r.born..] == policies
  }

  /** Some run grants this request on this path, with these policies in force one after
      the other from its arrival on. */
  ghost predicate GrantsDuring(
    parsers: Parsers, input: SignInput, entry: Stage, backend: Watcher.Backend, keys: seq<KeyConfig>,
    policies: seq<AuthConfig>) {
    exists auth, run, history, r ::
      && Reached(parsers, Watcher.Start(backend, keys, auth), run, history, r)
      && During(history, r, policies) && Grants(input, entry, r)
  }

  /** The reads of a reached request are a path through the policies since its arrival. */
  lemma ReachedOnPath(
    parsers: Parsers, start: Watcher.Start, run: seq<Step>, history: seq<AuthConfig>, r: Request,
    policies: seq<AuthConfig>) returns (positions: seq<nat>)
    requires Reached(parsers, start, run, history, r) && During(history, r, policies)
    ensures Fits(r.input, r.entry) && Path(policies, positions)
    ensures r.stage == Replay(parsers, r.input, r.entry, At(policies, positions))
  {
    ReachedInv(parsers, start, run, history, r);
    positions := seq(|r.seen|, k requires 0 <= k < |r.seen| => r.seen[k] - r.born);
    assert At(policies, positions) == At(history, r.seen);
  }

  /** What runs can grant is what some path of reads through the history grants. */
  lemma GrantsDuringIff(
    parsers: Parsers, input: SignInput, entry: Stage, backend: Watcher.Backend, keys: seq<KeyConfig>,
    policies: seq<AuthConfig>)
    requires IsEntry(input, entry) && policies != []
    ensures GrantsDuring(parsers, input, entry, backend, keys, policies) <==>
      exists positions ::
        Path(policies, positions) && Replay(parsers, input, entry, At(policies, positions)) == Decided(Granted)
  {
    if GrantsDuring(parsers, input, entry, backend, keys, policies) {
      var auth, run, history, r :|
        && Reached(parsers, Watcher.Start(backend, keys, auth), run, history, r)
        && During(history, r, policies) && Grants(input, entry, r);
      var positions := ReachedOnPath(parsers, Watcher.Start(backend, keys, auth), run, history, r, policies);
    }
    if positions :|
      Path(policies, positions) && Replay(parsers, input, entry, At(policies, positions)) == Decided(Granted) {
      var run, r := PathRun(parsers, input, entry, backend, keys, policies, positions);
      assert During(policies, r, policies) && Grants(input, entry, r);
    }
  }

  // ----- HTTP -----

  predicate IpGate(parsers: Parsers, auth: AuthConfig, input: SignInput)
    requires input.peer.Some?
  {
    CheckIpAllowed(parsers, auth, input.callerId, ClientOf(parsers, auth, input))
  }

  predicate KeyGate(auth: AuthConfig, input: SignInput) {
    input.keyId == "" || CheckKeyAllowed(auth, input.callerId, input.keyId)
  }

  lemma HttpReplayIff(parsers: Parsers, input: SignInput, p: seq<AuthConfig>)
    requires input.peer.Some? && |p| == 4
    ensures Replay(parsers, input, HttpCaller, p) == Decided(Granted) <==>
      && CheckCaller(p[0], input.callerId, input.token)
      && CheckIpAllowed(parsers, p[2], input.callerId, ClientOf(parsers, p[1], input))
      && KeyGate(p[3], input)
  {
    var p1, p2, p3, p4 := p[1..], p[2..], p[3..], p[4..];
    assert p1[1..] == p2 && p2[1..] == p3 && p3[1..] == p4;
    var client := ClientOf(parsers, p[1], input);
    ReplayDecided(parsers, input, Decided(Unauthenticated), p1);
    ReplayDecided(parsers, input, Decided(IpRefused(client, input.callerId)), p3);
    ReplayDecided(parsers, input, Decided(Granted), p3);
    assert Replay(parsers, input, HttpProxies, p1) == Replay(parsers, input, HttpIp(client), p2);
    assert Replay(parsers, input, HttpKey, p3) == Advance(parsers, input, HttpKey, p[3]);
  }

  /** The policies at these positions accept the caller, resolve the address, accept it,
      and accept the key, in this order. */
  predicate HttpPasses(
    parsers: Parsers, input: SignInput, policies: seq<AuthConfig>, i: nat, j: nat, k: nat, l: nat)
    requires input.peer.Some?
  {
    && i <= j <= k <= l < |policies|
    && CheckCaller(policies[i], input.callerId, input.token)
    && CheckIpAllowed(parsers, policies[k], input.callerId, ClientOf(parsers, policies[j], input))
    && KeyGate(policies[l], input)
  }

  lemma HttpPathPasses(parsers: Parsers, input: SignInput, policies: seq<AuthConfig>, positions: seq<nat>)
    requires input.peer.Some? && Path(policies, positions)
    requires Replay(parsers, input, HttpCaller, At(policies, positions)) == Decided(Granted)
    ensures exists i, j, k, l :: HttpPasses(parsers, input, policies, i, j, k, l)
  {
    HttpReads(parsers, input, At(policies, positions));
    var l := if input.keyId == "" then positions[2] else positions[3];
    assert HttpPasses(parsers, input, policies, positions[0], positions[1], positions[2], l);
  }

  lemma HttpPassesOnPath(
    parsers: Parsers, input: SignInput, policies: seq<AuthConfig>, i: nat, j: nat, k: nat, l: nat)
    returns (positions: seq<nat>)
    requires input.peer.Some? && HttpPasses(parsers, input, policies, i, j, k, l)
    ensures Path(policies, positions)
    ensures Replay(parsers, input, HttpCaller, At(policies, positions)) == Decided(Granted)
  {
    positions := [i, j, k, l];
    HttpReplayIff(parsers, input, At(policies, positions));
  }

  /** With any number of reloads while it is under way, a request can be granted over
      HTTP exactly when some policies in force meanwhile, none older than the one before,
      accept the caller, resolve the address, accept it and accept the key. */
  lemma HttpGrantsIff(
    parsers: Parsers, input: SignInput, backend: Watcher.Backend, keys: seq<KeyConfig>, policies: seq<AuthConfig>)
    requires input.peer.Some? && policies != []
    ensures GrantsDuring(parsers, input, HttpCaller, backend, keys, policies) <==>
      exists i, j, k, l :: HttpPasses(parsers, input, policies, i, j, k, l)
  {
    GrantsDuringIff(parsers, input, HttpCaller, backend, keys, policies);
    if GrantsDuring(parsers, input, HttpCaller, backend, keys, policies) {
      var positions :|
        Path(policies, positions) && Replay(parsers, input, HttpCaller, At(policies, positions)) == Decided(Granted);
      HttpPathPasses(parsers, input, policies, positions);
    }
    if i, j, k, l :| HttpPasses(parsers, input, policies, i, j, k, l) {
      var positions := HttpPassesOnPath(parsers, input, policies, i, j, k, l);
    }
  }

  lemma HttpVerdictPasses(parsers: Parsers, input: SignInput, policies: seq<AuthConfig>, n: nat)
    requires input.peer.Some? && n < |policies|
    ensures HttpVerdict(parsers, policies[n], input) == Granted <==> HttpPasses(parsers, input, policies, n, n, n, n)
  {
  }

  /** A run can grant what none of the policies in force meanwhile grants exactly when
      some four of them pass the gates in order and no policy passes all by itself. */
  lemma HttpTornGrantIff(
    parsers: Parsers, input: SignInput, backend: Watcher.Backend, keys: seq<KeyConfig>, policies: seq<AuthConfig>)
    requires input.peer.Some? && policies != []
    ensures
      (&& GrantsDuring(parsers, input, HttpCaller, backend, keys, policies)
       && forall n :: 0 <= n < |policies| ==> HttpVerdict(parsers, policies[n], input) != Granted)
      <==>
      (&& (exists i, j, k, l :: HttpPasses(parsers, input, policies, i, j, k, l))
       && forall n :: 0 <= n < |policies| ==> !HttpPasses(parsers, input, policies, n, n, n, n))
  {
    HttpGrantsIff(parsers, input, backend, keys, policies);
    forall n | 0 <= n < |policies|
      ensures HttpVerdict(parsers, policies[n], input) == Granted <==> HttpPasses(parsers, input, policies, n, n, n, n)
    {
      HttpVerdictPasses(parsers, input, policies, n);
    }
  }

  /** With one reload: exactly when the old policy accepts the caller and the new one the
      key; the address passes under the old policy, under the new one, or as the old one
      resolves it and the new one judges it; and neither policy accepts all three. */
  lemma HttpTornByOneReloadIff(
    parsers: Parsers, input: SignInput, backend: Watcher.Backend, keys: seq<KeyConfig>, p: AuthConfig, q: AuthConfig)
    requires input.peer.Some?
    ensures
      (&& HttpVerdict(parsers, p, input) != Granted
       && HttpVerdict(parsers, q, input) != Granted
       && GrantsDuring(parsers, input, HttpCaller, backend, keys, [p, q]))
      <==>
      (&& CheckCaller(p, input.callerId, input.token)
       && KeyGate(q, input)
       && (|| IpGate(parsers, p, input)
           || IpGate(parsers, q, input)
           || CheckIpAllowed(parsers, q, input.callerId, ClientOf(parsers, p, input)))
       && !(IpGate(parsers, p, input) && KeyGate(p, input))
       && !(CheckCaller(q, input.callerId, input.token) && IpGate(parsers, q, input)))
  {
    var policies := [p, q];
    HttpGrantsIff(parsers, input, backend, keys, policies);
    HttpVerdictPasses(parsers, input, policies, 0);
    HttpVerdictPasses(parsers, input, policies, 1);
    assert forall i, j, k, l :: HttpPasses(parsers, input, policies, i, j, k, l) ==> i in {0, 1} && l in {0, 1};
    assert
      || HttpPasses(parsers, input, policies, 0, 0, 0, 1)
      || HttpPasses(parsers, input, policies, 0, 0, 1, 1)
      || HttpPasses(parsers, input, policies, 0, 1, 1, 1)
      || !(&& CheckCaller(p, input.callerId, input.token) && KeyGate(q, input)
           && (|| IpGate(parsers, p, input)
               || IpGate(parsers, q, input)
               || CheckIpAllowed(parsers, q, input.callerId, ClientOf(parsers, p, input))));
  }

  // ----- gRPC -----

  /** The address gate of the gRPC path, with the address resolved under one policy and
      judged by another. */
  predicate GrpcAddress(
    parsers: Parsers, resolver: AuthConfig, judge: AuthConfig, input: SignInput, caller: string) {
    input.peer.Some? ==> IpPermitted(parsers, judge, caller, ClientOf(parsers, resolver, input))
  }

  lemma GrpcKeyReplayIff(parsers: Parsers, input: SignInput, caller: string, p: seq<AuthConfig>)
    requires p != []
    ensures Replay(parsers, input, AfterGrpcIp(input, caller), p) == Decided(Granted) <==>
      KeyPermitted(p[0], caller, input.keyId)
  {
    if input.keyId == "" {
      ReplayDecided(parsers, input, Decided(Granted), p);
    } else {
      ReplayDecided(parsers, input, Advance(parsers, input, GrpcKey(caller), p[0]), p[1..]);
    }
  }

  lemma GrpcReplayIff(parsers: Parsers, input: SignInput, p: seq<AuthConfig>)
    requires |p| == 5 && !p[0].allowAll
    ensures Replay(parsers, input, GrpcAllowAll, p) == Decided(Granted) <==>
      && input.token.Some? && input.token.value in p[1].tokens
      && var caller := p[1].tokens[input.token.value];
         && GrpcAddress(parsers, p[2], p[3], input, caller)
         && KeyPermitted(if input.peer.Some? then p[4] else p[2], caller, input.keyId)
  {
    var p1, p2, p3, p4 := p[1..], p[2..], p[3..], p[4..];
    assert p1[1..] == p2 && p2[1..] == p3 && p3[1..] == p4;
    ReplayDecided(parsers, input, Decided(Unauthenticated), p1);
    ReplayDecided(parsers, input, Decided(Unauthenticated), p2);
    if input.token.Some? && input.token.value in p[1].tokens {
      var caller := p[1].tokens[input.token.value];
      assert Replay(parsers, input, GrpcAllowAll, p) ==
        Replay(parsers, input, AfterGrpcToken(input, caller), p2);
      if input.peer.Some? {
        var client := ClientOf(parsers, p[2], input);
        assert Replay(parsers, input, GrpcProxies(caller), p2) == Replay(parsers, input, GrpcIp(caller, client), p3);
        ReplayDecided(parsers, input, Decided(IpRefused(client, caller)), p4);
        GrpcKeyReplayIff(parsers, input, caller, p4);
      } else {
        GrpcKeyReplayIff(parsers, input, caller, p2);
      }
    }
  }

  /** The policies at these positions name the token's caller, resolve the address,
      accept it for that caller, and accept the key for that caller, in this order. */
  predicate GrpcPasses(
    parsers: Parsers, input: SignInput, policies: seq<AuthConfig>, i: nat, j: nat, k: nat, l: nat) {
    && i <= j <= k <= l < |policies|
    && input.token.Some? && input.token.value in policies[i].tokens
    && var caller := policies[i].tokens[input.token.value];
       && GrpcAddress(parsers, policies[j], policies[k], input, caller)
       && KeyPermitted(policies[l], caller, input.keyId)
  }

  ghost predicate AdmitsEveryone(policies: seq<AuthConfig>) {
    exists n :: 0 <= n < |policies| && policies[n].allowAll
  }

  lemma GrpcPathPasses(parsers: Parsers, input: SignInput, policies: seq<AuthConfig>, positions: seq<nat>)
    requires Path(policies, positions)
    requires Replay(parsers, input, GrpcAllowAll, At(policies, positions)) == Decided(Granted)
    ensures AdmitsEveryone(policies) || exists i, j, k, l :: GrpcPasses(parsers, input, policies, i, j, k, l)
  {
    var p := At(policies, positions);
    GrpcReads(parsers, input, p);
    if !policies[positions[0]].allowAll {
      var caller :| GrpcGatesPassed(parsers, input, p, caller);
      var at := (k: nat) => if k < |positions| then positions[k] else positions[|positions| - 1];
      if input.peer.Some? {
        var l := if input.keyId == "" then at(3) else at(4);
        assert GrpcPasses(parsers, input, policies, at(1), at(2), at(3), l);
      } else {
        var l := if input.keyId == "" then at(1) else at(2);
        assert GrpcPasses(parsers, input, policies, at(1), at(1), at(1), l);
      }
    }
  }

  lemma GrpcPassesOnPath(
    parsers: Parsers, input: SignInput, policies: seq<AuthConfig>, i: nat, j: nat, k: nat, l: nat)
    returns (positions: seq<nat>)
    requires GrpcPasses(parsers, input, policies, i, j, k, l) && !policies[i].allowAll
    ensures Path(policies, positions)
    ensures Replay(parsers, input, GrpcAllowAll, At(policies, positions)) == Decided(Granted)
  {
    positions := if input.peer.Some? then [i, i, j, k, l] else [i, i, l, l, l];
    GrpcReplayIff(parsers, input, At(policies, positions));
  }

  lemma AdmitsEveryoneOnPath(parsers: Parsers, input: SignInput, policies: seq<AuthConfig>, n: nat)
    returns (positions: seq<nat>)
    requires n < |policies| && policies[n].allowAll
    ensures Path(policies, positions)
    ensures Replay(parsers, input, GrpcAllowAll, At(policies, positions)) == Decided(Granted)
  {
    positions := [n];
    var p := At(policies, positions);
    assert Replay(parsers, input, Decided(Granted), p[1..]) == Decided(Granted);
  }

  /** With any number of reloads while it is under way, a request can be granted over
      gRPC exactly when a policy in force meanwhile admits everyone, or some of them, none
      older than the one before, name the token's caller, resolve the address, accept it
      and accept the key. */
  lemma GrpcGrantsIff(
    parsers: Parsers, input: SignInput, backend: Watcher.Backend, keys: seq<KeyConfig>, policies: seq<AuthConfig>)
    requires policies != []
    ensures GrantsDuring(parsers, input, GrpcAllowAll, backend, keys, policies) <==>
      AdmitsEveryone(policies) || exists i, j, k, l :: GrpcPasses(parsers, input, policies, i, j, k, l)
  {
    GrantsDuringIff(parsers, input, GrpcAllowAll, backend, keys, policies);
    if GrantsDuring(parsers, input, GrpcAllowAll, backend, keys, policies) {
      var positions :|
        Path(policies, positions) && Replay(parsers, input, GrpcAllowAll, At(policies, positions)) == Decided(Granted);
      GrpcPathPasses(parsers, input, policies, positions);
    }
    if AdmitsEveryone(policies) {
      var n :| 0 <= n < |policies| && policies[n].allowAll;
      var positions := AdmitsEveryoneOnPath(parsers, input, policies, n);
    } else if i, j, k, l :| GrpcPasses(parsers, input, policies, i, j, k, l) {
      var positions := GrpcPassesOnPath(parsers, input, policies, i, j, k, l);
    }
  }

  lemma GrpcVerdictPasses(parsers: Parsers, input: SignInput, policies: seq<AuthConfig>, n: nat)
    requires n < |policies|
    ensures GrpcVerdict(parsers, policies[n], input) == Granted <==>
      policies[n].allowAll || GrpcPasses(parsers, input, policies, n, n, n, n)
  {
  }

  /** A run can grant over gRPC what none of the policies in force meanwhile grants
      exactly when none admits everyone, some four of them pass the gates in order, and no
      policy passes all by itself. */
  lemma GrpcTornGrantIff(
    parsers: Parsers, input: SignInput, backend: Watcher.Backend, keys: seq<KeyConfig>, policies: seq<AuthConfig>)
    requires policies != []
    ensures
      (&& GrantsDuring(parsers, input, GrpcAllowAll, backend, keys, policies)
       && forall n :: 0 <= n < |policies| ==> GrpcVerdict(parsers, policies[n], input) != Granted)
      <==>
      (&& !AdmitsEveryone(policies)
       && (exists i, j, k, l :: GrpcPasses(parsers, input, policies, i, j, k, l))
       && forall n :: 0 <= n < |policies| ==> !GrpcPasses(parsers, input, policies, n, n, n, n))
  {
    GrpcGrantsIff(parsers, input, backend, keys, policies);
    forall n | 0 <= n < |policies|
      ensures GrpcVerdict(parsers, policies[n], input) == Granted <==>
        policies[n].allowAll || GrpcPasses(parsers, input, policies, n, n, n, n)
    {
      GrpcVerdictPasses(parsers, input, policies, n);
    }
  }

  /** With one reload, known peer or not: exactly when neither policy admits everyone, the
      new one lets the caller the old one gives the token use the key, the address passes
      under one of the policies or across them, and neither policy passes all by itself. */
  lemma GrpcTornByOneReloadIff(
    parsers: Parsers, input: SignInput, backend: Watcher.Backend, keys: seq<KeyConfig>, p: AuthConfig, q: AuthConfig)
    ensures
      (&& GrpcVerdict(parsers, p, input) != Granted
       && GrpcVerdict(parsers, q, input) != Granted
       && GrantsDuring(parsers, input, GrpcAllowAll, backend, keys, [p, q]))
      <==>
      (&& !p.allowAll && !q.allowAll
       && input.token.Some? && input.token.value in p.tokens
       && var token, caller := input.token.value, p.tokens[input.token.value];
          && KeyPermitted(q, caller, input.keyId)
          && (|| GrpcAddress(parsers, p, p, input, caller)
              || GrpcAddress(parsers, q, q, input, caller)
              || GrpcAddress(parsers, p, q, input, caller))
          && !(GrpcAddress(parsers, p, p, input, caller) && KeyPermitted(p, caller, input.keyId))
          && !(token in q.tokens
               && GrpcAddress(parsers, q, q, input, q.tokens[token])
               && KeyPermitted(q, q.tokens[token], input.keyId)))
  {
    var policies := [p, q];
    GrpcGrantsIff(parsers, input, backend, keys, policies);
    GrpcVerdictPasses(parsers, input, policies, 0);
    GrpcVerdictPasses(parsers, input, policies, 1);
    assert policies[0] == p && policies[1] == q;
    assert forall i, j, k, l :: GrpcPasses(parsers, input, policies, i, j, k, l) ==> i in {0, 1} && l in {0, 1};
    if input.token.Some? && input.token.value in p.tokens {
      var caller := p.tokens[input.token.value];
      assert
        || GrpcPasses(parsers, input, policies, 0, 0, 0, 1)
        || GrpcPasses(parsers, input, policies, 0, 0, 1, 1)
        || GrpcPasses(parsers, input, policies, 0, 1, 1, 1)
        || !(&& KeyPermitted(q, caller, input.keyId)
             && (|| GrpcAddress(parsers, p, p, input, caller)
                 || GrpcAddress(parsers, q, q, input, caller)
                 || GrpcAddress(parsers, p, q, input, caller)));
    }
  }

  // ----- examples -----

  /** It happens on both paths: a reload that revokes a caller's token while it lifts the
      caller's key list, falling after the token was read, lets a run grant the revoked
      caller the other key. */
  lemma TornGrantExample(parsers: Parsers, peer: IpAddr, backend: Watcher.Backend, keys: seq<KeyConfig>, grpc: bool)
    returns (run: seq<Step>, r: Request)
    ensures
      var p := AuthConfig(map["t" := "c"], false, map["c" := ["k1"]], map[], []);
      var q := AuthConfig(map[], false, map[], map[], []);
      && r.input == SignInput("c", Some("t"), Some(peer), None, "k2")
      && r.entry == (if grpc then GrpcAllowAll else HttpCaller)
      && Reached(parsers, Watcher.Start(backend, keys, p), run, [p, q], r) && r.stage == Decided(Granted)
      && Inflight.Verdict(parsers, p, r) == KeyRefused("k2", "c")
      && Inflight.Verdict(parsers, q, r) == Unauthenticated
  {
    var p := AuthConfig(map["t" := "c"], false, map["c" := ["k1"]], map[], []);
    var q := AuthConfig(map[], false, map[], map[], []);
    var input := SignInput("c", Some("t"), Some(peer), None, "k2");
    var entry := if grpc then GrpcAllowAll else HttpCaller;
    var positions: seq<nat>;
    if grpc {
      positions := GrpcPassesOnPath(parsers, input, [p, q], 0, 0, 0, 1);
    } else {
      positions := HttpPassesOnPath(parsers, input, [p, q], 0, 0, 0, 1);
    }
    run, r := PathRun(parsers, input, entry, backend, keys, [p, q], positions);
    assert "k2" != "k1" by {
      assert "k2"[1] != "k1"[1];
    }
  }

  lemma HttpNeedsEveryGate(
    parsers: Parsers, input: SignInput, backend: Watcher.Backend, keys: seq<KeyConfig>, policies: seq<AuthConfig>)
    requires input.peer.Some? && policies != []
    requires
      || (forall n :: 0 <= n < |policies| ==> !CheckCaller(policies[n], input.callerId, input.token))
      || (forall n, ip :: 0 <= n < |policies| ==> !CheckIpAllowed(parsers, policies[n], input.callerId, ip))
      || (forall n :: 0 <= n < |policies| ==> !KeyGate(policies[n], input))
    ensures !GrantsDuring(parsers, input, HttpCaller, backend, keys, policies)
  {
    HttpGrantsIff(parsers, input, backend, keys, policies);
  }

  /** Three policies can grant together what no two of them do: one knows the token, one
      lets the caller in from anywhere, one lets it use any key. */
  lemma TornByTwoReloadsExample(parsers: Parsers, peer: IpAddr, backend: Watcher.Backend, keys: seq<KeyConfig>)
    ensures
      var p := AuthConfig(map["t" := "c"], false, map["c" := []], map["c" := []], []);
      var q := AuthConfig(map[], false, map["c" := []], map[], []);
      var r := AuthConfig(map[], false, map[], map["c" := []], []);
      var input := SignInput("c", Some("t"), Some(peer), None, "k");
      && GrantsDuring(parsers, input, HttpCaller, backend, keys, [p, q, r])
      && !GrantsDuring(parsers, input, HttpCaller, backend, keys, [p, q])
      && !GrantsDuring(parsers, input, HttpCaller, backend, keys, [p, r])
      && !GrantsDuring(parsers, input, HttpCaller, backend, keys, [q, r])
  {
    var p := AuthConfig(map["t" := "c"], false, map["c" := []], map["c" := []], []);
    var q := AuthConfig(map[], false, map["c" := []], map[], []);
    var r := AuthConfig(map[], false, map[], map["c" := []], []);
    var input := SignInput("c", Some("t"), Some(peer), None, "k");
    HttpNeedsEveryGate(parsers, input, backend, keys, [p, q]);
    HttpNeedsEveryGate(parsers, input, backend, keys, [p, r]);
    HttpNeedsEveryGate(parsers, input, backend, keys, [q, r]);
    HttpGrantsIff(parsers, input, backend, keys, [p, q, r]);
    assert HttpPasses(parsers, input, [p, q, r], 0, 1, 1, 2);
  }
}
