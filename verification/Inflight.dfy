/** Sign requests in flight while the watcher replaces policies: any number of
    requests, each reading the auth lock several times, interleaved in every way with
    the steps of the reload task. */
module Inflight {
  import opened GatewayTypes
  import opened Cidr
  import opened Gates
  import Watcher

  /** A request, with what was in force when it arrived and at each of its reads: the
      policies as positions in the history of policies, the versions of the file they and
      the keys come from. Once granted it lists the keys, which gRPC does only without an
      explicit algorithm, and then signs. */
  datatype Request = Request(
    input: SignInput,
    entry: Stage,
    born: nat,
    stage: Stage,
    seen: seq<nat>,            // the policy at each gate read
    versions: seq<nat>,        // and its version
    listed: Option<nat>,       // version of the keys it listed
    signed: Option<nat>)       // version of the keys it signed with

  datatype State = State(watcher: Watcher.State, requests: seq<Request>)

  datatype Step =
    | Reload(step: Watcher.Step)
    | Arrive(input: SignInput, grpc: bool)
    | ReadLock(request: nat)
    | ListKeys(request: nat)
    | Sign(request: nat)

  function Initial(start: Watcher.Start): State {
    State(Watcher.Initial(start), [])
  }

  predicate Shape(s: State) {
    && Watcher.Shape(s.watcher)
    && forall i :: 0 <= i < |s.requests| ==> Fits(s.requests[i].input, s.requests[i].stage)
  }

  /** An HTTP connection always knows its peer; a gRPC transport may not. */
  predicate Enabled(s: State, step: Step)
    requires Shape(s)
  {
    match step
    case Reload(step) => Watcher.Enabled(s.watcher, step)
    case Arrive(input, grpc) => grpc || input.peer.Some?
    case ReadLock(i) => i < |s.requests| && !s.requests[i].stage.Decided?
    case ListKeys(i) =>
      && i < |s.requests| && s.requests[i].stage == Decided(Granted)
      && s.requests[i].listed == s.requests[i].signed == None
    case Sign(i) =>
      && i < |s.requests| && s.requests[i].stage == Decided(Granted) && s.requests[i].signed == None
      && (s.requests[i].entry.HttpCaller? ==> s.requests[i].listed.Some?)
  }

  function Next(parsers: Parsers, s: State, step: Step): State
    requires Shape(s) && Enabled(s, step)
  {
    match step
    case Reload(step) => s.(watcher := Watcher.Next(s.watcher, step))
    case Arrive(input, grpc) =>
      var entry := if grpc then GrpcAllowAll else HttpCaller;
      s.(requests := s.requests + [Request(input, entry, |s.watcher.policies| - 1, entry, [], [], None, None)])
    case ReadLock(i) =>
      var r := s.requests[i];
      s.(requests := s.requests[i := r.(
        stage := Advance(parsers, r.input, r.stage, Watcher.Active(s.watcher)),
        seen := r.seen + [|s.watcher.policies| - 1],
        versions := r.versions + [Watcher.InForce(s.watcher)])])
    case ListKeys(i) => s.(requests := s.requests[i := s.requests[i].(listed := Some(s.watcher.keysFrom))])
    case Sign(i) => s.(requests := s.requests[i := s.requests[i].(signed := Some(s.watcher.keysFrom))])
  }

  /** The policies at the given positions of the history. */
  function At(policies: seq<AuthConfig>, positions: seq<nat>): seq<AuthConfig>
    requires forall k :: 0 <= k < |positions| ==> positions[k] < |policies|
  {
    seq(|positions|, k requires 0 <= k < |positions| => policies[positions[k]])
  }

  ghost predicate RequestInv(parsers: Parsers, policies: seq<AuthConfig>, r: Request) {
    && (r.entry.GrpcAllowAll? || (r.entry.HttpCaller? && r.input.peer.Some?))
    && Fits(r.input, r.entry)
    && r.born < |policies|
    && (forall k :: 0 <= k < |r.seen| ==> r.born <= r.seen[k] < |policies|)
    && (forall j, k :: 0 <= j < k < |r.seen| ==> r.seen[j] <= r.seen[k])
    && r.stage == Replay(parsers, r.input, r.entry, At(policies, r.seen))
    && |r.seen| + Remaining(r.stage) <= Remaining(r.entry)
    && |r.versions| == |r.seen|
  }

  ghost predicate Inv(parsers: Parsers, s: State) {
    && Watcher.Inv(s.watcher)
    && forall i :: 0 <= i < |s.requests| ==> RequestInv(parsers, s.watcher.policies, s.requests[i])
  }

  lemma HistoryGrowsKeepsInv(
    parsers: Parsers, policies: seq<AuthConfig>, policies': seq<AuthConfig>, r: Request)
    requires RequestInv(parsers, policies, r) && policies <= policies'
    ensures RequestInv(parsers, policies', r)
  {
    assert At(policies', r.seen) == At(policies, r.seen);
  }

  lemma ReadKeepsInv(parsers: Parsers, policies: seq<AuthConfig>, r: Request, t: Request)
    requires RequestInv(parsers, policies, r) && !r.stage.Decided?
    requires |t.versions| == |r.versions| + 1
    requires t == r.(
      stage := Advance(parsers, r.input, r.stage, policies[|policies| - 1]),
      seen := r.seen + [|policies| - 1],
      versions := t.versions)
    ensures RequestInv(parsers, policies, t)
  {
    assert At(policies, t.seen) == At(policies, r.seen) + [policies[|policies| - 1]];
    ReplayAppend(parsers, r.input, r.entry, At(policies, r.seen), policies[|policies| - 1]);
  }

  lemma ReloadKeepsInv(parsers: Parsers, s: State, step: Watcher.Step)
    requires Inv(parsers, s) && Shape(s) && Watcher.Enabled(s.watcher, step)
    ensures Inv(parsers, Next(parsers, s, Reload(step))) && Shape(Next(parsers, s, Reload(step)))
  {
    var policies, policies' := s.watcher.policies, Watcher.Next(s.watcher, step).policies;
    Watcher.StepKeepsInv(s.watcher, step);
    assert policies' == policies || policies' == policies + [policies'[|policies|]];
    forall i | 0 <= i < |s.requests| ensures RequestInv(parsers, policies', s.requests[i]) {
      HistoryGrowsKeepsInv(parsers, policies, policies', s.requests[i]);
    }
  }

  /** A step of request i leaves the policies and the other requests alone. */
  lemma RequestStepKeepsInv(parsers: Parsers, s: State, t: State, i: nat)
    requires Inv(parsers, s) && i < |s.requests| && t.watcher == s.watcher
    requires |t.requests| == |s.requests| && t.requests == s.requests[i := t.requests[i]]
    requires RequestInv(parsers, s.watcher.policies, t.requests[i])
    ensures Inv(parsers, t) && Shape(t)
  {
    forall j | 0 <= j < |t.requests| ensures RequestInv(parsers, t.watcher.policies, t.requests[j]) {
      assert RequestInv(parsers, s.watcher.policies, s.requests[j]);
    }
  }

  lemma ArriveKeepsInv(parsers: Parsers, s: State, input: SignInput, grpc: bool)
    requires Inv(parsers, s) && Shape(s) && Enabled(s, Arrive(input, grpc))
    ensures Inv(parsers, Next(parsers, s, Arrive(input, grpc))) && Shape(Next(parsers, s, Arrive(input, grpc)))
  {
    var t := Next(parsers, s, Arrive(input, grpc));
    forall i | 0 <= i < |t.requests| ensures RequestInv(parsers, s.watcher.policies, t.requests[i]) {
      if i < |s.requests| {
        assert RequestInv(parsers, s.watcher.policies, s.requests[i]);
      }
    }
  }

  lemma StepKeepsInv(parsers: Parsers, s: State, step: Step)
    requires Inv(parsers, s) && Shape(s) && Enabled(s, step)
    ensures Inv(parsers, Next(parsers, s, step)) && Shape(Next(parsers, s, step))
  {
    var t := Next(parsers, s, step);
    match step
    case Reload(w) =>
      ReloadKeepsInv(parsers, s, w);
    case Arrive(input, grpc) =>
      ArriveKeepsInv(parsers, s, input, grpc);
    case ReadLock(i) =>
      ReadKeepsInv(parsers, s.watcher.policies, s.requests[i], t.requests[i]);
      RequestStepKeepsInv(parsers, s, t, i);
    case ListKeys(i) =>
      RequestStepKeepsInv(parsers, s, t, i);
    case Sign(i) =>
      RequestStepKeepsInv(parsers, s, t, i);
  }

  // ----- runs -----

  ghost predicate ValidRun(parsers: Parsers, s: State, run: seq<Step>)
    decreases |run|
  {
    run == [] || (Shape(s) && Enabled(s, run[0]) && ValidRun(parsers, Next(parsers, s, run[0]), run[1..]))
  }

  ghost function Exec(parsers: Parsers, s: State, run: seq<Step>): State
    requires ValidRun(parsers, s, run)
    decreases |run|
  {
    if run == [] then s else Exec(parsers, Next(parsers, s, run[0]), run[1..])
  }

  lemma {:induction false} RunKeepsInv(parsers: Parsers, s: State, run: seq<Step>)
    requires Inv(parsers, s) && Shape(s) && ValidRun(parsers, s, run)
    ensures Inv(parsers, Exec(parsers, s, run))
    decreases |run|
  {
    if run != [] {
      StepKeepsInv(parsers, s, run[0]);
      RunKeepsInv(parsers, Next(parsers, s, run[0]), run[1..]);
    }
  }

  /** A request of a state some run reaches. */
  ghost predicate Reached(
    parsers: Parsers, start: Watcher.Start, run: seq<Step>, policies: seq<AuthConfig>, r: Request) {
    && ValidRun(parsers, Initial(start), run)
    && var s := Exec(parsers, Initial(start), run);
       s.watcher.policies == policies && r in s.requests
  }

  lemma ReachedInv(
    parsers: Parsers, start: Watcher.Start, run: seq<Step>, policies: seq<AuthConfig>, r: Request)
    requires Reached(parsers, start, run, policies, r)
    ensures RequestInv(parsers, policies, r)
  {
    var s0 := Initial(start);
    Watcher.InitialInv(start);
    RunKeepsInv(parsers, s0, run);
  }

  lemma {:induction false} RequestsStay(parsers: Parsers, s: State, run: seq<Step>, i: nat)
    requires Shape(s) && Inv(parsers, s) && ValidRun(parsers, s, run) && i < |s.requests|
    ensures var t := Exec(parsers, s, run);
      && i < |t.requests|
      && t.requests[i].input == s.requests[i].input && t.requests[i].entry == s.requests[i].entry
      && t.requests[i].born == s.requests[i].born
    decreases |run|
  {
    if run != [] {
      StepKeepsInv(parsers, s, run[0]);
      RequestsStay(parsers, Next(parsers, s, run[0]), run[1..], i);
    }
  }

  /** A request carries what it arrived with, and the policy that was then in force. */
  lemma ArrivalIsRecorded(
    parsers: Parsers, s: State, input: SignInput, grpc: bool, run: seq<Step>)
    requires Shape(s) && Inv(parsers, s) && Enabled(s, Arrive(input, grpc))
    requires ValidRun(parsers, Next(parsers, s, Arrive(input, grpc)), run)
    ensures var t := Exec(parsers, Next(parsers, s, Arrive(input, grpc)), run);
      && |s.requests| < |t.requests|
      && var r := t.requests[|s.requests|];
         && r.input == input && r.entry == (if grpc then GrpcAllowAll else HttpCaller)
         && r.born == |s.watcher.policies| - 1
  {
    StepKeepsInv(parsers, s, Arrive(input, grpc));
    RequestsStay(parsers, Next(parsers, s, Arrive(input, grpc)), run, |s.requests|);
  }

  /** The decision the request's own path takes under one policy. */
  function Verdict(parsers: Parsers, auth: AuthConfig, r: Request): Gates.Verdict
    requires r.entry.HttpCaller? ==> r.input.peer.Some?
  {
    if r.entry.HttpCaller? then HttpVerdict(parsers, auth, r.input) else GrpcVerdict(parsers, auth, r.input)
  }

  // ----- what a decision says about the policies in force -----

  lemma HttpReads(parsers: Parsers, input: SignInput, p: seq<AuthConfig>)
    requires input.peer.Some? && Replay(parsers, input, HttpCaller, p) == Decided(Granted)
    ensures |p| >= 3
    ensures CheckCaller(p[0], input.callerId, input.token)
    ensures CheckIpAllowed(parsers, p[2], input.callerId, ClientOf(parsers, p[1], input))
    ensures input.keyId != "" ==> |p| >= 4 && CheckKeyAllowed(p[3], input.callerId, input.keyId)
  {
    var p1 := p[1..];
    var next := Advance(parsers, input, HttpCaller, p[0]);
    if next.Decided? {
      ReplayDecided(parsers, input, next, p1);
    }
    assert Replay(parsers, input, HttpProxies, p1) == Decided(Granted);
    var p2 := p1[1..];
    var client := ClientOf(parsers, p1[0], input);
    assert Replay(parsers, input, HttpIp(client), p2) == Decided(Granted);
    var p3 := p2[1..];
    next := Advance(parsers, input, HttpIp(client), p2[0]);
    assert p1[0] == p[1] && p2[0] == p[2];
    if next.Decided? {
      ReplayDecided(parsers, input, next, p3);
    } else {
      assert Replay(parsers, input, HttpKey, p3) == Decided(Granted);
      ReplayDecided(parsers, input, Advance(parsers, input, HttpKey, p3[0]), p3[1..]);
      assert p3[0] == p[3];
    }
  }

  /** The caller's token, address and key each passed under the policy of their own read. */
  ghost predicate GrpcGatesPassed(parsers: Parsers, input: SignInput, p: seq<AuthConfig>, caller: string) {
    && |p| >= 2
    && SpeaksFor(p[1], input.token, caller)
    && (input.peer.Some? ==> |p| >= 4 && IpPermitted(parsers, p[3], caller, ClientOf(parsers, p[2], input)))
    && (input.keyId != "" ==>
          if input.peer.Some? then |p| >= 5 && KeyPermitted(p[4], caller, input.keyId)
          else |p| >= 3 && KeyPermitted(p[2], caller, input.keyId))
  }

  lemma GrpcLastGate(parsers: Parsers, input: SignInput, caller: string, stage: Stage, p: seq<AuthConfig>)
    requires stage == AfterGrpcIp(input, caller) || (stage.Decided? && stage.verdict.IpRefused?)
    requires Replay(parsers, input, stage, p) == Decided(Granted)
    ensures stage == AfterGrpcIp(input, caller)
    ensures input.keyId != "" ==> |p| >= 1 && KeyPermitted(p[0], caller, input.keyId)
  {
    if stage.Decided? {
      ReplayDecided(parsers, input, stage, p);
    } else {
      ReplayDecided(parsers, input, Advance(parsers, input, stage, p[0]), p[1..]);
    }
  }

  lemma GrpcReads(parsers: Parsers, input: SignInput, p: seq<AuthConfig>)
    requires Replay(parsers, input, GrpcAllowAll, p) == Decided(Granted)
    ensures |p| >= 1
    ensures p[0].allowAll || exists caller :: GrpcGatesPassed(parsers, input, p, caller)
  {
    var p1 := p[1..];
    var next := Advance(parsers, input, GrpcAllowAll, p[0]);
    if next.Decided? {
      ReplayDecided(parsers, input, next, p1);
    } else {
      next := Advance(parsers, input, GrpcToken, p1[0]);
      var p2 := p1[1..];
      if next == Decided(Unauthenticated) {
        ReplayDecided(parsers, input, next, p2);
      }
      var caller := p[1].tokens[input.token.value];
      if input.peer.Some? {
        assert Replay(parsers, input, GrpcProxies(caller), p2) == Decided(Granted);
        var client := ClientOf(parsers, p2[0], input);
        var p3 := p2[1..];
        assert p2[0] == p[2];
        assert Replay(parsers, input, GrpcIp(caller, client), p3) == Decided(Granted);
        next := Advance(parsers, input, GrpcIp(caller, client), p3[0]);
        GrpcLastGate(parsers, input, caller, next, p3[1..]);
        assert p3[0] == p[3];
        assert input.keyId != "" ==> p3[1..][0] == p[4];
      } else {
        GrpcLastGate(parsers, input, caller, next, p2);
        assert input.keyId != "" ==> p2[0] == p[2];
      }
      assert GrpcGatesPassed(parsers, input, p, caller);
    }
  }

  /** A granted request passed each gate under the policy in force at that gate's own
      read, whatever reloads fell between its reads. */
  lemma GrantedPassedEveryGate(
    parsers: Parsers, start: Watcher.Start, run: seq<Step>, policies: seq<AuthConfig>, r: Request)
    requires Reached(parsers, start, run, policies, r) && r.stage == Decided(Granted)
    ensures RequestInv(parsers, policies, r)
    ensures var p := At(policies, r.seen);
      if r.entry.HttpCaller? then
        && |p| >= 3
        && CheckCaller(p[0], r.input.callerId, r.input.token)
        && CheckIpAllowed(parsers, p[2], r.input.callerId, ClientOf(parsers, p[1], r.input))
        && (r.input.keyId != "" ==> |p| >= 4 && CheckKeyAllowed(p[3], r.input.callerId, r.input.keyId))
      else
        && |p| >= 1
        && (p[0].allowAll || exists caller :: GrpcGatesPassed(parsers, r.input, p, caller))
  {
    ReachedInv(parsers, start, run, policies, r);
    var p := At(policies, r.seen);
    if r.entry.HttpCaller? {
      HttpReads(parsers, r.input, p);
    } else {
      GrpcReads(parsers, r.input, p);
    }
  }

  ghost predicate Tightening(
    parsers: Parsers, input: SignInput, policies: seq<AuthConfig>, lo: nat, hi: nat)
    requires lo <= hi < |policies|
  {
    forall k :: lo <= k < hi ==> AdmitsAtLeast(parsers, input, policies[k], policies[k + 1])
  }

  ghost predicate Loosening(
    parsers: Parsers, input: SignInput, policies: seq<AuthConfig>, lo: nat, hi: nat)
    requires lo <= hi < |policies|
  {
    forall k :: lo <= k < hi ==> AdmitsAtLeast(parsers, input, policies[k + 1], policies[k])
  }

  lemma {:induction false} FirstAdmitsMost(
    parsers: Parsers, input: SignInput, policies: seq<AuthConfig>, lo: nat, hi: nat)
    requires lo <= hi < |policies| && Tightening(parsers, input, policies, lo, hi)
    ensures AdmitsAtLeast(parsers, input, policies[lo], policies[hi])
    decreases hi
  {
    if lo < hi {
      FirstAdmitsMost(parsers, input, policies, lo, hi - 1);
      AdmitsTransitive(parsers, input, policies[lo], policies[hi - 1], policies[hi]);
    }
  }

  lemma {:induction false} LastAdmitsMost(
    parsers: Parsers, input: SignInput, policies: seq<AuthConfig>, lo: nat, hi: nat)
    requires lo <= hi < |policies| && Loosening(parsers, input, policies, lo, hi)
    ensures AdmitsAtLeast(parsers, input, policies[hi], policies[lo])
    decreases hi - lo
  {
    if lo < hi {
      LastAdmitsMost(parsers, input, policies, lo + 1, hi);
      AdmitsTransitive(parsers, input, policies[hi], policies[lo + 1], policies[lo]);
    }
  }

  lemma GrantsFromEntry(parsers: Parsers, r: Request, p: AuthConfig)
    requires r.entry.GrpcAllowAll? || (r.entry.HttpCaller? && r.input.peer.Some?)
    requires GrantsFrom(parsers, r.input, r.entry, p)
    ensures Verdict(parsers, p, r) == Granted
  {
    FinishIsVerdict(parsers, r.input, p);
  }

  /** If every reload since the request arrived only tightens gates, the policy in
      force at its arrival grants what was granted. */
  lemma TighteningStartGrants(
    parsers: Parsers, start: Watcher.Start, run: seq<Step>, policies: seq<AuthConfig>, r: Request)
    requires Reached(parsers, start, run, policies, r) && r.stage == Decided(Granted)
    requires r.born < |policies| && Tightening(parsers, r.input, policies, r.born, |policies| - 1)
    ensures r.entry.HttpCaller? ==> r.input.peer.Some?
    ensures Verdict(parsers, policies[r.born], r) == Granted
  {
    ReachedInv(parsers, start, run, policies, r);
    var p := At(policies, r.seen);
    forall k | 0 <= k < |p| ensures AdmitsAtLeast(parsers, r.input, policies[r.born], p[k]) {
      FirstAdmitsMost(parsers, r.input, policies, r.born, r.seen[k]);
    }
    GrantedUnderMorePermissive(parsers, r.input, r.entry, p, policies[r.born]);
    GrantsFromEntry(parsers, r, policies[r.born]);
  }

  /** If every reload since the request arrived only loosens gates, the active policy
      grants what was granted. */
  lemma LooseningEndGrants(
    parsers: Parsers, start: Watcher.Start, run: seq<Step>, policies: seq<AuthConfig>, r: Request)
    requires Reached(parsers, start, run, policies, r) && r.stage == Decided(Granted)
    requires r.born < |policies| && Loosening(parsers, r.input, policies, r.born, |policies| - 1)
    ensures r.entry.HttpCaller? ==> r.input.peer.Some?
    ensures Verdict(parsers, policies[|policies| - 1], r) == Granted
  {
    ReachedInv(parsers, start, run, policies, r);
    var p, last := At(policies, r.seen), policies[|policies| - 1];
    forall k | 0 <= k < |p| ensures AdmitsAtLeast(parsers, r.input, last, p[k]) {
      LastAdmitsMost(parsers, r.input, policies, r.seen[k], |policies| - 1);
    }
    GrantedUnderMorePermissive(parsers, r.input, r.entry, p, last);
    GrantsFromEntry(parsers, r, last);
  }

  /** With no reload between its reads, a request is decided as under the one policy
      it saw, with the same reason for a refusal. */
  lemma UndisturbedIsSnapshot(
    parsers: Parsers, start: Watcher.Start, run: seq<Step>, policies: seq<AuthConfig>, r: Request)
    requires Reached(parsers, start, run, policies, r) && r.stage.Decided?
    requires r.seen != [] && r.seen[0] == r.seen[|r.seen| - 1] < |policies|
    ensures r.entry.HttpCaller? ==> r.input.peer.Some?
    ensures r.stage == Decided(Verdict(parsers, policies[r.seen[0]], r))
  {
    ReachedInv(parsers, start, run, policies, r);
    var only := policies[r.seen[0]];
    ReplayConstant(parsers, r.input, r.entry, At(policies, r.seen), only);
    FinishIsVerdict(parsers, r.input, only);
  }
}
