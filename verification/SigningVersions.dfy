/** Which version of auth.toml the policy and the keys behind one signature can come from.
    A request reads the policy at its gates, the registry when it lists the keys and the
    registry again when it signs (src/http/handlers.rs, src/grpc/service.rs), while the
    reload task writes keys and policy separately (src/main.rs). */
module SigningVersions {
  import opened GatewayTypes
  import opened Cidr
  import opened Gates
  import opened Inflight
  import opened TornGrants
  import Watcher

  // ----- versions only grow -----

  /** Versions are read in the order they were written, and keys come from one that was. */
  ghost predicate Ordered(w: Watcher.State) {
    Watcher.Inv(w) && Watcher.Ascending(w.readLog) && w.keysFrom <= Watcher.LastRead(w)
  }

  lemma VersionsGrow(w: Watcher.State, step: Watcher.Step)
    requires Ordered(w) && Watcher.Enabled(w, step)
    ensures var t := Watcher.Next(w, step);
      && Ordered(t) && Watcher.InForce(w) <= Watcher.InForce(t) && w.keysFrom <= t.keysFrom
      && (t.keysFrom == w.keysFrom || Watcher.InForce(w) <= t.keysFrom)
  {
    Watcher.StepKeepsInv(w, step);
    Watcher.InForceBeforeLastRead(w);
    Watcher.StepKeepsOrder(w, step);
  }

  /** No key reload has failed yet: the keys are at least as new as the policy. */
  ghost predicate OnTrack(w: Watcher.State) {
    && w.backend.Software? && Watcher.InForce(w) <= w.keysFrom
    && (w.task.ReplacingAuth? ==> w.keysFrom == w.task.version)
  }

  lemma StepKeepsOnTrack(w: Watcher.State, step: Watcher.Step)
    requires Ordered(w) && OnTrack(w) && Watcher.Enabled(w, step)
    requires step != Watcher.KeysReloaded(false)
    ensures OnTrack(Watcher.Next(w, step))
  {
    Watcher.InForceBeforeLastRead(w);
    Watcher.StepKeepsOrder(w, step);
  }

  // ----- the versions one request met -----

  predicate Covers(r: Request, version: nat) {
    forall k :: 0 <= k < |r.versions| ==> r.versions[k] <= version
  }

  /** A request lists and signs once it is granted; from one to the other the keys stay,
      or become at least as new as the policies it was judged by. */
  ghost predicate Consistent(w: Watcher.State, r: Request) {
    && (r.listed.Some? || r.signed.Some? ==> r.stage.Decided?)
    && Covers(r, Watcher.InForce(w))
    && (r.listed.Some? ==>
          && r.listed.value <= w.keysFrom
          && (r.signed == None ==> w.keysFrom == r.listed.value || Covers(r, w.keysFrom)))
    && (r.listed.Some? && r.signed.Some? ==>
          && r.listed.value <= r.signed.value
          && (r.signed.value == r.listed.value || Covers(r, r.signed.value)))
  }

  predicate Sound(r: Request) {
    && (r.listed.Some? ==> Covers(r, r.listed.value))
    && (r.signed.Some? ==> Covers(r, r.signed.value))
    && (r.listed.Some? || r.signed.Some? ==> r.stage.Decided?)
  }

  predicate FromStart(r: Request) {
    (r.listed.Some? ==> r.listed.value == 0) && (r.signed.Some? ==> r.signed.value == 0)
  }

  ghost predicate VersionInv(s: State) {
    Ordered(s.watcher) && forall i :: 0 <= i < |s.requests| ==> Consistent(s.watcher, s.requests[i])
  }

  ghost predicate TrackInv(s: State) {
    OnTrack(s.watcher) && forall i :: 0 <= i < |s.requests| ==> Sound(s.requests[i])
  }

  ghost predicate FixedInv(s: State) {
    && s.watcher.backend.Cluster? && s.watcher.keysFrom == 0
    && forall i :: 0 <= i < |s.requests| ==> FromStart(s.requests[i])
  }

  lemma StepKeepsVersionInv(parsers: Parsers, s: State, step: Step)
    requires Shape(s) && Enabled(s, step) && VersionInv(s)
    ensures VersionInv(Next(parsers, s, step))
  {
    var t := Next(parsers, s, step);
    if step.Reload? {
      VersionsGrow(s.watcher, step.step);
    }
    forall i | 0 <= i < |t.requests| ensures Consistent(t.watcher, t.requests[i]) {
      if i < |s.requests| {
        assert Consistent(s.watcher, s.requests[i]);
      }
    }
  }

  lemma StepKeepsTrackInv(parsers: Parsers, s: State, step: Step)
    requires Shape(s) && Enabled(s, step) && VersionInv(s) && TrackInv(s)
    requires step != Reload(Watcher.KeysReloaded(false))
    ensures TrackInv(Next(parsers, s, step))
  {
    var t := Next(parsers, s, step);
    if step.Reload? {
      StepKeepsOnTrack(s.watcher, step.step);
    }
    forall i | 0 <= i < |t.requests| ensures Sound(t.requests[i]) {
      if i < |s.requests| {
        assert Sound(s.requests[i]) && Consistent(s.watcher, s.requests[i]);
      }
    }
  }

  lemma StepKeepsFixedInv(parsers: Parsers, s: State, step: Step)
    requires Shape(s) && Enabled(s, step) && FixedInv(s)
    ensures FixedInv(Next(parsers, s, step))
  {
    var t := Next(parsers, s, step);
    forall i | 0 <= i < |t.requests| ensures FromStart(t.requests[i]) {
      if i < |s.requests| {
        assert FromStart(s.requests[i]);
      }
    }
  }

  predicate NoFailure(run: seq<Step>) {
    forall k :: 0 <= k < |run| ==> run[k] != Reload(Watcher.KeysReloaded(false))
  }

  lemma {:induction false} RunKeepsVersions(parsers: Parsers, s: State, run: seq<Step>)
    requires Inv(parsers, s) && Shape(s) && ValidRun(parsers, s, run) && VersionInv(s)
    ensures VersionInv(Exec(parsers, s, run))
    ensures TrackInv(s) && NoFailure(run) ==> TrackInv(Exec(parsers, s, run))
    ensures FixedInv(s) ==> FixedInv(Exec(parsers, s, run))
    decreases |run|
  {
    if run != [] {
      StepKeepsInv(parsers, s, run[0]);
      StepKeepsVersionInv(parsers, s, run[0]);
      if TrackInv(s) && NoFailure(run) {
        StepKeepsTrackInv(parsers, s, run[0]);
      }
      if FixedInv(s) {
        StepKeepsFixedInv(parsers, s, run[0]);
      }
      RunKeepsVersions(parsers, Next(parsers, s, run[0]), run[1..]);
    }
  }

  // ----- reaching given versions -----

  /** A calm task that has applied version x of the policy p, over keys of version k. */
  ghost predicate Stands(w: Watcher.State, p: AuthConfig, x: nat, k: nat) {
    && Watcher.Inv(w) && Watcher.Calm(w) && |w.file| == x + 1 && Watcher.OnDiskParses(w)
    && Watcher.Active(w) == p && Watcher.InForce(w) == x && w.keysFrom == k
  }

  lemma {:induction false} BesideNoFailure(reloads: seq<Watcher.Step>)
    requires Watcher.Succeeds(reloads)
    ensures NoFailure(Beside(reloads))
  {
    if reloads != [] {
      BesideNoFailure(reloads[1..]);
    }
  }

  lemma ReadIsInForce(w: Watcher.State)
    requires Watcher.Inv(w) && w.task.Receiving? && Watcher.IsParsed(w.file, Watcher.LastRead(w))
    ensures Watcher.InForce(w) == Watcher.LastRead(w)
  {
  }

  lemma WrittenStands(w: Watcher.State, p: AuthConfig, x: nat, k: nat, events: nat, ok: bool)
    requires Stands(w, p, x, k) && events >= 1
    requires Watcher.Inv(Watcher.Written(w, [], p, events, ok))
    ensures var t := Watcher.Written(w, [], p, events, ok);
      && Stands(t, p, x + 1, if ok && w.backend.Software? then x + 1 else k)
      && t.pending == w.pending + events - 1 && t.backend == w.backend
  {
    ReadIsInForce(Watcher.Written(w, [], p, events, ok));
  }

  /** One more version is written, with this many events, and its key reload ends so. */
  lemma OneVersion(parsers: Parsers, s: State, p: AuthConfig, x: nat, k: nat, events: nat, ok: bool)
    returns (run: seq<Step>, t: State)
    requires Shape(s) && Stands(s.watcher, p, x, k) && events >= 1 && (s.watcher.backend.Cluster? ==> ok)
    ensures ValidRun(parsers, s, run) && t == Exec(parsers, s, run) && (ok ==> NoFailure(run))
    ensures Shape(t) && t.requests == s.requests && t.watcher.backend == s.watcher.backend
    ensures Stands(t.watcher, p, x + 1, if ok && s.watcher.backend.Software? then x + 1 else k)
    ensures t.watcher.pending == s.watcher.pending + events - 1
  {
    var reload := Watcher.WriteAndHandle(s.watcher, [], p, events, ok);
    BesideRun(parsers, s, reload);
    WrittenStands(s.watcher, p, x, k, events, ok);
    run := Beside(reload);
    t := s.(watcher := Watcher.Written(s.watcher, [], p, events, ok));
    if ok {
      BesideNoFailure(reload);
    }
  }

  lemma {:induction false} Versions(parsers: Parsers, s: State, p: AuthConfig, x: nat, k: nat, n: nat, ok: bool)
    returns (run: seq<Step>, t: State)
    requires Shape(s) && Stands(s.watcher, p, x, k) && (s.watcher.backend.Cluster? ==> ok)
    ensures ValidRun(parsers, s, run) && t == Exec(parsers, s, run) && (ok ==> NoFailure(run))
    ensures Shape(t) && t.requests == s.requests && t.watcher.backend == s.watcher.backend
    ensures Stands(t.watcher, p, x + n, if n > 0 && ok && s.watcher.backend.Software? then x + n else k)
    ensures t.watcher.pending == s.watcher.pending
    decreases n
  {
    run, t := [], s;
    if n > 0 {
      var first, next := OneVersion(parsers, s, p, x, k, 1, ok);
      var k' := if ok && s.watcher.backend.Software? then x + 1 else k;
      run, t := Versions(parsers, next, p, x + 1, k', n - 1, ok);
      Then(parsers, s, first, run);
      run := first + run;
    }
  }

  lemma AgainServes(w: Watcher.State, p: AuthConfig, x: nat, k: nat)
    requires Stands(w, p, x, k) && w.pending > 0 && w.backend.Software?
    ensures var t := Watcher.AfterRound(w.(pending := w.pending - 1), true);
      Watcher.Shape(t) && t.backend == w.backend && t.keysFrom == x
  {
  }

  /** A waiting event makes the task read the version in force again, successfully. */
  lemma SameVersionAgain(parsers: Parsers, s: State, p: AuthConfig, x: nat, k: nat)
    returns (run: seq<Step>, t: State)
    requires Shape(s) && Stands(s.watcher, p, x, k) && s.watcher.pending > 0 && s.watcher.backend.Software?
    ensures ValidRun(parsers, s, run) && t == Exec(parsers, s, run) && NoFailure(run)
    ensures Shape(t) && t.requests == s.requests && t.watcher.backend == s.watcher.backend
    ensures t.watcher.keysFrom == x
  {
    var handle := Watcher.HandleOneRun(s.watcher, true);
    AgainServes(s.watcher, p, x, k);
    BesideRun(parsers, s, handle);
    BesideNoFailure(handle);
    run := Beside(handle);
    t := s.(watcher := Watcher.AfterRound(s.watcher.(pending := s.watcher.pending - 1), true));
  }

  predicate AllAt(r: Request, version: nat) {
    forall k :: 0 <= k < |r.versions| ==> r.versions[k] == version
  }

  /** A request that is alone is decided under the one policy in force. */
  lemma {:induction false} Decides(parsers: Parsers, s: State) returns (run: seq<Step>, t: State)
    requires Shape(s) && |s.requests| == 1 && AllAt(s.requests[0], Watcher.InForce(s.watcher))
    ensures ValidRun(parsers, s, run) && t == Exec(parsers, s, run) && NoFailure(run)
    ensures Shape(t) && t.watcher == s.watcher && |t.requests| == 1
    ensures var r, was := t.requests[0], s.requests[0];
      && r == was.(stage := r.stage, seen := r.seen, versions := r.versions)
      && AllAt(r, Watcher.InForce(s.watcher))
      && r.stage == Decided(Finish(parsers, was.input, was.stage, Watcher.Active(s.watcher)))
    decreases Remaining(s.requests[0].stage)
  {
    run, t := [], s;
    if !s.requests[0].stage.Decided? {
      run, t := Decides(parsers, Next(parsers, s, ReadLock(0)));
      Unroll(parsers, s, ReadLock(0), run);
      run := [ReadLock(0)] + run;
    }
  }

  ghost predicate Leads(parsers: Parsers, start: Watcher.Start, run: seq<Step>, s: State) {
    Shape(s) && ValidRun(parsers, Initial(start), run) && s == Exec(parsers, Initial(start), run)
  }

  lemma Onward(
    parsers: Parsers, start: Watcher.Start, run: seq<Step>, s: State, more: seq<Step>, t: State)
    returns (longer: seq<Step>)
    requires Leads(parsers, start, run, s) && ValidRun(parsers, s, more) && t == Exec(parsers, s, more) && Shape(t)
    ensures Leads(parsers, start, longer, t)
    ensures NoFailure(run) && NoFailure(more) ==> NoFailure(longer)
  {
    Then(parsers, Initial(start), run, more);
    longer := run + more;
  }

  lemma OnwardOne(parsers: Parsers, start: Watcher.Start, run: seq<Step>, s: State, step: Step)
    returns (longer: seq<Step>, t: State)
    requires Leads(parsers, start, run, s) && Enabled(s, step) && !step.Reload?
    ensures Leads(parsers, start, longer, t) && t == Next(parsers, s, step)
    ensures NoFailure(run) ==> NoFailure(longer)
  {
    t := Next(parsers, s, step);
    Unroll(parsers, s, step, []);
    longer := Onward(parsers, start, run, s, [step] + [], t);
  }

  /** Version v of the policy over keys of version k, reached without a failed key reload
      if they are as new, and with an event left over if asked for. */
  lemma ReachVersions(parsers: Parsers, start: Watcher.Start, v: nat, k: nat, leftover: bool)
    returns (run: seq<Step>, s: State)
    requires if start.backend.Cluster? then k == 0 && !leftover else k <= v && (leftover ==> k < v)
    ensures Leads(parsers, start, run, s) && s.requests == [] && s.watcher.backend == start.backend
    ensures Stands(s.watcher, start.auth, v, k) && (leftover ==> s.watcher.pending > 0)
    ensures start.backend.Cluster? || k == v ==> NoFailure(run)
  {
    var p := start.auth;
    s := Initial(start);
    Watcher.InitialInv(start);
    var good := if start.backend.Cluster? then v else k;
    run, s := Versions(parsers, s, p, 0, 0, good, true);
    if good < v {
      var bad, t := Versions(parsers, s, p, k, k, v - k - 1, false);
      run := Onward(parsers, start, run, s, bad, t);
      var last, u := OneVersion(parsers, t, p, v - 1, k, if leftover then 2 else 1, false);
      run := Onward(parsers, start, run, t, last, u);
      s := u;
    }
  }

  /** A request arrives, reads the one policy in force, and is granted. */
  lemma ReachGrant(
    parsers: Parsers, start: Watcher.Start, early: seq<Step>, s: State, input: SignInput, entry: Stage, v: nat)
    returns (run: seq<Step>, t: State)
    requires Leads(parsers, start, early, s) && s.requests == [] && Watcher.InForce(s.watcher) == v
    requires IsEntry(input, entry) && Finish(parsers, input, entry, Watcher.Active(s.watcher)) == Granted
    ensures Leads(parsers, start, run, t) && t.watcher == s.watcher && (NoFailure(early) ==> NoFailure(run))
    ensures |t.requests| == 1
    ensures var r := t.requests[0];
      Grants(input, entry, r) && AllAt(r, v) && r.listed == r.signed == None
  {
    var arrived;
    run, arrived := OnwardOne(parsers, start, early, s, Arrive(input, entry.GrpcAllowAll?));
    var gates, decided := Decides(parsers, arrived);
    run := Onward(parsers, start, run, arrived, gates, decided);
    t := decided;
  }

  /** The keys in service become those of version k again or for the first time. */
  lemma ReachKeys(parsers: Parsers, s: State, p: AuthConfig, v: nat, k: nat, k': nat)
    returns (run: seq<Step>, t: State)
    requires Shape(s) && Stands(s.watcher, p, v, k) && k <= k'
    requires k' == k || (s.watcher.backend.Software? && (v < k' || (k' == v && s.watcher.pending > 0)))
    ensures ValidRun(parsers, s, run) && t == Exec(parsers, s, run) && Shape(t) && NoFailure(run)
    ensures t.requests == s.requests && t.watcher.backend == s.watcher.backend && t.watcher.keysFrom == k'
    ensures k' == k ==> t == s
    ensures v < k' ==> Stands(t.watcher, p, k', k')
  {
    run, t := [], s;
    if k < k' && v < k' {
      run, t := Versions(parsers, s, p, v, k, k' - v, true);
    } else if k < k' {
      run, t := SameVersionAgain(parsers, s, p, v, k);
    }
  }

  // ----- which versions can be behind one signature -----

  /** Whatever the gates read and whatever reloads came between: the keys signed with are
      the ones listed or at least as new as every policy read; without a failed key reload
      the ones listed already are; and on the token both are those of start-up. */
  lemma SignedInOrder(
    parsers: Parsers, start: Watcher.Start, run: seq<Step>, policies: seq<AuthConfig>, r: Request)
    requires Reached(parsers, start, run, policies, r) && r.signed.Some?
    ensures r.listed.Some? ==>
      && r.listed.value <= r.signed.value
      && (r.signed.value == r.listed.value || Covers(r, r.signed.value))
    ensures start.backend.Software? && NoFailure(run) ==>
      Covers(r, r.signed.value) && (r.listed.Some? ==> Covers(r, r.listed.value))
    ensures start.backend.Cluster? ==> r.signed.value == 0 && (r.listed.Some? ==> r.listed.value == 0)
  {
    Watcher.InitialInv(start);
    RunKeepsVersions(parsers, Initial(start), run);
    var s := Exec(parsers, Initial(start), run);
    var i :| 0 <= i < |s.requests| && s.requests[i] == r;
    assert Consistent(s.watcher, s.requests[i]);
  }

  /** The request was granted under the policy of version v, listed the keys of version l,
      if it listed them, and signed with those of version w. */
  ghost predicate Signed(input: SignInput, entry: Stage, r: Request, v: nat, l: Option<nat>, w: nat) {
    Grants(input, entry, r) && AllAt(r, v) && r.listed == l && r.signed == Some(w)
  }

  /** The keys listed, or those signed with if none were. */
  function Listed(l: Option<nat>, w: nat): nat {
    if l.Some? then l.value else w
  }

  predicate Possible(backend: Watcher.Backend, mayFail: bool, v: nat, l: nat, w: nat) {
    match backend
    case Cluster => l == 0 && w == 0
    case Software => l <= w && if mayFail then w == l || v <= w else v <= l
  }

  lemma ReachSigned(
    parsers: Parsers, start: Watcher.Start, input: SignInput, entry: Stage, mayFail: bool,
    v: nat, listed: Option<nat>, w: nat) returns (run: seq<Step>, s: State)
    requires IsEntry(input, entry) && Finish(parsers, input, entry, start.auth) == Granted
    requires Possible(start.backend, mayFail, v, Listed(listed, w), w) && (entry.HttpCaller? ==> listed.Some?)
    ensures Leads(parsers, start, run, s) && |s.requests| == 1 && Signed(input, entry, s.requests[0], v, listed, w)
    ensures mayFail || NoFailure(run)
  {
    var l := Listed(listed, w);
    var k := if start.backend.Cluster? then 0 else if v <= l then v else l;
    run, s := ReachVersions(parsers, start, v, k, start.backend.Software? && l < v && w == v);
    run, s := ReachGrant(parsers, start, run, s, input, entry, v);
    var more, t := ReachKeys(parsers, s, start.auth, v, k, l);
    run := Onward(parsers, start, run, s, more, t);
    s := t;
    if listed.Some? {
      run, s := OnwardOne(parsers, start, run, t, ListKeys(0));
    }
    more, t := ReachKeys(parsers, s, start.auth, if v < l then l else v, l, w);
    run := Onward(parsers, start, run, s, more, t);
    run, s := OnwardOne(parsers, start, run, t, Sign(0));
  }

  lemma GrantedHasRead(
    parsers: Parsers, start: Watcher.Start, run: seq<Step>, policies: seq<AuthConfig>, r: Request)
    requires Reached(parsers, start, run, policies, r) && r.stage.Decided?
    ensures r.versions != []
  {
    ReachedInv(parsers, start, run, policies, r);
    assert |At(policies, r.seen)| == |r.seen|;
  }

  /** Exactly which versions can be behind the signature of a request that the policy
      grants. With keys in files and no failed key reload, version v of the policy can go
      with keys listed from any version l from v on and signed with any version w from l
      on; if reloads may fail, with any l, and with w the same, or from both l and v on.
      On the token, with the keys of start-up only. Without a listing, w stands for l. */
  lemma SignedVersionsIff(
    parsers: Parsers, start: Watcher.Start, input: SignInput, entry: Stage, mayFail: bool,
    v: nat, l: Option<nat>, w: nat)
    requires IsEntry(input, entry) && (entry.HttpCaller? ==> l.Some?)
    requires (if entry.HttpCaller? then HttpVerdict(parsers, start.auth, input)
      else GrpcVerdict(parsers, start.auth, input)) == Granted
    ensures (exists run, policies, r ::
        && Reached(parsers, start, run, policies, r) && Signed(input, entry, r, v, l, w)
        && (mayFail || NoFailure(run)))
      <==> Possible(start.backend, mayFail, v, Listed(l, w), w)
  {
    if run, policies, r :|
      && Reached(parsers, start, run, policies, r) && Signed(input, entry, r, v, l, w)
      && (mayFail || NoFailure(run)) {
      SignedInOrder(parsers, start, run, policies, r);
      GrantedHasRead(parsers, start, run, policies, r);
      assert r.versions[0] == v;
    }
    if Possible(start.backend, mayFail, v, Listed(l, w), w) {
      FinishIsVerdict(parsers, input, start.auth);
      var run, s := ReachSigned(parsers, start, input, entry, mayFail, v, l, w);
      assert Reached(parsers, start, run, s.watcher.policies, s.requests[0]);
    }
  }
}
