/** The hot-reload task of src/main.rs as a state machine. Writes to auth.toml raise
    events, the notification thread sends them into a channel of capacity four and
    blocks while it is full, and the watcher task receives one, waits, drains the
    channel, reads the file, reloads the keys and then replaces the active policy. */
module Watcher {
  import opened GatewayTypes
  import opened Gates

  /** A version of auth.toml as `load_keys_file` sees it. */
  datatype Contents = Parsed(keys: seq<KeyConfig>, auth: AuthConfig) | Unparsable

  /** What serves the keys: files, which a reload reads again, or a token, whose
      registry is fixed at start-up and whose reload succeeds without doing anything. */
  datatype Backend = Software | Cluster

  datatype Start = Start(backend: Backend, keys: seq<KeyConfig>, auth: AuthConfig)

  datatype Task =
    | Receiving
    | Debouncing
    | Draining
    | Reading
    | ReloadingKeys(version: nat)
    | ReplacingAuth(version: nat)

  const CAPACITY: nat := 4

  datatype State = State(
    backend: Backend,
    file: seq<Contents>,        // every version written; the last one is on disk
    pending: nat,               // events not yet sent, a blocked send included
    queue: nat,                 // events in the channel
    task: Task,
    readLog: seq<nat>,          // versions read so far, start-up included
    keysFrom: nat,              // version whose keys the backend serves
    keysLoaded: bool,           // whether the latest key reload succeeded
    policies: seq<AuthConfig>)  // every policy that was in force; the last one is active

  datatype Step =
    | Write(contents: Contents, events: nat)
    | Send
    | Receive
    | DebounceOver
    | DrainOne
    | DrainOver
    | ReadFile
    | KeysReloaded(ok: bool)
    | AuthReplaced

  /** The gateway starts from a readable auth.toml that is already in force. */
  function Initial(start: Start): State {
    State(start.backend, [Parsed(start.keys, start.auth)], 0, 0, Receiving, [0], 0, true, [start.auth])
  }

  predicate IsParsed(file: seq<Contents>, v: nat) {
    v < |file| && file[v].Parsed?
  }

  predicate Shape(s: State) {
    s.file != [] && s.policies != [] && (s.task.ReplacingAuth? ==> IsParsed(s.file, s.task.version))
  }

  /** A write raises at least one event. A reload of fixed keys cannot fail. */
  predicate Enabled(s: State, step: Step) {
    match step
    case Write(_, events) => events >= 1
    case Send => s.pending > 0 && s.queue < CAPACITY
    case Receive => s.task.Receiving? && s.queue > 0
    case DebounceOver => s.task.Debouncing?
    case DrainOne => s.task.Draining? && s.queue > 0
    case DrainOver => s.task.Draining? && s.queue == 0
    case ReadFile => s.task.Reading?
    case KeysReloaded(ok) => s.task.ReloadingKeys? && (s.backend.Cluster? ==> ok)
    case AuthReplaced => s.task.ReplacingAuth?
  }

  function Next(s: State, step: Step): State
    requires Shape(s) && Enabled(s, step)
  {
    match step
    case Write(contents, events) => s.(file := s.file + [contents], pending := s.pending + events)
    case Send => s.(pending := s.pending - 1, queue := s.queue + 1)
    case Receive => s.(queue := s.queue - 1, task := Debouncing)
    case DebounceOver => s.(task := Draining)
    case DrainOne => s.(queue := s.queue - 1)
    case DrainOver => s.(task := Reading)
    case ReadFile =>
      var v := |s.file| - 1;
      s.(readLog := s.readLog + [v], task := if s.file[v].Parsed? then ReloadingKeys(v) else Receiving)
    case KeysReloaded(ok) =>
      s.(keysFrom := if ok && s.backend.Software? then s.task.version else s.keysFrom,
         keysLoaded := ok,
         task := ReplacingAuth(s.task.version))
    case AuthReplaced =>
      s.(policies := s.policies + [s.file[s.task.version].auth], task := Receiving)
  }

  function Active(s: State): AuthConfig
    requires s.policies != []
  {
    s.policies[|s.policies| - 1]
  }

  // ----- what every step keeps -----

  /** The latest version among those read that parses; version 0 always does. */
  function LatestParsed(file: seq<Contents>, readLog: seq<nat>): nat {
    if readLog == [] then 0
    else if IsParsed(file, readLog[|readLog| - 1]) then readLog[|readLog| - 1]
    else LatestParsed(file, readLog[..|readLog| - 1])
  }

  /** The reads whose policy has been put in force: all but one that is still being applied. */
  function Applied(s: State): seq<nat> {
    if s.readLog != [] && (s.task.ReloadingKeys? || s.task.ReplacingAuth?) then s.readLog[..|s.readLog| - 1]
    else s.readLog
  }

  /** The version whose policy is in force. */
  function InForce(s: State): nat {
    LatestParsed(s.file, Applied(s))
  }

  function LastRead(s: State): nat
    requires s.readLog != []
  {
    s.readLog[|s.readLog| - 1]
  }

  /** Something is still to come that will read the file: an event to send, an event in
      the channel, or a task between receiving and reading. */
  predicate ReadAhead(s: State) {
    s.pending > 0 || s.queue > 0 || s.task.Debouncing? || s.task.Draining? || s.task.Reading?
  }

  ghost predicate Inv(s: State) {
    && Shape(s)
    && s.queue <= CAPACITY
    && s.readLog != []
    && s.file[0].Parsed?
    && (forall i :: 0 <= i < |s.readLog| ==> s.readLog[i] < |s.file|)
    && (s.task.ReloadingKeys? || s.task.ReplacingAuth? ==>
          s.task.version == LastRead(s) && IsParsed(s.file, s.task.version))
    // no write is lost
    && (LastRead(s) < |s.file| - 1 ==> ReadAhead(s))
    // the active policy is that of the latest version read that parses
    && IsParsed(s.file, InForce(s))
    && Active(s) == s.file[InForce(s)].auth
    && IsParsed(s.file, s.keysFrom)
    && (s.keysLoaded && s.backend.Software? ==>
          s.keysFrom == if s.task.ReplacingAuth? then s.task.version else InForce(s))
  }

  lemma {:induction false} LatestParsedGrows(file: seq<Contents>, more: Contents, readLog: seq<nat>)
    requires file != [] && file[0].Parsed?
    requires forall i :: 0 <= i < |readLog| ==> readLog[i] < |file|
    ensures LatestParsed(file + [more], readLog) == LatestParsed(file, readLog)
    ensures IsParsed(file, LatestParsed(file, readLog))
  {
    if readLog != [] {
      LatestParsedGrows(file, more, readLog[..|readLog| - 1]);
    }
  }

  lemma InitialInv(start: Start)
    ensures Inv(Initial(start))
  {
  }

  lemma WriteKeepsInv(s: State, contents: Contents, events: nat)
    requires Inv(s) && events >= 1
    ensures Inv(Next(s, Write(contents, events)))
  {
    var t := Next(s, Write(contents, events));
    assert Applied(t) == Applied(s);
    LatestParsedGrows(s.file, contents, Applied(s));
  }

  lemma UnparsableIsSkipped(file: seq<Contents>, readLog: seq<nat>, v: nat)
    requires !IsParsed(file, v)
    ensures LatestParsed(file, readLog + [v]) == LatestParsed(file, readLog)
  {
    assert (readLog + [v])[..|readLog|] == readLog;
  }

  lemma ReadKeepsInForce(s: State)
    requires Inv(s) && Enabled(s, ReadFile)
    ensures InForce(Next(s, ReadFile)) == InForce(s)
  {
    var t, v := Next(s, ReadFile), |s.file| - 1;
    assert t.readLog[..|t.readLog| - 1] == s.readLog == Applied(s);
    if !IsParsed(s.file, v) {
      UnparsableIsSkipped(s.file, s.readLog, v);
    }
  }

  lemma InvAfterRead(s: State, t: State)
    requires Inv(s) && s.task.Reading? && InForce(t) == InForce(s)
    requires var v: nat := |s.file| - 1;
      t == s.(readLog := s.readLog + [v], task := if IsParsed(s.file, v) then ReloadingKeys(v) else Receiving)
    ensures Inv(t)
  {
    assert LastRead(t) == |s.file| - 1;
  }

  lemma ReadKeepsInv(s: State)
    requires Inv(s) && Enabled(s, ReadFile)
    ensures Inv(Next(s, ReadFile))
  {
    ReadKeepsInForce(s);
    InvAfterRead(s, Next(s, ReadFile));
  }

  lemma ReplaceKeepsInv(s: State)
    requires Inv(s) && Enabled(s, AuthReplaced)
    ensures Inv(Next(s, AuthReplaced))
  {
    var t := Next(s, AuthReplaced);
    assert Applied(t) == t.readLog == s.readLog;
    assert LatestParsed(t.file, t.readLog) == s.task.version;
  }

  lemma QuietStepKeepsInv(s: State, step: Step)
    requires Inv(s) && Enabled(s, step)
    requires !step.Write? && !step.ReadFile? && !step.AuthReplaced?
    ensures Inv(Next(s, step))
  {
    assert Applied(Next(s, step)) == Applied(s);
  }

  lemma StepKeepsInv(s: State, step: Step)
    requires Inv(s) && Enabled(s, step)
    ensures Inv(Next(s, step))
  {
    match step
    case Write(contents, events) => WriteKeepsInv(s, contents, events);
    case ReadFile => ReadKeepsInv(s);
    case AuthReplaced => ReplaceKeepsInv(s);
    case _ => QuietStepKeepsInv(s, step);
  }

  // ----- runs -----

  ghost predicate ValidRun(s: State, run: seq<Step>)
    decreases |run|
  {
    run == [] || (Shape(s) && Enabled(s, run[0]) && ValidRun(Next(s, run[0]), run[1..]))
  }

  ghost function Exec(s: State, run: seq<Step>): State
    requires ValidRun(s, run)
    decreases |run|
  {
    if run == [] then s else Exec(Next(s, run[0]), run[1..])
  }

  lemma {:induction false} RunKeepsInv(s: State, run: seq<Step>)
    requires Inv(s) && ValidRun(s, run)
    ensures Inv(Exec(s, run))
    decreases |run|
  {
    if run != [] {
      StepKeepsInv(s, run[0]);
      RunKeepsInv(Next(s, run[0]), run[1..]);
    }
  }

  predicate Quiescent(s: State) {
    s.pending == 0 && s.queue == 0 && s.task.Receiving?
  }

  /** No reload is lost, in any interleaving: while a version newer than the last one
      read exists, an event or the task itself is on its way to read it; and once
      nothing is on its way, the last version has been read, and the active policy is
      that of the latest version read that parses: the version on disk, if it does. */
  lemma NoLostReload(start: Start, run: seq<Step>)
    requires ValidRun(Initial(start), run)
    ensures var s := Exec(Initial(start), run);
      && Shape(s) && s.readLog != []
      && (LastRead(s) < |s.file| - 1 ==> ReadAhead(s))
      && (Quiescent(s) ==>
            && LastRead(s) == |s.file| - 1
            && IsParsed(s.file, LatestParsed(s.file, s.readLog))
            && Active(s) == s.file[LatestParsed(s.file, s.readLog)].auth
            && (s.file[|s.file| - 1].Parsed? ==> Active(s) == s.file[|s.file| - 1].auth))
  {
    InitialInv(start);
    RunKeepsInv(Initial(start), run);
  }

  /** What the writes of a run put into the file, in order. */
  function Writes(run: seq<Step>): seq<Contents> {
    if run == [] then []
    else (if run[0].Write? then [run[0].contents] else []) + Writes(run[1..])
  }

  lemma {:induction false} FileGrows(s: State, run: seq<Step>)
    requires ValidRun(s, run)
    ensures Exec(s, run).file == s.file + Writes(run)
    decreases |run|
  {
    if run != [] {
      FileGrows(Next(s, run[0]), run[1..]);
    }
  }

  /** Version n of the file is what the n-th write wrote, version 0 what the gateway
      started from. The channel takes four events, and only a full one blocks a sender. */
  lemma FileIsWritten(start: Start, run: seq<Step>)
    requires ValidRun(Initial(start), run)
    ensures var s := Exec(Initial(start), run);
      && s.file == [Parsed(start.keys, start.auth)] + Writes(run)
      && s.queue <= 4 && (s.pending > 0 ==> (Enabled(s, Send) <==> s.queue < 4))
  {
    FileGrows(Initial(start), run);
    InitialInv(start);
    RunKeepsInv(Initial(start), run);
  }

  // ----- keys and policy -----

  function LoadOf(s: State, step: Step): seq<nat>
    requires Enabled(s, step)
  {
    if step == KeysReloaded(true) && s.backend.Software? then [s.task.version] else []
  }

  /** The versions whose keys came to be served along the run, in order. */
  ghost function Loads(s: State, run: seq<Step>): seq<nat>
    requires ValidRun(s, run)
    decreases |run|
  {
    if run == [] then [] else LoadOf(s, run[0]) + Loads(Next(s, run[0]), run[1..])
  }

  ghost predicate Ascending(versions: seq<nat>) {
    forall i, j :: 0 <= i < j < |versions| ==> versions[i] <= versions[j]
  }

  /** Versions are read and loaded in the order they were written, and only the one being
      applied can be newer than the one in force. */
  ghost predicate KeyInv(s: State, loads: seq<nat>) {
    && loads != [] && s.keysFrom == loads[|loads| - 1]
    && Ascending(loads) && Ascending(s.readLog)
    && forall k :: 0 <= k < |loads| ==>
         loads[k] <= InForce(s) || (s.task.ReplacingAuth? && loads[k] == s.task.version)
  }

  lemma {:induction false} LatestParsedBound(file: seq<Contents>, readLog: seq<nat>, bound: nat)
    requires forall i :: 0 <= i < |readLog| ==> readLog[i] <= bound
    ensures LatestParsed(file, readLog) <= bound
  {
    if readLog != [] {
      LatestParsedBound(file, readLog[..|readLog| - 1], bound);
    }
  }

  lemma InForceBeforeLastRead(s: State)
    requires Inv(s) && Ascending(s.readLog)
    ensures InForce(s) <= LastRead(s)
  {
    LatestParsedBound(s.file, Applied(s), LastRead(s));
  }

  lemma ReplacePutsInForce(s: State)
    requires Inv(s) && Enabled(s, AuthReplaced)
    ensures InForce(Next(s, AuthReplaced)) == s.task.version
  {
    assert Applied(Next(s, AuthReplaced)) == s.readLog;
  }

  lemma WriteKeepsInForce(s: State, contents: Contents, events: nat)
    requires Inv(s) && Enabled(s, Write(contents, events))
    ensures InForce(Next(s, Write(contents, events))) == InForce(s)
  {
    assert Applied(Next(s, Write(contents, events))) == Applied(s);
    LatestParsedGrows(s.file, contents, Applied(s));
  }

  lemma OtherStepKeepsInForce(s: State, step: Step)
    requires Inv(s) && Enabled(s, step) && !step.Write? && !step.ReadFile? && !step.AuthReplaced?
    ensures InForce(Next(s, step)) == InForce(s)
  {
    assert Applied(Next(s, step)) == Applied(s);
  }

  /** Reads go on in order, and no older version comes into force. */
  lemma StepKeepsOrder(s: State, step: Step)
    requires Inv(s) && Enabled(s, step) && Ascending(s.readLog)
    ensures var t := Next(s, step);
      && Ascending(t.readLog) && InForce(s) <= InForce(t)
      && (step == AuthReplaced ==> InForce(t) == s.task.version)
      && (step != AuthReplaced ==> InForce(t) == InForce(s))
  {
    match step
    case Write(contents, events) => WriteKeepsInForce(s, contents, events);
    case ReadFile => ReadKeepsInForce(s);
    case AuthReplaced =>
      InForceBeforeLastRead(s);
      ReplacePutsInForce(s);
    case _ => OtherStepKeepsInForce(s, step);
  }

  lemma LoadKeepsKeyInv(s: State, ok: bool, loads: seq<nat>)
    requires Inv(s) && Enabled(s, KeysReloaded(ok)) && KeyInv(s, loads)
    ensures KeyInv(Next(s, KeysReloaded(ok)), loads + LoadOf(s, KeysReloaded(ok)))
  {
    InForceBeforeLastRead(s);
    OtherStepKeepsInForce(s, KeysReloaded(ok));
  }

  /** A step that leaves the keys alone and puts no older version in force. */
  lemma KeyInvCarriesOver(s: State, t: State, loads: seq<nat>)
    requires KeyInv(s, loads) && t.keysFrom == s.keysFrom && Ascending(t.readLog) && InForce(s) <= InForce(t)
    requires t.task.ReplacingAuth? ==> t.task == s.task
    requires s.task.ReplacingAuth? && !t.task.ReplacingAuth? ==> s.task.version <= InForce(t)
    ensures KeyInv(t, loads)
  {
  }

  lemma StepKeepsKeyInv(s: State, step: Step, loads: seq<nat>)
    requires Inv(s) && Enabled(s, step) && KeyInv(s, loads)
    ensures KeyInv(Next(s, step), loads + LoadOf(s, step))
  {
    if step.KeysReloaded? {
      LoadKeepsKeyInv(s, step.ok, loads);
    } else {
      StepKeepsOrder(s, step);
      KeyInvCarriesOver(s, Next(s, step), loads);
      assert loads + LoadOf(s, step) == loads;
    }
  }

  lemma LoadsStep(s: State, run: seq<Step>, loads: seq<nat>)
    requires ValidRun(s, run) && run != []
    ensures loads + Loads(s, run) == loads + LoadOf(s, run[0]) + Loads(Next(s, run[0]), run[1..])
  {
  }

  lemma {:induction false} RunKeepsKeyInv(s: State, run: seq<Step>, loads: seq<nat>)
    requires Inv(s) && KeyInv(s, loads) && ValidRun(s, run)
    ensures KeyInv(Exec(s, run), loads + Loads(s, run))
    decreases |run|
  {
    if run == [] {
      assert loads + Loads(s, run) == loads;
    } else {
      StepKeepsInv(s, run[0]);
      StepKeepsKeyInv(s, run[0], loads);
      var next := Next(s, run[0]);
      RunKeepsKeyInv(next, run[1..], loads + LoadOf(s, run[0]));
      LoadsStep(s, run, loads);
    }
  }

  lemma KeysAgreeIff(s: State, loads: seq<nat>)
    requires Inv(s) && KeyInv(s, loads)
    ensures s.keysFrom == InForce(s) <==>
      && InForce(s) in loads
      && (s.task.ReplacingAuth? && s.task.version in loads ==> s.task.version == InForce(s))
  {
    InForceBeforeLastRead(s);
  }

  /** Keys and policy come from one version of the file exactly when a key reload of the
      version in force has put its keys in service (start-up counts for version 0) and
      none has those of a newer version that is still being applied. At rest nothing is
      being applied. */
  lemma KeysFollowPolicyIff(start: Start, run: seq<Step>)
    requires ValidRun(Initial(start), run)
    ensures var s, loads := Exec(Initial(start), run), [0] + Loads(Initial(start), run);
      && Shape(s) && IsParsed(s.file, InForce(s)) && Active(s) == s.file[InForce(s)].auth
      && IsParsed(s.file, s.keysFrom)
      && (s.keysFrom == InForce(s) <==>
            && InForce(s) in loads
            && (s.task.ReplacingAuth? && s.task.version in loads ==> s.task.version == InForce(s)))
      && (Quiescent(s) ==> (s.keysFrom == InForce(s) <==> InForce(s) in loads))
  {
    var s0 := Initial(start);
    InitialInv(start);
    RunKeepsInv(s0, run);
    RunKeepsKeyInv(s0, run, [0]);
    KeysAgreeIff(Exec(s0, run), [0] + Loads(s0, run));
  }

  lemma {:induction false} BackendStays(s: State, run: seq<Step>)
    requires ValidRun(s, run)
    ensures Exec(s, run).backend == s.backend
    ensures s.backend.Cluster? ==> Exec(s, run).keysFrom == s.keysFrom && Loads(s, run) == []
    decreases |run|
  {
    if run != [] {
      BackendStays(Next(s, run[0]), run[1..]);
    }
  }

  /** In particular, with keys in files, the two agree at rest when the latest key reload
      succeeded. */
  lemma KeysFollowPolicy(start: Start, run: seq<Step>)
    requires start.backend.Software? && ValidRun(Initial(start), run)
    ensures var s := Exec(Initial(start), run);
      && Shape(s) && IsParsed(s.file, s.keysFrom)
      && (Quiescent(s) && s.keysLoaded ==> s.keysFrom == InForce(s) && Active(s) == s.file[s.keysFrom].auth)
  {
    InitialInv(start);
    RunKeepsInv(Initial(start), run);
    BackendStays(Initial(start), run);
  }

  lemma {:induction false} LatestParsedIsNewest(file: seq<Contents>, readLog: seq<nat>)
    requires Ascending(readLog)
    ensures forall i :: 0 <= i < |readLog| && IsParsed(file, readLog[i]) ==> readLog[i] <= LatestParsed(file, readLog)
    ensures LatestParsed(file, readLog) == 0 || LatestParsed(file, readLog) in readLog
    ensures readLog != [] && IsParsed(file, 0) ==> IsParsed(file, LatestParsed(file, readLog))
  {
    if readLog != [] {
      LatestParsedIsNewest(file, readLog[..|readLog| - 1]);
    }
  }

  lemma OldIffNoneApplied(s: State)
    requires Inv(s) && Ascending(s.readLog)
    ensures InForce(s) == 0 <==>
      forall i :: 0 <= i < |Applied(s)| && IsParsed(s.file, Applied(s)[i]) ==> Applied(s)[i] == 0
  {
    LatestParsedIsNewest(s.file, Applied(s));
  }

  /** On the token the keys of start-up stay, so keys and policy come from one version
      exactly until a later version that parses has been put in force. */
  lemma FixedKeysFollowPolicyIff(start: Start, run: seq<Step>)
    requires start.backend.Cluster? && ValidRun(Initial(start), run)
    ensures var s := Exec(Initial(start), run);
      && s.keysFrom == 0
      && (s.keysFrom == InForce(s) <==>
            forall i :: 0 <= i < |Applied(s)| && IsParsed(s.file, Applied(s)[i]) ==> Applied(s)[i] == 0)
  {
    var s0 := Initial(start);
    InitialInv(start);
    RunKeepsInv(s0, run);
    RunKeepsKeyInv(s0, run, [0]);
    BackendStays(s0, run);
    OldIffNoneApplied(Exec(s0, run));
  }

  // ----- a round that nothing interrupts -----

  lemma Unroll(s: State, step: Step, rest: seq<Step>)
    requires Shape(s) && Enabled(s, step) && ValidRun(Next(s, step), rest)
    ensures ValidRun(s, [step] + rest) && Exec(s, [step] + rest) == Exec(Next(s, step), rest)
  {
    assert ([step] + rest)[1..] == rest;
  }

  function Drains(n: nat): seq<Step> {
    if n == 0 then [] else [DrainOne] + Drains(n - 1)
  }

  function Reload(parsed: bool, ok: bool): seq<Step> {
    [ReadFile] + if parsed then [KeysReloaded(ok)] + ([AuthReplaced] + []) else []
  }

  function Drained(n: nat, parsed: bool, ok: bool): seq<Step> {
    Drains(n) + ([DrainOver] + Reload(parsed, ok))
  }

  function Debounced(n: nat, parsed: bool, ok: bool): seq<Step> {
    [DebounceOver] + Drained(n, parsed, ok)
  }

  /** The steps of a round that finds n events, with this outcome of the key reload. */
  function Round(n: nat, parsed: bool, ok: bool): seq<Step>
    requires n >= 1
  {
    [Receive] + Debounced(n - 1, parsed, ok)
  }

  predicate OnDiskParses(s: State)
    requires s.file != []
  {
    s.file[|s.file| - 1].Parsed?
  }

  /** The state after a round: the channel is empty, the file has been read, its policy
      is in force if it parses, and so are its keys if they loaded too. */
  function AfterRound(s: State, ok: bool): State
    requires Shape(s)
  {
    var version := |s.file| - 1;
    var read := s.(task := Receiving, queue := 0, readLog := s.readLog + [version]);
    if !OnDiskParses(s) then read
    else read.(
      keysFrom := if ok && s.backend.Software? then version else s.keysFrom,
      keysLoaded := ok,
      policies := s.policies + [s.file[version].auth])
  }

  lemma RoundForgets(s: State, queue: nat, task: Task, ok: bool)
    requires Shape(s) && Shape(s.(queue := queue, task := task))
    ensures AfterRound(s.(queue := queue, task := task), ok) == AfterRound(s, ok)
  {
  }

  lemma DrainsStep(n: nat, rest: seq<Step>)
    requires n > 0
    ensures Drains(n) + rest == [DrainOne] + (Drains(n - 1) + rest)
  {
  }

  lemma {:induction false} DrainsRun(s: State, rest: seq<Step>)
    requires Shape(s) && s.task.Draining? && ValidRun(s.(queue := 0), rest)
    ensures ValidRun(s, Drains(s.queue) + rest)
    ensures Exec(s, Drains(s.queue) + rest) == Exec(s.(queue := 0), rest)
    decreases s.queue
  {
    if s.queue == 0 {
      assert Drains(0) + rest == rest;
    } else {
      var t := Next(s, DrainOne);
      DrainsRun(t, rest);
      Unroll(s, DrainOne, Drains(t.queue) + rest);
      DrainsStep(s.queue, rest);
    }
  }

  lemma ReloadRun(s: State, ok: bool)
    requires Shape(s) && s.task.Reading? && (s.backend.Cluster? ==> ok)
    ensures ValidRun(s, Reload(OnDiskParses(s), ok))
    ensures Exec(s, Reload(OnDiskParses(s), ok)) == AfterRound(s, ok).(queue := s.queue)
  {
    var s1 := Next(s, ReadFile);
    if OnDiskParses(s) {
      var s2 := Next(s1, KeysReloaded(ok));
      Unroll(s2, AuthReplaced, []);
      Unroll(s1, KeysReloaded(ok), [AuthReplaced] + []);
      Unroll(s, ReadFile, [KeysReloaded(ok)] + ([AuthReplaced] + []));
    } else {
      Unroll(s, ReadFile, []);
    }
  }

  lemma DrainedRun(s: State, ok: bool)
    requires Shape(s) && s.task.Draining? && (s.backend.Cluster? ==> ok)
    ensures ValidRun(s, Drained(s.queue, OnDiskParses(s), ok))
    ensures Exec(s, Drained(s.queue, OnDiskParses(s), ok)) == AfterRound(s, ok)
  {
    var empty, reading := s.(queue := 0), s.(queue := 0, task := Reading);
    var reload := Reload(OnDiskParses(s), ok);
    ReloadRun(reading, ok);
    RoundForgets(s, 0, Reading, ok);
    Unroll(empty, DrainOver, reload);
    DrainsRun(s, [DrainOver] + reload);
  }

  lemma DebouncedRun(s: State, ok: bool)
    requires Shape(s) && s.task.Debouncing? && (s.backend.Cluster? ==> ok)
    ensures ValidRun(s, Debounced(s.queue, OnDiskParses(s), ok))
    ensures Exec(s, Debounced(s.queue, OnDiskParses(s), ok)) == AfterRound(s, ok)
  {
    var draining := s.(task := Draining);
    DrainedRun(draining, ok);
    RoundForgets(s, s.queue, Draining, ok);
    Unroll(s, DebounceOver, Drained(s.queue, OnDiskParses(s), ok));
  }

  lemma ReceiveFirst(s: State, rest: seq<Step>, t: State)
    requires Shape(s) && s.task.Receiving? && s.queue > 0
    requires var next := s.(queue := s.queue - 1, task := Debouncing);
      ValidRun(next, rest) && Exec(next, rest) == t
    ensures ValidRun(s, [Receive] + rest) && Exec(s, [Receive] + rest) == t
  {
    Unroll(s, Receive, rest);
  }

  /** The round is a run of the machine. */
  lemma RoundIsARun(s: State, ok: bool)
    requires Shape(s) && s.task.Receiving? && s.queue > 0 && (s.backend.Cluster? ==> ok)
    ensures ValidRun(s, Round(s.queue, OnDiskParses(s), ok))
    ensures Exec(s, Round(s.queue, OnDiskParses(s), ok)) == AfterRound(s, ok)
  {
    var debouncing := s.(queue := s.queue - 1, task := Debouncing);
    DebouncedRun(debouncing, ok);
    RoundForgets(s, s.queue - 1, Debouncing, ok);
    ReceiveFirst(s, Debounced(s.queue - 1, OnDiskParses(s), ok), AfterRound(s, ok));
  }

  /** The task waits and the channel is empty; events may still be waiting to be sent. */
  predicate Calm(s: State) {
    Shape(s) && s.task.Receiving? && s.queue == 0
  }

  /** No key reload of the run fails. */
  predicate Succeeds(run: seq<Step>) {
    forall k :: 0 <= k < |run| ==> run[k] != KeysReloaded(false)
  }

  lemma RoundSucceeds(parsed: bool)
    ensures Succeeds(Round(1, parsed, true))
  {
  }

  /** An event that was waiting is sent and handled alone. */
  lemma HandleOneRun(s: State, ok: bool) returns (run: seq<Step>)
    requires Calm(s) && s.pending > 0 && (s.backend.Cluster? ==> ok)
    ensures ValidRun(s, run) && (ok ==> Succeeds(run))
    ensures Exec(s, run) == AfterRound(s.(pending := s.pending - 1), ok)
  {
    var taken := s.(pending := s.pending - 1);
    var sent := taken.(queue := 1);
    run := Round(1, OnDiskParses(s), ok);
    RoundIsARun(sent, ok);
    RoundForgets(taken, 1, Receiving, ok);
    assert taken.(queue := 1, task := Receiving) == sent;
    Unroll(s, Send, run);
    RoundSucceeds(OnDiskParses(s));
    run := [Send] + run;
  }

  function OnceWritten(s: State, keys: seq<KeyConfig>, auth: AuthConfig, events: nat): State {
    s.(file := s.file + [Parsed(keys, auth)], pending := s.pending + events)
  }

  function Written(s: State, keys: seq<KeyConfig>, auth: AuthConfig, events: nat, ok: bool): State
    requires Shape(s) && events >= 1
  {
    AfterRound(OnceWritten(s, keys, auth, events).(pending := s.pending + events - 1), ok)
  }

  lemma OnceWrittenIs(s: State, keys: seq<KeyConfig>, auth: AuthConfig, events: nat)
    requires Calm(s) && events >= 1
    ensures var t := OnceWritten(s, keys, auth, events);
      && Calm(t) && OnDiskParses(t) && t.pending == s.pending + events && t.backend == s.backend
      && Enabled(s, Write(Parsed(keys, auth), events)) && t == Next(s, Write(Parsed(keys, auth), events))
  {
  }

  lemma AfterRoundIsCalm(s: State, ok: bool)
    requires Shape(s)
    ensures Calm(AfterRound(s, ok))
  {
  }

  /** The file is written, raising this many events, and the first is handled alone. */
  lemma WriteAndHandle(s: State, keys: seq<KeyConfig>, auth: AuthConfig, events: nat, ok: bool)
    returns (run: seq<Step>)
    requires Calm(s) && events >= 1 && (s.backend.Cluster? ==> ok)
    ensures ValidRun(s, run) && (ok ==> Succeeds(run))
    ensures Exec(s, run) == Written(s, keys, auth, events, ok)
    ensures Calm(Written(s, keys, auth, events, ok))
  {
    var t := OnceWritten(s, keys, auth, events);
    OnceWrittenIs(s, keys, auth, events);
    run := HandleOneRun(t, ok);
    Unroll(s, Write(Parsed(keys, auth), events), run);
    run := [Write(Parsed(keys, auth), events)] + run;
    AfterRoundIsCalm(t.(pending := s.pending + events - 1), ok);
  }

  /** Versions can be skipped: one written while the task waits is read in the place of
      the one whose event it waits for. */
  lemma SkippedVersion(start: Start, first: Contents, second: Contents) returns (run: seq<Step>)
    ensures ValidRun(Initial(start), run)
    ensures var s := Exec(Initial(start), run);
      s.file == [Parsed(start.keys, start.auth), first, second] && s.readLog == [0, 2]
  {
    var s0 := Initial(start);
    var s1 := Next(s0, Write(first, 1));
    var s2 := Next(s1, Send);
    var s3 := Next(s2, Receive);
    var s4 := Next(s3, Write(second, 1));
    var s5 := Next(s4, DebounceOver);
    var s6 := Next(s5, DrainOver);
    Unroll(s6, ReadFile, []);
    run := [ReadFile] + [];
    Unroll(s5, DrainOver, run);
    run := [DrainOver] + run;
    Unroll(s4, DebounceOver, run);
    run := [DebounceOver] + run;
    Unroll(s3, Write(second, 1), run);
    run := [Write(second, 1)] + run;
    Unroll(s2, Receive, run);
    run := [Receive] + run;
    Unroll(s1, Send, run);
    run := [Send] + run;
    Unroll(s0, Write(first, 1), run);
    run := [Write(first, 1)] + run;
  }

  /** Keys and policy do drift apart: a key reload that fails leaves the old keys under
      the new policy, and on the token every reload does, succeeding. */
  lemma ReloadDrifts(start: Start, newKeys: seq<KeyConfig>, newAuth: AuthConfig) returns (run: seq<Step>)
    ensures ValidRun(Initial(start), run)
    ensures var s := Exec(Initial(start), run);
      && Quiescent(s) && Shape(s) && Active(s) == newAuth
      && s.file[|s.file| - 1] == Parsed(newKeys, newAuth) && s.keysFrom == 0
      && s.keysLoaded == start.backend.Cluster?
  {
    run := WriteAndHandle(Initial(start), newKeys, newAuth, 1, start.backend.Cluster?);
  }

  // ----- once writing stops, the gateway comes to rest -----

  function TaskRank(task: Task): nat {
    match task
    case Receiving => 0
    case ReplacingAuth(_) => 1
    case ReloadingKeys(_) => 2
    case Reading => 3
    case Draining => 4
    case Debouncing => 5
  }

  function Work(s: State): nat {
    7 * s.pending + 6 * s.queue + TaskRank(s.task)
  }

  lemma StepDoesWork(s: State, step: Step)
    requires Inv(s) && Enabled(s, step) && !step.Write?
    ensures Work(Next(s, step)) < Work(s)
  {
  }

  ghost predicate Stuck(s: State) {
    forall step :: Enabled(s, step) ==> step.Write?
  }

  /** A state at which only writes are possible is at rest. */
  lemma StuckIsQuiescent(s: State)
    requires Inv(s)
    ensures Quiescent(s) <==> Stuck(s)
  {
    if !Quiescent(s) {
      var step :=
        match s.task
        case Receiving => if s.queue > 0 then Receive else Send
        case Debouncing => DebounceOver
        case Draining => if s.queue > 0 then DrainOne else DrainOver
        case Reading => ReadFile
        case ReloadingKeys(_) => KeysReloaded(true)
        case ReplacingAuth(_) => AuthReplaced;
      assert Enabled(s, step) && !step.Write?;
    }
  }

  lemma {:induction false} WorkBalance(s: State, run: seq<Step>)
    requires Inv(s) && ValidRun(s, run) && forall i :: 0 <= i < |run| ==> !run[i].Write?
    ensures |run| + Work(Exec(s, run)) <= Work(s)
    ensures Inv(Exec(s, run)) && Exec(s, run).file == s.file
    decreases |run|
  {
    if run != [] {
      StepKeepsInv(s, run[0]);
      StepDoesWork(s, run[0]);
      WorkBalance(Next(s, run[0]), run[1..]);
    }
  }

  /** The file on disk is in force, if it parses. */
  predicate Current(s: State)
    requires Shape(s)
  {
    s.file[|s.file| - 1].Parsed? ==> Active(s) == s.file[|s.file| - 1].auth
  }

  lemma StuckIsCurrent(s: State)
    requires Inv(s)
    ensures Stuck(s) ==> Current(s)
  {
    if Stuck(s) && s.file[|s.file| - 1].Parsed? {
      StuckIsQuiescent(s);
      assert LatestParsed(s.file, s.readLog) == LastRead(s) == |s.file| - 1;
    }
  }

  /** After the last write, every run is shorter than the work left, and a run that
      cannot go on has put the file on disk in force, if it parses. */
  lemma Converges(s: State, run: seq<Step>)
    requires Inv(s) && ValidRun(s, run) && forall i :: 0 <= i < |run| ==> !run[i].Write?
    ensures |run| <= Work(s)
    ensures Inv(Exec(s, run)) && Exec(s, run).file == s.file
    ensures Stuck(Exec(s, run)) ==> Current(Exec(s, run))
  {
    WorkBalance(s, run);
    StuckIsCurrent(Exec(s, run));
  }
}
