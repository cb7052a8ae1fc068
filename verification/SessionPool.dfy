/** Any number of concurrent `with_session` calls over one session pool, as a state
    machine. The pool (deadpool's managed pool) hands out at most `poolSize` permits;
    a call that gets one takes the longest-idle session or, if there is none, creates
    one; ending an attempt returns session and permit. Session creation and the
    operation may answer anything, and the scheduler may run the calls in any order.
    A call cancelled while its session is being created returns its permit at once, but
    the creation, on a thread of its own, goes on by itself until its session is dropped. */
module SessionPool {
  import opened GatewayTypes
  import opened Retry

  datatype Phase<+T> =
    | Waiting                        // for a permit
    | Checking                       // permit held, about to look for an idle session
    | Creating                       // permit held, a session is being created
    | Holding(session: Session)      // permit and session held, the operation runs
    | Sleeping                       // before the next attempt, holding nothing
    | Done(answer: HsmResult<T>)
    | Cancelled                      // the caller went away while the call was suspended

  /** A call, with the attempts it has completed. */
  datatype Task<+T> = Task(phase: Phase<T>, log: seq<Attempt<T>>)

  datatype Config = Config(poolSize: nat, retries: nat)

  datatype State<+T> = State(
    tasks: seq<Task<T>>,
    free: nat,                       // permits available
    idle: seq<Session>,
    created: nat,                    // sessions created so far, numbered from 0
    exhausted: nat,                  // the retries-exhausted counter
    detached: nat)                   // creations still going on for cancelled calls

  datatype Step<+T> =
    | Arrive
    | Acquire(i: nat)
    | TakeIdle(i: nat)
    | BeginCreate(i: nat)
    | FinishCreate(i: nat)
    | FailCreate(i: nat, message: string)
    | Operate(i: nat, outcome: HsmResult<T>)
    | Wake(i: nat)
    | Cancel(i: nat)
    | EndDetached

  function Initial<T>(cfg: Config): State<T> {
    State([], cfg.poolSize, [], 0, 0, 0)
  }

  predicate Finished<T>(task: Task<T>) {
    task.phase.Done? || task.phase.Cancelled?
  }

  predicate Suspended<T>(phase: Phase<T>) {
    phase.Waiting? || phase.Creating? || phase.Sleeping?
  }

  /** The step is one of a call that has arrived. */
  predicate OfCall<T>(step: Step<T>) {
    !step.Arrive? && !step.EndDetached?
  }

  predicate CallEnabled<T>(s: State<T>, step: Step<T>, phase: Phase<T>)
    requires OfCall(step)
  {
    match step
    case Acquire(_) => phase.Waiting? && s.free > 0
    case TakeIdle(_) => phase.Checking? && s.idle != []
    case BeginCreate(_) => phase.Checking? && s.idle == []
    case FinishCreate(_) => phase.Creating?
    case FailCreate(_, _) => phase.Creating?
    case Operate(_, _) => phase.Holding?
    case Wake(_) => phase.Sleeping?
    case Cancel(_) => Suspended(phase)
  }

  predicate Enabled<T>(s: State<T>, step: Step<T>) {
    match step
    case Arrive => true
    case EndDetached => s.detached > 0
    case _ => step.i < |s.tasks| && CallEnabled(s, step, s.tasks[step.i].phase)
  }

  /** A transient attempt leads to a sleep while retries remain; any other ends the call. */
  function EndAttempt<T>(cfg: Config, task: Task<T>, a: Attempt<T>): Task<T> {
    var log := task.log + [a];
    Task(if Transient(a) && |log| <= cfg.retries then Sleeping else Done(Answer(a)), log)
  }

  function CreatingWeight<T>(task: Task<T>): nat {
    if task.phase.Creating? then 1 else 0
  }

  /** Whether the call ended by running out of retries. */
  function ExhaustedWeight<T>(task: Task<T>): nat {
    if task.phase.Done? && Exhausts(task.log) then 1 else 0
  }

  function Next<T>(cfg: Config, s: State<T>, step: Step<T>): State<T>
    requires Enabled(s, step)
  {
    match step
    case Arrive => s.(tasks := s.tasks + [Task(Waiting, [])])
    case Acquire(i) => s.(tasks := s.tasks[i := s.tasks[i].(phase := Checking)], free := s.free - 1)
    case TakeIdle(i) =>
      s.(tasks := s.tasks[i := s.tasks[i].(phase := Holding(s.idle[0]))], idle := s.idle[1..])
    case BeginCreate(i) => s.(tasks := s.tasks[i := s.tasks[i].(phase := Creating)])
    case FinishCreate(i) =>
      s.(tasks := s.tasks[i := s.tasks[i].(phase := Holding(s.created))], created := s.created + 1)
    case FailCreate(i, message) =>
      s.(tasks := s.tasks[i := EndAttempt(cfg, s.tasks[i], NoSession(message))], free := s.free + 1)
    case Operate(i, outcome) =>
      var task := EndAttempt(cfg, s.tasks[i], Ran(outcome));
      s.(tasks := s.tasks[i := task],
         idle := s.idle + [s.tasks[i].phase.session],
         free := s.free + 1,
         exhausted := s.exhausted + ExhaustedWeight(task))
    case Wake(i) => s.(tasks := s.tasks[i := s.tasks[i].(phase := Waiting)])
    case Cancel(i) =>
      s.(tasks := s.tasks[i := s.tasks[i].(phase := Cancelled)],
         free := s.free + CreatingWeight(s.tasks[i]),
         detached := s.detached + CreatingWeight(s.tasks[i]))
    case EndDetached => s.(detached := s.detached - 1)
  }

  // ----- counting over tasks -----

  function Sum<T>(tasks: seq<Task<T>>, weight: Task<T> -> nat): nat {
    if tasks == [] then 0 else weight(tasks[0]) + Sum(tasks[1..], weight)
  }

  function PermitWeight<T>(task: Task<T>): nat {
    if task.phase.Checking? || task.phase.Creating? || task.phase.Holding? then 1 else 0
  }

  function HoldingWeight<T>(task: Task<T>): nat {
    if task.phase.Holding? then 1 else 0
  }

  lemma {:induction false} SumUpdate<T>(tasks: seq<Task<T>>, i: nat, task: Task<T>, weight: Task<T> -> nat)
    requires i < |tasks|
    ensures Sum(tasks[i := task], weight) + weight(tasks[i]) == Sum(tasks, weight) + weight(task)
  {
    if i == 0 {
      assert tasks[0 := task][1..] == tasks[1..];
    } else {
      assert tasks[i := task][1..] == tasks[1..][i - 1 := task];
      SumUpdate(tasks[1..], i - 1, task, weight);
    }
  }

  lemma {:induction false} SumAppend<T>(tasks: seq<Task<T>>, task: Task<T>, weight: Task<T> -> nat)
    ensures Sum(tasks + [task], weight) == Sum(tasks, weight) + weight(task)
  {
    if tasks == [] {
      assert tasks + [task] == [task];
    } else {
      assert (tasks + [task])[1..] == tasks[1..] + [task];
      SumAppend(tasks[1..], task, weight);
    }
  }

  lemma {:induction false} SumWitness<T>(tasks: seq<Task<T>>, weight: Task<T> -> nat)
    ensures Sum(tasks, weight) > 0 <==> exists i :: 0 <= i < |tasks| && weight(tasks[i]) > 0
  {
    if tasks != [] {
      SumWitness(tasks[1..], weight);
      if i :| 0 <= i < |tasks| && weight(tasks[i]) > 0 {
        assert i > 0 ==> tasks[1..][i - 1] == tasks[i];
      }
      if j :| 0 <= j < |tasks[1..]| && weight(tasks[1..][j]) > 0 {
        assert tasks[j + 1] == tasks[1..][j];
      }
    }
  }

  /** 1 for the calls that hold this session. */
  function Holds<T>(session: Session): Task<T> -> nat {
    (task: Task<T>) => if task.phase.Holding? && task.phase.session == session then 1 else 0
  }

  lemma {:induction false} PermitsCover<T>(tasks: seq<Task<T>>)
    ensures Sum(tasks, HoldingWeight) + Sum(tasks, CreatingWeight) <= Sum(tasks, PermitWeight)
  {
    if tasks != [] {
      PermitsCover(tasks[1..]);
    }
  }

  lemma {:induction false} HeldTwice<T>(tasks: seq<Task<T>>, session: Session, i: nat, j: nat)
    requires i < j < |tasks| && Holds(session)(tasks[i]) > 0 && Holds(session)(tasks[j]) > 0
    ensures Sum(tasks, Holds(session)) >= 2
  {
    if i == 0 {
      assert tasks[1..][j - 1] == tasks[j];
      SumWitness(tasks[1..], Holds(session));
    } else {
      HeldTwice(tasks[1..], session, i - 1, j - 1);
    }
  }

  // ----- what every step keeps -----

  /** The attempts of a call and where it stands fit the retry rule. */
  ghost predicate Follows<T>(cfg: Config, task: Task<T>) {
    match task.phase
    case Done(answer) => Concludes(cfg.retries, task.log) && answer == Answer(task.log[|task.log| - 1])
    case _ => Ongoing(cfg.retries, task.log)
  }

  /** The session is idle or held, once, if it was ever created, and nowhere otherwise. */
  ghost predicate Placed<T>(s: State<T>, session: Session) {
    multiset(s.idle)[session] + Sum(s.tasks, Holds(session)) == if session < s.created then 1 else 0
  }

  ghost predicate Inv<T>(cfg: Config, s: State<T>) {
    && s.free + Sum(s.tasks, PermitWeight) == cfg.poolSize
    && s.created + Sum(s.tasks, CreatingWeight) <= cfg.poolSize
    && |s.idle| + Sum(s.tasks, HoldingWeight) == s.created
    && s.exhausted == Sum(s.tasks, ExhaustedWeight)
    && (forall session :: Placed(s, session))
    && (forall i :: 0 <= i < |s.tasks| ==> Follows(cfg, s.tasks[i]))
  }

  lemma AttemptFollows<T>(cfg: Config, task: Task<T>, a: Attempt<T>)
    requires Ongoing(cfg.retries, task.log)
    ensures Follows(cfg, EndAttempt(cfg, task, a))
    ensures EndAttempt(cfg, task, a).phase.Sleeping? || EndAttempt(cfg, task, a).phase.Done?
    ensures a.NoSession? ==> ExhaustedWeight(EndAttempt(cfg, task, a)) == 0
  {
    RoundConcludes(cfg.retries, task.log, a);
    var log := task.log + [a];
    assert log[|log| - 1] == a;
  }

  lemma ArriveKeepsInv<T>(cfg: Config, s: State<T>)
    requires Inv(cfg, s)
    ensures Inv(cfg, Next(cfg, s, Arrive))
  {
    var task: Task<T> := Task(Waiting, []);
    SumAppend(s.tasks, task, PermitWeight);
    SumAppend(s.tasks, task, CreatingWeight);
    SumAppend(s.tasks, task, HoldingWeight);
    SumAppend(s.tasks, task, ExhaustedWeight);
    forall session ensures Placed(Next(cfg, s, Arrive), session) {
      assert Placed(s, session);
      SumAppend(s.tasks, task, Holds(session));
    }
  }

  lemma PermitsKept<T>(cfg: Config, s: State<T>, step: Step<T>)
    requires Inv(cfg, s) && Enabled(s, step) && OfCall(step)
    ensures var t := Next(cfg, s, step);
      t.free + Sum(t.tasks, PermitWeight) == cfg.poolSize
  {
    var t, i := Next(cfg, s, step), step.i;
    SumUpdate(s.tasks, i, t.tasks[i], PermitWeight);
  }

  /** A call creates a session only when none is idle, that is, when every session is
      held by another call that has a permit too: there is room for one more. */
  lemma CapacityKept<T>(cfg: Config, s: State<T>, step: Step<T>)
    requires Inv(cfg, s) && Enabled(s, step) && OfCall(step)
    ensures var t := Next(cfg, s, step);
      t.created + Sum(t.tasks, CreatingWeight) <= cfg.poolSize
  {
    var t, i := Next(cfg, s, step), step.i;
    SumUpdate(s.tasks, i, t.tasks[i], CreatingWeight);
    if step.BeginCreate? {
      SumUpdate(s.tasks, i, t.tasks[i], PermitWeight);
      SumUpdate(s.tasks, i, t.tasks[i], HoldingWeight);
      PermitsCover(t.tasks);
    }
  }

  lemma TotalKept<T>(cfg: Config, s: State<T>, step: Step<T>)
    requires Inv(cfg, s) && Enabled(s, step) && OfCall(step)
    ensures var t := Next(cfg, s, step);
      |t.idle| + Sum(t.tasks, HoldingWeight) == t.created
  {
    var t, i := Next(cfg, s, step), step.i;
    SumUpdate(s.tasks, i, t.tasks[i], HoldingWeight);
  }

  lemma ExhaustedKept<T>(cfg: Config, s: State<T>, step: Step<T>)
    requires Inv(cfg, s) && Enabled(s, step) && OfCall(step)
    ensures var t := Next(cfg, s, step);
      t.exhausted == Sum(t.tasks, ExhaustedWeight)
  {
    var t, i := Next(cfg, s, step), step.i;
    SumUpdate(s.tasks, i, t.tasks[i], ExhaustedWeight);
    assert Follows(cfg, s.tasks[i]);
    if step.FailCreate? {
      AttemptFollows(cfg, s.tasks[i], NoSession(step.message));
    }
  }

  lemma PlacedKept<T>(cfg: Config, s: State<T>, step: Step<T>, session: Session)
    requires Inv(cfg, s) && Enabled(s, step) && OfCall(step)
    ensures Placed(Next(cfg, s, step), session)
  {
    var t, i := Next(cfg, s, step), step.i;
    assert Placed(s, session);
    SumUpdate(s.tasks, i, t.tasks[i], Holds(session));
    if step.TakeIdle? {
      assert s.idle == [s.idle[0]] + s.idle[1..];
    }
  }

  lemma CallsKept<T>(cfg: Config, s: State<T>, step: Step<T>, j: nat)
    requires Inv(cfg, s) && Enabled(s, step) && OfCall(step) && j < |s.tasks|
    ensures Follows(cfg, Next(cfg, s, step).tasks[j])
  {
    assert Follows(cfg, s.tasks[j]);
    match step
    case FailCreate(_, message) =>
      AttemptFollows(cfg, s.tasks[step.i], NoSession(message));
    case Operate(_, outcome) =>
      AttemptFollows(cfg, s.tasks[step.i], Ran(outcome));
    case _ =>
  }

  lemma StepKeepsInv<T>(cfg: Config, s: State<T>, step: Step<T>)
    requires Inv(cfg, s) && Enabled(s, step)
    ensures Inv(cfg, Next(cfg, s, step))
  {
    if step == Arrive {
      ArriveKeepsInv(cfg, s);
    } else if step == EndDetached {
      assert forall session :: Placed(s, session) ==> Placed(Next(cfg, s, step), session);
    } else {
      PermitsKept(cfg, s, step);
      CapacityKept(cfg, s, step);
      TotalKept(cfg, s, step);
      ExhaustedKept(cfg, s, step);
      forall session ensures Placed(Next(cfg, s, step), session) {
        PlacedKept(cfg, s, step, session);
      }
      forall j | 0 <= j < |s.tasks| ensures Follows(cfg, Next(cfg, s, step).tasks[j]) {
        CallsKept(cfg, s, step, j);
      }
    }
  }

  // ----- runs -----

  ghost predicate ValidRun<T>(cfg: Config, s: State<T>, run: seq<Step<T>>)
    decreases |run|
  {
    run == [] || (Enabled(s, run[0]) && ValidRun(cfg, Next(cfg, s, run[0]), run[1..]))
  }

  ghost function Exec<T>(cfg: Config, s: State<T>, run: seq<Step<T>>): State<T>
    requires ValidRun(cfg, s, run)
    decreases |run|
  {
    if run == [] then s else Exec(cfg, Next(cfg, s, run[0]), run[1..])
  }

  lemma {:induction false} RunKeepsInv<T>(cfg: Config, s: State<T>, run: seq<Step<T>>)
    requires Inv(cfg, s) && ValidRun(cfg, s, run)
    ensures Inv(cfg, Exec(cfg, s, run))
    decreases |run|
  {
    if run != [] {
      StepKeepsInv(cfg, s, run[0]);
      RunKeepsInv(cfg, Next(cfg, s, run[0]), run[1..]);
    }
  }

  /** A state some run from the empty pool reaches. */
  ghost predicate Reaches<T>(cfg: Config, run: seq<Step<T>>, s: State<T>) {
    ValidRun(cfg, Initial(cfg), run) && s == Exec(cfg, Initial(cfg), run)
  }

  lemma ReachedInv<T>(cfg: Config, run: seq<Step<T>>, s: State<T>)
    requires Reaches(cfg, run, s)
    ensures Inv(cfg, s)
  {
    RunKeepsInv(cfg, Initial(cfg), run);
  }

  // ----- conservation and mutual exclusion -----

  /** In every reachable state each session created so far is in exactly one place: idle
      once, or held by exactly one call. No other session is anywhere. */
  lemma EachSessionInOnePlace<T>(cfg: Config, run: seq<Step<T>>, s: State<T>, session: Session)
    requires Reaches(cfg, run, s)
    ensures multiset(s.idle)[session] <= 1
    ensures session in s.idle ==> forall i :: 0 <= i < |s.tasks| ==> s.tasks[i].phase != Holding(session)
    ensures session < s.created && session !in s.idle ==>
      exists i :: 0 <= i < |s.tasks| && s.tasks[i].phase == Holding(session)
    ensures forall i, j :: 0 <= i < j < |s.tasks| ==> !(s.tasks[i].phase == s.tasks[j].phase == Holding(session))
    ensures session >= s.created ==>
      session !in s.idle && forall i :: 0 <= i < |s.tasks| ==> s.tasks[i].phase != Holding(session)
  {
    ReachedInv(cfg, run, s);
    assert Placed(s, session);
    assert session in s.idle <==> multiset(s.idle)[session] > 0;
    SumWitness(s.tasks, Holds(session));
    forall i, j | 0 <= i < j < |s.tasks| ensures !(s.tasks[i].phase == s.tasks[j].phase == Holding(session)) {
      if s.tasks[i].phase == s.tasks[j].phase == Holding(session) {
        HeldTwice(s.tasks, session, i, j);
      }
    }
    assert forall i :: 0 <= i < |s.tasks| ==>
      (Holds(session)(s.tasks[i]) > 0 <==> s.tasks[i].phase == Holding(session));
  }

  /** In every reachable state idle and held sessions together are all that were ever
      created, never more than the pool size; free permits and permits in use add up to
      the pool size. Since sessions are never discarded, at most `poolSize` sessions ever
      enter the pool; `TokenLoadIff` counts those that are created and do not. */
  lemma PoolConserved<T>(cfg: Config, run: seq<Step<T>>, s: State<T>)
    requires Reaches(cfg, run, s)
    ensures |s.idle| + Sum(s.tasks, HoldingWeight) == s.created <= cfg.poolSize
    ensures s.free + Sum(s.tasks, PermitWeight) == cfg.poolSize
    ensures s.created + Sum(s.tasks, CreatingWeight) <= cfg.poolSize
  {
    ReachedInv(cfg, run, s);
  }

  lemma {:induction false} AllFinishedHoldNothing<T>(tasks: seq<Task<T>>, session: Session)
    requires forall i :: 0 <= i < |tasks| ==> Finished(tasks[i])
    ensures Sum(tasks, PermitWeight) == 0 && Sum(tasks, HoldingWeight) == 0 && Sum(tasks, Holds(session)) == 0
  {
    if tasks != [] {
      assert Finished(tasks[0]);
      AllFinishedHoldNothing(tasks[1..], session);
    }
  }

  /** Once every call has finished, every session is idle and every permit free. */
  lemma AllFinishedAllIdle<T>(cfg: Config, run: seq<Step<T>>, s: State<T>, session: Session)
    requires Reaches(cfg, run, s)
    requires forall i :: 0 <= i < |s.tasks| ==> Finished(s.tasks[i])
    ensures s.free == cfg.poolSize && |s.idle| == s.created
    ensures session in s.idle <==> session < s.created
  {
    ReachedInv(cfg, run, s);
    assert Placed(s, session);
    assert session in s.idle <==> multiset(s.idle)[session] > 0;
    AllFinishedHoldNothing(s.tasks, session);
  }

  // ----- each call obeys the sequential retry rule -----

  /** Whatever the other calls did, a call that is done gave the answer the sequential
      loop gives for the attempts it met, made at most `retries + 1` of them, and the
      exhaustion counter shows exactly the calls whose last attempt was transient. */
  lemma EachCallFollowsLoop<T>(cfg: Config, run: seq<Step<T>>, s: State<T>, i: nat, script: nat -> Attempt<T>)
    requires Reaches(cfg, run, s) && i < |s.tasks|
    requires forall k :: 0 <= k < |s.tasks[i].log| ==> s.tasks[i].log[k] == script(k)
    ensures |s.tasks[i].log| <= cfg.retries + 1
    ensures s.tasks[i].phase.Done? ==>
      && s.tasks[i].log == Log(cfg.retries, script)
      && s.tasks[i].phase.answer == FinalAnswer(cfg.retries, script)
    ensures !s.tasks[i].phase.Done? ==> forall k :: 0 <= k < |s.tasks[i].log| ==> Transient(s.tasks[i].log[k])
    ensures s.exhausted == Sum(s.tasks, ExhaustedWeight)
  {
    ReachedInv(cfg, run, s);
    assert Follows(cfg, s.tasks[i]);
    LogUnique(cfg.retries, script, s.tasks[i].log);
  }

  /** What the steps of a run say that the attempts of call i came to. */
  function Outcomes<T>(run: seq<Step<T>>, i: nat): seq<Attempt<T>> {
    if run == [] then []
    else
      var rest := Outcomes(run[1..], i);
      match run[0]
      case Operate(j, outcome) => if j == i then [Ran(outcome)] + rest else rest
      case FailCreate(j, message) => if j == i then [NoSession(message)] + rest else rest
      case _ => rest
  }

  lemma StepLogs<T>(cfg: Config, s: State<T>, step: Step<T>, i: nat)
    requires Enabled(s, step)
    ensures |s.tasks| <= |Next(cfg, s, step).tasks|
    ensures i < |s.tasks| ==> Next(cfg, s, step).tasks[i].log == s.tasks[i].log + Outcomes([step], i)
    ensures i >= |s.tasks| ==>
      Outcomes([step], i) == [] && (i < |Next(cfg, s, step).tasks| ==> Next(cfg, s, step).tasks[i].log == [])
  {
    assert [step][1..] == [];
  }

  lemma {:induction false} LogIsOutcomes<T>(cfg: Config, s: State<T>, run: seq<Step<T>>, i: nat)
    requires ValidRun(cfg, s, run) && i < |Exec(cfg, s, run).tasks|
    ensures |s.tasks| <= |Exec(cfg, s, run).tasks|
    ensures Exec(cfg, s, run).tasks[i].log == (if i < |s.tasks| then s.tasks[i].log else []) + Outcomes(run, i)
    decreases |run|
  {
    if run != [] {
      LogIsOutcomes(cfg, Next(cfg, s, run[0]), run[1..], i);
      StepLogs(cfg, s, run[0], i);
      assert Outcomes(run, i) == Outcomes([run[0]], i) + Outcomes(run[1..], i) by {
        assert [run[0]][1..] == [];
      }
    } else {
      assert Outcomes(run, i) == [];
    }
  }

  /** Every attempt ended in a cluster error of the operation. */
  predicate AllClusterErrors<T>(outcomes: seq<Attempt<T>>) {
    forall k :: 0 <= k < |outcomes| ==>
      outcomes[k].Ran? && outcomes[k].outcome.Failure? && outcomes[k].outcome.error.ClusterError?
  }

  /** The phase of a call fits what its attempts came to: a call that is done was told
      what the last one came to, after attempts that all ended in cluster errors; that one
      did not, unless it was the last one allowed. Any other call met cluster errors only. */
  ghost predicate Told<T>(retries: nat, phase: Phase<T>, own: seq<Attempt<T>>) {
    if !phase.Done? then |own| <= retries && AllClusterErrors(own)
    else
      && 1 <= |own| <= retries + 1 && AllClusterErrors(own[..|own| - 1])
      && (AllClusterErrors(own) ==> |own| == retries + 1)
      && match own[|own| - 1]
         case Ran(outcome) => phase.answer == outcome
         case NoSession(message) => phase.answer == Failure(ClusterError("Session pool exhausted: " + message))
  }

  lemma AllTransientIs<T>(log: seq<Attempt<T>>)
    ensures AllTransient(log) <==> AllClusterErrors(log)
  {
  }

  lemma LastDecides<T>(log: seq<Attempt<T>>)
    requires log != [] && AllClusterErrors(log[..|log| - 1])
    ensures Transient(log[|log| - 1]) <==> AllClusterErrors(log)
  {
    assert log == log[..|log| - 1] + [log[|log| - 1]];
  }

  lemma FollowsIsTold<T>(cfg: Config, task: Task<T>)
    requires Follows(cfg, task)
    ensures Told(cfg.retries, task.phase, task.log)
  {
    AllTransientIs(task.log);
    if task.phase.Done? {
      AllTransientIs(task.log[..|task.log| - 1]);
      LastDecides(task.log);
    }
  }

  /** Whatever the other calls did, each call was told what its own attempts came to. */
  lemma CallAnswersOwnOutcome<T>(cfg: Config, run: seq<Step<T>>, s: State<T>, i: nat)
    requires Reaches(cfg, run, s) && i < |s.tasks|
    ensures s.tasks[i].log == Outcomes(run, i)
    ensures Told(cfg.retries, s.tasks[i].phase, Outcomes(run, i))
  {
    ReachedInv(cfg, run, s);
    assert Follows(cfg, s.tasks[i]);
    LogIsOutcomes(cfg, Initial(cfg), run, i);
    assert Initial<T>(cfg).tasks == [];
    assert s.tasks[i].log == Outcomes(run, i);
    FollowsIsTold(cfg, s.tasks[i]);
  }

  lemma {:induction false} SumCounts<T>(tasks: seq<Task<T>>, weight: Task<T> -> nat, counted: set<int>)
    requires forall i :: 0 <= i < |tasks| ==> weight(tasks[i]) <= 1
    requires forall i :: i in counted ==> 0 <= i < |tasks| && weight(tasks[i]) == 1
    requires forall i :: 0 <= i < |tasks| && weight(tasks[i]) == 1 ==> i in counted
    ensures Sum(tasks, weight) == |counted|
    decreases |tasks|
  {
    if tasks == [] {
      assert forall i :: i !in counted;
    } else {
      var n := |tasks| - 1;
      SumCounts(tasks[..n], weight, counted - {n});
      SumAppend(tasks[..n], tasks[n], weight);
      assert tasks == tasks[..n] + [tasks[n]];
    }
  }

  lemma ExhaustsIff<T>(retries: nat, task: Task<T>)
    requires Told(retries, task.phase, task.log)
    ensures ExhaustedWeight(task) == 1 <==> |task.log| == retries + 1 && AllClusterErrors(task.log)
  {
    if task.phase.Done? {
      LastDecides(task.log);
    }
  }

  /** The first n calls that used up their retries on cluster errors. */
  ghost function OutOfRetries<T>(retries: nat, run: seq<Step<T>>, n: nat): set<int> {
    set i | 0 <= i < n && |Outcomes(run, i)| == retries + 1 && AllClusterErrors(Outcomes(run, i))
  }

  /** The counter shows the calls that used up their retries on cluster errors. */
  lemma ExhaustedCounts<T>(cfg: Config, run: seq<Step<T>>, s: State<T>)
    requires Reaches(cfg, run, s)
    ensures s.exhausted == |OutOfRetries(cfg.retries, run, |s.tasks|)|
  {
    assert s.exhausted == Sum(s.tasks, ExhaustedWeight) by {
      ReachedInv(cfg, run, s);
    }
    var counted := OutOfRetries(cfg.retries, run, |s.tasks|);
    forall i | 0 <= i < |s.tasks| ensures i in counted <==> ExhaustedWeight(s.tasks[i]) == 1 {
      CallAnswersOwnOutcome(cfg, run, s, i);
      ExhaustsIff(cfg.retries, s.tasks[i]);
    }
    SumCounts(s.tasks, ExhaustedWeight, counted);
  }

  // ----- sessions are taken in the order they were returned -----

  /** The session a step takes from the idle queue, as the call holds it afterwards. */
  function TakenBy<T>(next: State<T>, step: Step<T>): seq<Session> {
    if step.TakeIdle? && step.i < |next.tasks| && next.tasks[step.i].phase.Holding?
    then [next.tasks[step.i].phase.session] else []
  }

  /** The session a step gives back, as the call held it before. */
  function ReturnedBy<T>(s: State<T>, step: Step<T>): seq<Session>
    requires Enabled(s, step)
  {
    if step.Operate? then [s.tasks[step.i].phase.session] else []
  }

  ghost function Taken<T>(cfg: Config, s: State<T>, run: seq<Step<T>>): seq<Session>
    requires ValidRun(cfg, s, run)
    decreases |run|
  {
    if run == [] then [] else TakenBy(Next(cfg, s, run[0]), run[0]) + Taken(cfg, Next(cfg, s, run[0]), run[1..])
  }

  ghost function Returned<T>(cfg: Config, s: State<T>, run: seq<Step<T>>): seq<Session>
    requires ValidRun(cfg, s, run)
    decreases |run|
  {
    if run == [] then [] else ReturnedBy(s, run[0]) + Returned(cfg, Next(cfg, s, run[0]), run[1..])
  }

  lemma StepQueues<T>(cfg: Config, s: State<T>, step: Step<T>)
    requires Enabled(s, step)
    ensures TakenBy(Next(cfg, s, step), step) + Next(cfg, s, step).idle == s.idle + ReturnedBy(s, step)
  {
    if step.TakeIdle? {
      assert s.idle == [s.idle[0]] + s.idle[1..];
    }
  }

  lemma Splice(
    taken: seq<Session>, later: seq<Session>, last: seq<Session>,
    middle: seq<Session>, rest: seq<Session>, first: seq<Session>, returned: seq<Session>)
    requires later + last == middle + rest && taken + middle == first + returned
    ensures taken + later + last == first + (returned + rest)
  {
    calc {
      taken + later + last;
      taken + (later + last);
      taken + middle + rest;
      first + returned + rest;
      first + (returned + rest);
    }
  }

  lemma {:induction false} IdleIsQueue<T>(cfg: Config, s: State<T>, run: seq<Step<T>>)
    requires ValidRun(cfg, s, run)
    ensures Taken(cfg, s, run) + Exec(cfg, s, run).idle == s.idle + Returned(cfg, s, run)
    decreases |run|
  {
    if run != [] {
      var next, step, rest := Next(cfg, s, run[0]), run[0], run[1..];
      IdleIsQueue(cfg, next, rest);
      StepQueues(cfg, s, step);
      Splice(TakenBy(next, step), Taken(cfg, next, rest), Exec(cfg, next, rest).idle,
        next.idle, Returned(cfg, next, rest), s.idle, ReturnedBy(s, step));
    }
  }

  /** A call takes the session that has been idle longest: the sessions taken are the
      first ones returned, in the same order, and the idle queue is the rest. */
  lemma FirstInFirstOut<T>(cfg: Config, run: seq<Step<T>>, s: State<T>)
    requires Reaches(cfg, run, s)
    ensures Returned(cfg, Initial(cfg), run) == Taken(cfg, Initial(cfg), run) + s.idle
  {
    IdleIsQueue(cfg, Initial(cfg), run);
    assert Initial<T>(cfg).idle == [];
  }

  // ----- progress -----

  /** Some step moves an unfinished call on; arrivals and cancellations do not count. */
  ghost predicate CanProgress<T(!new)>(s: State<T>) {
    exists step :: Enabled(s, step) && OfCall(step) && !step.Cancel?
  }

  lemma PermitHolderProgresses<T(!new)>(s: State<T>, i: nat)
    requires i < |s.tasks| && PermitWeight(s.tasks[i]) > 0
    ensures CanProgress(s)
  {
    var step: Step<T> :=
      match s.tasks[i].phase
      case Checking => if s.idle == [] then BeginCreate(i) else TakeIdle(i)
      case Creating => FinishCreate(i)
      case _ => Operate(i, Failure(PoolExhausted));
    assert Enabled(s, step);
  }

  /** No deadlock: with room for at least one session, every reachable state with an
      unfinished call has a step that moves one on. */
  lemma NoDeadlock<T(!new)>(cfg: Config, run: seq<Step<T>>, s: State<T>, i: nat)
    requires cfg.poolSize >= 1 && Reaches(cfg, run, s)
    requires i < |s.tasks| && !Finished(s.tasks[i])
    ensures CanProgress(s)
  {
    ReachedInv(cfg, run, s);
    if PermitWeight(s.tasks[i]) > 0 {
      PermitHolderProgresses(s, i);
    } else if s.tasks[i].phase.Sleeping? {
      assert Enabled(s, Wake(i));
    } else if s.free > 0 {
      assert Enabled(s, Acquire(i));
    } else {
      SumWitness(s.tasks, PermitWeight);
      var j :| 0 <= j < |s.tasks| && PermitWeight(s.tasks[j]) > 0;
      PermitHolderProgresses(s, j);
    }
  }

  ghost predicate AllBlocked<T>(s: State<T>) {
    s.free == 0 && forall i :: 0 <= i < |s.tasks| ==> s.tasks[i].phase.Waiting? || s.tasks[i].phase.Cancelled?
  }

  lemma {:induction false} BlockedStays<T>(cfg: Config, s: State<T>, run: seq<Step<T>>)
    requires AllBlocked(s) && ValidRun(cfg, s, run)
    ensures AllBlocked(Exec(cfg, s, run))
    decreases |run|
  {
    if run != [] {
      BlockedStays(cfg, Next(cfg, s, run[0]), run[1..]);
    }
  }

  /** The bound on the pool size is needed: a pool of size 0 never serves a call. */
  lemma EmptyPoolBlocks<T(!new)>(cfg: Config, run: seq<Step<T>>, s: State<T>)
    requires cfg.poolSize == 0 && Reaches(cfg, run, s)
    ensures !CanProgress(s) && forall i :: 0 <= i < |s.tasks| ==> !s.tasks[i].phase.Done?
  {
    BlockedStays(cfg, Initial(cfg), run);
  }

  /** An upper bound on the steps a call can still take: attempts left, then phase. */
  function Effort<T>(cfg: Config, task: Task<T>): nat {
    var left: nat := if |task.log| <= cfg.retries then 5 * (cfg.retries + 1 - |task.log|) else 0;
    match task.phase
    case Sleeping => left + 5
    case Waiting => left + 4
    case Checking => left + 3
    case Creating => left + 2
    case Holding(_) => left + 1
    case _ => 0
  }

  function Work<T>(cfg: Config, tasks: seq<Task<T>>): nat {
    if tasks == [] then 0 else Effort(cfg, tasks[0]) + Work(cfg, tasks[1..])
  }

  lemma {:induction false} WorkUpdate<T>(cfg: Config, tasks: seq<Task<T>>, i: nat, task: Task<T>)
    requires i < |tasks|
    ensures Work(cfg, tasks[i := task]) + Effort(cfg, tasks[i]) == Work(cfg, tasks) + Effort(cfg, task)
  {
    if i == 0 {
      assert tasks[0 := task][1..] == tasks[1..];
    } else {
      assert tasks[i := task][1..] == tasks[1..][i - 1 := task];
      WorkUpdate(cfg, tasks[1..], i - 1, task);
    }
  }

  lemma {:induction false} WorkAppend<T>(cfg: Config, tasks: seq<Task<T>>, task: Task<T>)
    ensures Work(cfg, tasks + [task]) == Work(cfg, tasks) + Effort(cfg, task)
  {
    if tasks == [] {
      assert tasks + [task] == [task];
    } else {
      assert (tasks + [task])[1..] == tasks[1..] + [task];
      WorkAppend(cfg, tasks[1..], task);
    }
  }

  lemma StepLowersEffort<T>(cfg: Config, s: State<T>, step: Step<T>)
    requires Enabled(s, step) && OfCall(step) && Follows(cfg, s.tasks[step.i])
    ensures var t := Next(cfg, s, step);
      && t.tasks == s.tasks[step.i := t.tasks[step.i]]
      && Effort(cfg, t.tasks[step.i]) + t.detached < Effort(cfg, s.tasks[step.i]) + s.detached
  {
  }

  /** The work left to the calls, and to the creations that go on without one. */
  function AllWork<T>(cfg: Config, s: State<T>): nat {
    Work(cfg, s.tasks) + s.detached
  }

  /** Every step but an arrival lowers the work left; an arrival raises it by a fixed amount. */
  lemma StepDoesWork<T>(cfg: Config, s: State<T>, step: Step<T>)
    requires Inv(cfg, s) && Enabled(s, step)
    ensures step.Arrive? ==> AllWork(cfg, Next(cfg, s, step)) == AllWork(cfg, s) + 5 * cfg.retries + 9
    ensures !step.Arrive? ==> AllWork(cfg, Next(cfg, s, step)) < AllWork(cfg, s)
  {
    if step == Arrive {
      var task: Task<T> := Task(Waiting, []);
      WorkAppend(cfg, s.tasks, task);
    } else if OfCall(step) {
      var t, i := Next(cfg, s, step), step.i;
      assert Follows(cfg, s.tasks[i]);
      StepLowersEffort(cfg, s, step);
      WorkUpdate(cfg, s.tasks, i, t.tasks[i]);
    }
  }

  function Arrivals<T>(run: seq<Step<T>>): nat {
    if run == [] then 0 else (if run[0].Arrive? then 1 else 0) + Arrivals(run[1..])
  }

  /** The work brought in by the arrivals of a run. */
  function Brought<T>(cfg: Config, run: seq<Step<T>>): nat {
    if run == [] then 0 else (if run[0].Arrive? then 5 * cfg.retries + 9 else 0) + Brought(cfg, run[1..])
  }

  lemma {:induction false} BroughtIs<T>(cfg: Config, run: seq<Step<T>>)
    ensures Brought(cfg, run) == Arrivals(run) * (5 * cfg.retries + 9)
  {
    if run != [] {
      BroughtIs(cfg, run[1..]);
      var unit, rest := 5 * cfg.retries + 9, Arrivals(run[1..]);
      assert (1 + rest) * unit == unit + rest * unit;
    }
  }

  lemma {:induction false} WorkBalance<T>(cfg: Config, s: State<T>, run: seq<Step<T>>)
    requires Inv(cfg, s) && ValidRun(cfg, s, run)
    ensures |run| - Arrivals(run) + AllWork(cfg, Exec(cfg, s, run)) <= AllWork(cfg, s) + Brought(cfg, run)
    decreases |run|
  {
    if run != [] {
      StepKeepsInv(cfg, s, run[0]);
      StepDoesWork(cfg, s, run[0]);
      WorkBalance(cfg, Next(cfg, s, run[0]), run[1..]);
    }
  }

  /** No livelock: whatever the answers and the schedule, a run takes at most
      `5 * retries + 9` steps for each call that arrived. */
  lemma RunsEnd<T>(cfg: Config, run: seq<Step<T>>)
    requires ValidRun(cfg, Initial(cfg), run)
    ensures |run| - Arrivals(run) <= Arrivals(run) * (5 * cfg.retries + 9)
  {
    WorkBalance(cfg, Initial(cfg), run);
    BroughtIs(cfg, run);
  }

  // ----- what cancelled creations cost the token -----

  /** Sessions in the pool, sessions being created for it, and creations nobody waits for. */
  function TokenLoad<T>(s: State<T>): nat {
    s.created + Sum(s.tasks, CreatingWeight) + s.detached
  }

  function AbandonedBy<T>(s: State<T>, step: Step<T>): nat
    requires Enabled(s, step)
  {
    if step.Cancel? then CreatingWeight(s.tasks[step.i]) else 0
  }

  /** Calls of the run that were cancelled while their session was being created. */
  ghost function Abandoned<T>(cfg: Config, s: State<T>, run: seq<Step<T>>): nat
    requires ValidRun(cfg, s, run)
    decreases |run|
  {
    if run == [] then 0 else AbandonedBy(s, run[0]) + Abandoned(cfg, Next(cfg, s, run[0]), run[1..])
  }

  lemma {:induction false} DetachedWereAbandoned<T>(cfg: Config, s: State<T>, run: seq<Step<T>>)
    requires ValidRun(cfg, s, run)
    ensures Exec(cfg, s, run).detached <= s.detached + Abandoned(cfg, s, run)
    decreases |run|
  {
    if run != [] {
      DetachedWereAbandoned(cfg, Next(cfg, s, run[0]), run[1..]);
    }
  }

  /** The pool keeps within its size, so the token is asked for more only by creations
      that were abandoned. */
  lemma TokenLoadBound<T>(cfg: Config, run: seq<Step<T>>, s: State<T>)
    requires Reaches(cfg, run, s)
    ensures TokenLoad(s) <= cfg.poolSize + s.detached
    ensures TokenLoad(s) <= cfg.poolSize + Abandoned(cfg, Initial(cfg), run)
  {
    ReachedInv(cfg, run, s);
    DetachedWereAbandoned(cfg, Initial(cfg), run);
  }

  lemma {:induction false} ExecSnoc<T>(cfg: Config, s: State<T>, run: seq<Step<T>>, step: Step<T>)
    requires ValidRun(cfg, s, run) && Enabled(Exec(cfg, s, run), step)
    ensures ValidRun(cfg, s, run + [step])
    ensures Exec(cfg, s, run + [step]) == Next(cfg, Exec(cfg, s, run), step)
    ensures Abandoned(cfg, s, run + [step]) == Abandoned(cfg, s, run) + AbandonedBy(Exec(cfg, s, run), step)
    decreases |run|
  {
    var longer := run + [step];
    if run == [] {
      assert longer[1..] == [];
      assert Exec(cfg, Next(cfg, s, step), longer[1..]) == Next(cfg, s, step);
    } else {
      assert longer[1..] == run[1..] + [step];
      ExecSnoc(cfg, Next(cfg, s, run[0]), run[1..], step);
    }
  }

  lemma Extend<T>(cfg: Config, run: seq<Step<T>>, s: State<T>, step: Step<T>)
    returns (longer: seq<Step<T>>, t: State<T>)
    requires Reaches(cfg, run, s) && Enabled(s, step)
    ensures longer == run + [step] && Reaches(cfg, longer, t) && t == Next(cfg, s, step)
    ensures Abandoned(cfg, Initial(cfg), longer) == Abandoned(cfg, Initial(cfg), run) + AbandonedBy(s, step)
  {
    ExecSnoc(cfg, Initial(cfg), run, step);
    longer, t := run + [step], Next(cfg, s, step);
  }

  /** An empty pool after m abandoned creations, with k calls creating sessions. */
  function Crowded<T>(cfg: Config, m: nat, k: nat): State<T>
    requires k <= cfg.poolSize
  {
    State(seq(m, _ => Task(Cancelled, [])) + seq(k, _ => Task(Creating, [])), cfg.poolSize - k, [], 0, 0, m)
  }

  lemma BeginOne<T>(cfg: Config, run: seq<Step<T>>, m: nat, k: nat) returns (longer: seq<Step<T>>)
    requires k < cfg.poolSize && Reaches(cfg, run, Crowded(cfg, m, k))
    ensures longer == run + [Arrive, Acquire(m + k), BeginCreate(m + k)]
    ensures Reaches(cfg, longer, Crowded(cfg, m, k + 1))
    ensures Abandoned(cfg, Initial(cfg), longer) == Abandoned(cfg, Initial(cfg), run)
  {
    var s: State<T> := Crowded(cfg, m, k);
    var i := m + k;
    longer, s := Extend(cfg, run, s, Arrive);
    longer, s := Extend(cfg, longer, s, Acquire(i));
    longer, s := Extend(cfg, longer, s, BeginCreate(i));
    assert s.tasks == Crowded<T>(cfg, m, k + 1).tasks;
  }

  lemma CancelOne<T>(cfg: Config, run: seq<Step<T>>, m: nat) returns (longer: seq<Step<T>>)
    requires cfg.poolSize >= 1 && Reaches(cfg, run, Crowded(cfg, m, 1))
    ensures longer == run + [Cancel(m)]
    ensures Reaches(cfg, longer, Crowded(cfg, m + 1, 0))
    ensures Abandoned(cfg, Initial(cfg), longer) == Abandoned(cfg, Initial(cfg), run) + 1
  {
    var s: State<T> := Crowded(cfg, m, 1);
    longer, s := Extend(cfg, run, s, Cancel(m));
    assert s.tasks == Crowded<T>(cfg, m + 1, 0).tasks;
  }

  /** With any number of cancellations: m creations abandoned one after the other, and
      then a full pool's worth begun. For a pool of one and one cancellation, two
      sessions are being opened at once. */
  lemma {:induction false} TokenLoadAttained<T>(cfg: Config, m: nat, k: nat) returns (run: seq<Step<T>>)
    requires 1 <= cfg.poolSize && k <= cfg.poolSize
    ensures Reaches(cfg, run, Crowded(cfg, m, k))
    ensures Abandoned(cfg, Initial(cfg), run) == m
    decreases m, k
  {
    if k > 0 {
      run := TokenLoadAttained(cfg, m, k - 1);
      run := BeginOne(cfg, run, m, k - 1);
    } else if m > 0 {
      run := TokenLoadAttained(cfg, m - 1, 0);
      run := BeginOne(cfg, run, m - 1, 0);
      run := CancelOne(cfg, run, m - 1);
    } else {
      run := [];
      assert Crowded<T>(cfg, 0, 0).tasks == [];
    }
  }

  lemma {:induction false} CrowdedLoad<T>(tasks: seq<Task<T>>, m: nat)
    requires m <= |tasks|
    requires forall i :: 0 <= i < |tasks| ==> tasks[i].phase.Creating? == (i >= m)
    ensures Sum(tasks, CreatingWeight) == |tasks| - m
  {
    if tasks != [] {
      CrowdedLoad(tasks[1..], if m == 0 then 0 else m - 1);
    }
  }

  /** The exact load on the token: b sessions are enough for every run with at most m
      abandoned creations exactly when b is at least the pool size plus m. */
  lemma TokenLoadIff<T(!new)>(cfg: Config, m: nat, b: nat)
    requires cfg.poolSize >= 1
    ensures cfg.poolSize + m <= b <==>
      forall run: seq<Step<T>>, s ::
        Reaches(cfg, run, s) && Abandoned(cfg, Initial(cfg), run) <= m ==> TokenLoad(s) <= b
  {
    forall run: seq<Step<T>>, s | Reaches(cfg, run, s) && Abandoned(cfg, Initial(cfg), run) <= m
      ensures TokenLoad(s) <= cfg.poolSize + m
    {
      TokenLoadBound(cfg, run, s);
    }
    var run: seq<Step<T>> := TokenLoadAttained(cfg, m, cfg.poolSize);
    var s: State<T> := Crowded(cfg, m, cfg.poolSize);
    CrowdedLoad(s.tasks, m);
    assert TokenLoad(s) == cfg.poolSize + m;
  }

  /** A pool of one opens two sessions at once: the second call gets the permit while
      the creation begun for the first, cancelled, is still going on. */
  lemma TwoCreationsForOne<T>(cfg: Config) returns (run: seq<Step<T>>, s: State<T>)
    requires cfg.poolSize == 1
    ensures run == [Arrive, Acquire(0), BeginCreate(0), Cancel(0), Arrive, Acquire(1), BeginCreate(1)]
    ensures Reaches(cfg, run, s) && TokenLoad(s) == 2
  {
    run := [];
    assert Crowded<T>(cfg, 0, 0).tasks == [];
    run := BeginOne(cfg, run, 0, 0);
    run := CancelOne(cfg, run, 0);
    run := BeginOne(cfg, run, 1, 0);
    s := Crowded(cfg, 1, 1);
    CrowdedLoad(s.tasks, 1);
  }

  // ----- every outcome is possible -----

  /** Creations that nobody waits for all come to an end, whatever the calls do. */
  lemma {:induction false} DetachedEnd<T>(cfg: Config, run: seq<Step<T>>, s: State<T>)
    returns (longer: seq<Step<T>>, t: State<T>)
    requires Reaches(cfg, run, s)
    ensures Reaches(cfg, longer, t) && t == s.(detached := 0) && |longer| == |run| + s.detached
    decreases s.detached
  {
    longer, t := run, s;
    if s.detached > 0 {
      longer, t := Extend(cfg, run, s, EndDetached);
      longer, t := DetachedEnd(cfg, longer, t);
    }
  }

  /** A pool with one idle session and a call asleep after these attempts. */
  function Between<T>(cfg: Config, log: seq<Attempt<T>>): State<T> {
    State([Task(Sleeping, log)], cfg.poolSize, [0], 1, 0, 0)
  }

  lemma FirstAttempt<T>(cfg: Config) returns (run: seq<Step<T>>, s: State<T>)
    requires cfg.poolSize >= 1
    ensures Reaches(cfg, run, s)
    ensures s == State([Task(Creating, [])], cfg.poolSize - 1, [], 0, 0, 0)
  {
    run, s := [], Initial(cfg);
    run, s := Extend(cfg, run, s, Arrive);
    run, s := Extend(cfg, run, s, Acquire(0));
    run, s := Extend(cfg, run, s, BeginCreate(0));
  }

  lemma LaterAttempt<T>(cfg: Config, run: seq<Step<T>>, log: seq<Attempt<T>>)
    returns (longer: seq<Step<T>>, s: State<T>)
    requires cfg.poolSize >= 1 && Reaches(cfg, run, Between(cfg, log))
    ensures Reaches(cfg, longer, s)
    ensures s == State([Task(Holding(0), log)], cfg.poolSize - 1, [], 1, 0, 0)
  {
    s := Between(cfg, log);
    longer, s := Extend(cfg, run, s, Wake(0));
    longer, s := Extend(cfg, longer, s, Acquire(0));
    longer, s := Extend(cfg, longer, s, TakeIdle(0));
  }

  /** The operation may fail with a cluster error as often as the retries allow. */
  lemma {:induction false} RetriesRun<T>(cfg: Config, log: seq<Attempt<T>>)
    returns (run: seq<Step<T>>, s: State<T>)
    requires cfg.poolSize >= 1 && |log| <= cfg.retries && AllTransient(log)
    ensures Reaches(cfg, run, s)
    ensures s == State([Task(Holding(0), log)], cfg.poolSize - 1, [], 1, 0, 0)
    decreases |log|
  {
    if log == [] {
      run, s := FirstAttempt(cfg);
      run, s := Extend(cfg, run, s, FinishCreate(0));
    } else {
      var n := |log| - 1;
      run, s := RetriesRun(cfg, log[..n]);
      assert Transient(log[n]) && log == log[..n] + [log[n]];
      run, s := Extend(cfg, run, s, Operate(0, log[n].outcome));
      assert s == Between(cfg, log);
      run, s := LaterAttempt(cfg, run, log);
    }
  }

  /** The machine does whatever the rule allows: for every sequence of outcomes of the
      operation that concludes a call there is a run in which a call meets just these and
      is told the last; and one whose session cannot be created is told that. */
  lemma EveryConclusionHappens<T>(cfg: Config, log: seq<Attempt<T>>) returns (run: seq<Step<T>>, s: State<T>)
    requires cfg.poolSize >= 1 && Concludes(cfg.retries, log)
    requires |log| == 1 || forall k :: 0 <= k < |log| ==> log[k].Ran?
    ensures Reaches(cfg, run, s) && |s.tasks| == 1
    ensures s.tasks[0] == Task(Done(Answer(log[|log| - 1])), log)
  {
    var n := |log| - 1;
    assert log == log[..n] + [log[n]];
    if log[n].NoSession? {
      run, s := FirstAttempt(cfg);
      run, s := Extend(cfg, run, s, FailCreate(0, log[n].message));
    } else {
      run, s := RetriesRun(cfg, log[..n]);
      run, s := Extend(cfg, run, s, Operate(0, log[n].outcome));
    }
  }
}
