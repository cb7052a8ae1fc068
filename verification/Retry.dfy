/** What one `with_session` call comes to (src/hsm/cluster.rs): the operation is
    attempted until an attempt is decisive or the retries are used up. */
module Retry {
  import opened GatewayTypes

  /** One round of the retry loop: no session could be had, or the operation ran. */
  datatype Attempt<+T> = NoSession(message: string) | Ran(outcome: HsmResult<T>)

  /** Only a cluster error of the operation itself leads to another attempt. */
  predicate Transient<T>(a: Attempt<T>) {
    a.Ran? && a.outcome.Failure? && a.outcome.error.ClusterError?
  }

  /** What a caller is told when the call ends with this attempt. */
  function Answer<T>(a: Attempt<T>): HsmResult<T> {
    match a
    case NoSession(message) => Failure(ClusterError("Session pool exhausted: " + message))
    case Ran(outcome) => outcome
  }

  predicate AllTransient<T>(log: seq<Attempt<T>>) {
    forall k :: 0 <= k < |log| ==> Transient(log[k])
  }

  /** The attempts a call made, in order: all but the last were transient, and the last
      was not, unless it used up the retries. */
  predicate Concludes<T>(retries: nat, log: seq<Attempt<T>>) {
    && 1 <= |log| <= retries + 1
    && AllTransient(log[..|log| - 1])
    && (Transient(log[|log| - 1]) ==> |log| == retries + 1)
  }

  /** The attempts a call has made so far, with the call still going on. */
  predicate Ongoing<T>(retries: nat, log: seq<Attempt<T>>) {
    |log| <= retries && AllTransient(log)
  }

  predicate Exhausts<T>(log: seq<Attempt<T>>) {
    log != [] && Transient(log[|log| - 1])
  }

  /** A round either concludes a call, exhausting it or not, or leaves it going on. */
  lemma RoundConcludes<T>(retries: nat, log: seq<Attempt<T>>, a: Attempt<T>)
    requires Ongoing(retries, log)
    ensures AllTransient(log + [a]) <==> Transient(a)
    ensures Concludes(retries, log + [a]) <==> !Transient(a) || |log| == retries
    ensures Ongoing(retries, log + [a]) <==> Transient(a) && |log| < retries
    ensures Exhausts(log + [a]) <==> Transient(a)
  {
    var next := log + [a];
    assert next[..|next| - 1] == log;
    assert next[|log|] == a;
    if Transient(a) {
      assert AllTransient(next);
    }
  }

  /** Number of attempts a call makes when attempt k would come to script(k). */
  function Used<T>(retries: nat, script: nat -> Attempt<T>, k: nat := 0): (n: nat)
    requires k <= retries
    ensures k < n <= retries + 1
    decreases retries - k
  {
    if Transient(script(k)) && k < retries then Used(retries, script, k + 1) else k + 1
  }

  function Prefix<T>(script: nat -> Attempt<T>, n: nat): (log: seq<Attempt<T>>)
    ensures |log| == n && forall k :: 0 <= k < n ==> log[k] == script(k)
  {
    seq(n, k requires 0 <= k < n => script(k))
  }

  /** The attempts of a call against a script of outcomes. */
  function Log<T>(retries: nat, script: nat -> Attempt<T>): seq<Attempt<T>> {
    Prefix(script, Used(retries, script))
  }

  function FinalAnswer<T>(retries: nat, script: nat -> Attempt<T>): HsmResult<T> {
    Answer(script(Used(retries, script) - 1))
  }

  /** The call runs out of retries: its last attempt was transient too. */
  predicate Exhausted<T>(retries: nat, script: nat -> Attempt<T>) {
    Transient(script(Used(retries, script) - 1))
  }

  lemma {:induction false} UsedSkipsTransient<T>(retries: nat, script: nat -> Attempt<T>, k: nat)
    requires k <= retries
    ensures forall j :: k <= j < Used(retries, script, k) - 1 ==> Transient(script(j))
    ensures Transient(script(Used(retries, script, k) - 1)) ==> Used(retries, script, k) == retries + 1
    decreases retries - k
  {
    if Transient(script(k)) && k < retries {
      UsedSkipsTransient(retries, script, k + 1);
    }
  }

  /** A call concludes, in one way only: any log that the script supports and that
      concludes is the call's own. */
  lemma LogUnique<T>(retries: nat, script: nat -> Attempt<T>, log: seq<Attempt<T>>)
    requires forall k :: 0 <= k < |log| ==> log[k] == script(k)
    ensures Concludes(retries, log) <==> log == Log(retries, script)
  {
    UsedSkipsTransient(retries, script, 0);
    var own := Log(retries, script);
    assert own[|own| - 1] == script(|own| - 1);
    assert Concludes(retries, own);
    if Concludes(retries, log) {
      assert |log| == |own|;
      assert log == own;
    }
  }

  /** The loop as it is written, from this attempt on, with the error it remembers. */
  function LoopAnswer<T>(retries: nat, script: nat -> Attempt<T>, attempt: nat, lastErr: HsmError): HsmResult<T>
    requires attempt <= retries + 1
    decreases retries + 1 - attempt
  {
    if attempt > retries then
      Failure(lastErr)
    else
      match script(attempt)
      case NoSession(message) => Failure(ClusterError("Session pool exhausted: " + message))
      case Ran(Success(value)) => Success(value)
      case Ran(Failure(error)) =>
        if error.ClusterError? then LoopAnswer(retries, script, attempt + 1, error) else Failure(error)
  }

  lemma {:induction false} LoopIsFinal<T>(retries: nat, script: nat -> Attempt<T>, attempt: nat, lastErr: HsmError)
    requires attempt <= retries
    ensures LoopAnswer(retries, script, attempt, lastErr) == Answer(script(Used(retries, script, attempt) - 1))
    decreases retries - attempt
  {
    if Transient(script(attempt)) && attempt < retries {
      LoopIsFinal(retries, script, attempt + 1, script(attempt).outcome.error);
    }
  }

  /** The error the loop starts out with never reaches a caller: whatever it is, the
      answer is that of the last attempt, and a caller is told that the pool is exhausted
      exactly when the last operation itself said so. */
  lemma NeverInitialError<T>(retries: nat, script: nat -> Attempt<T>, initial: HsmError)
    ensures LoopAnswer(retries, script, 0, initial) == FinalAnswer(retries, script)
    ensures LoopAnswer(retries, script, 0, initial) == Failure(PoolExhausted) <==>
      script(Used(retries, script) - 1) == Ran(Failure(PoolExhausted))
  {
    LoopIsFinal(retries, script, 0, initial);
  }

  /** A session that cannot be created ends the call at once, although it is reported
      as the very kind of error that an operation would be retried for. */
  lemma NoSessionNotRetried<T>(retries: nat, script: nat -> Attempt<T>, k: nat)
    requires k <= retries && script(k).NoSession?
    requires forall j :: 0 <= j < k ==> Transient(script(j))
    ensures FinalAnswer(retries, script) == Failure(ClusterError("Session pool exhausted: " + script(k).message))
    ensures Used(retries, script) == k + 1
  {
    var log := Prefix(script, k + 1);
    assert log[k] == script(k);
    LogUnique(retries, script, log);
  }
}
