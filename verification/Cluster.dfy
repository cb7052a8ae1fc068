/** The PKCS#11 cluster backend (src/hsm/cluster.rs): its key registry, its retry loop
    over a pool of sessions, and the digest it hands to the token. */
module Cluster {
  import opened GatewayTypes
  import opened Registry
  import opened Retry

  datatype KeyEntry = KeyEntry(info: KeyInfo, tokenLabel: string)

  function Entry(config: KeyConfig): KeyEntry {
    KeyEntry(Describe(config, "HSM"), config.backendRef)
  }

  ghost predicate ComesFrom(configs: seq<KeyConfig>, n: nat, id: string, entry: KeyEntry)
    requires n <= |configs|
  {
    exists i: nat :: LastEnabled(configs, n, id, i) && entry == Entry(configs[i])
  }

  /** The registry holds the enabled ids, each under the last configuration that names it. */
  ghost predicate RegistryOf(configs: seq<KeyConfig>, n: nat, keys: map<string, KeyEntry>)
    requires n <= |configs|
  {
    && (forall id :: id in keys <==> EnabledId(configs, n, id))
    && (forall id :: id in keys ==> ComesFrom(configs, n, id, keys[id]))
  }

  lemma EntryRound(configs: seq<KeyConfig>, n: nat, id: string, keys: map<string, KeyEntry>)
    requires n < |configs|
    requires id in keys <==> EnabledId(configs, n, id)
    requires id in keys ==> ComesFrom(configs, n, id, keys[id])
    ensures var next := if configs[n].enabled then keys[configs[n].id := Entry(configs[n])] else keys;
      (id in next <==> EnabledId(configs, n + 1, id)) && (id in next ==> ComesFrom(configs, n + 1, id, next[id]))
  {
    if configs[n].enabled && configs[n].id == id {
      assert LastEnabled(configs, n + 1, id, n);
    } else if id in keys {
      var i: nat :| LastEnabled(configs, n, id, i) && keys[id] == Entry(configs[i]);
      assert LastEnabled(configs, n + 1, id, i);
    }
  }

  lemma RegistryRound(configs: seq<KeyConfig>, n: nat, keys: map<string, KeyEntry>)
    requires n < |configs| && RegistryOf(configs, n, keys)
    ensures RegistryOf(configs, n + 1, if configs[n].enabled then keys[configs[n].id := Entry(configs[n])] else keys)
  {
    var config := configs[n];
    var next := if config.enabled then keys[config.id := Entry(config)] else keys;
    forall id
      ensures id in next <==> EnabledId(configs, n + 1, id)
      ensures id in next ==> ComesFrom(configs, n + 1, id, next[id])
    {
      EntryRound(configs, n, id, keys);
    }
  }

  /** What a registered key is known by: the description and, as its token label, the
      reference of the last enabled configuration with its id. */
  lemma RegistryDescribes(configs: seq<KeyConfig>, keys: map<string, KeyEntry>, id: string) returns (i: nat)
    requires RegistryOf(configs, |configs|, keys) && id in keys
    ensures i < |configs| && configs[i].id == id && configs[i].enabled
    ensures forall j :: i < j < |configs| && configs[j].enabled ==> configs[j].id != id
    ensures keys[id].tokenLabel == configs[i].backendRef
    ensures keys[id].info == KeyInfo(id, configs[i].description, configs[i].algorithm, true, "HSM")
  {
    assert ComesFrom(configs, |configs|, id, keys[id]);
    i :| LastEnabled(configs, |configs|, id, i) && keys[id] == Entry(configs[i]);
  }

  /** What each attempt of an uncontended call comes to: a session has to be created for
      the first attempt only, and only when none is idle. */
  function Script<T>(noneIdle: bool, create: nat -> Option<string>, op: nat -> HsmResult<T>): nat -> Attempt<T> {
    (k: nat) => if noneIdle && k == 0 && create(0).Some? then NoSession(create(0).value) else Ran(op(k))
  }

  // ----- what the token is asked -----

  type Digest = (Algorithm, Bytes) -> Bytes

  /** The mechanism of an algorithm: ECDSA takes a digest, every other one hashes itself. */
  datatype Mechanism = Ecdsa | Hashing(algorithm: Algorithm)

  function ToMechanism(algorithm: Algorithm): Mechanism {
    if algorithm.Es256? || algorithm.Es384? then Ecdsa else Hashing(algorithm)
  }

  function DataFor(digest: Digest, algorithm: Algorithm, payload: Bytes, prehashed: bool): Bytes {
    match algorithm
    case Es256 | Es384 => if prehashed then payload else digest(algorithm, payload)
    case _ => payload
  }

  datatype SignReply = SearchFails(message: string) | NoObject | TokenFails(message: string) | Signature(bytes: Bytes)

  datatype VerifyReply = SearchFails(message: string) | NoObject | TokenFails(message: string) | Invalid | Valid

  /** What the token answers to the k-th attempt of a call. */
  datatype Token = Token(
    sign: (nat, string, Mechanism, Bytes) -> SignReply,
    verify: (nat, string, Mechanism, Bytes, Bytes) -> VerifyReply)

  function SignAttempts(token: Token, name: string, algorithm: Algorithm, data: Bytes): nat -> HsmResult<Bytes> {
    (k: nat) =>
      match token.sign(k, name, ToMechanism(algorithm), data)
      case SearchFails(message) => Failure(ClusterError(message))
      case NoObject => Failure(KeyNotFound(name))
      case TokenFails(message) => Failure(SigningFailed(message))
      case Signature(bytes) => Success(bytes)
  }

  function VerifyAttempts(
    token: Token, name: string, algorithm: Algorithm, data: Bytes, signature: Bytes): nat -> HsmResult<bool> {
    (k: nat) =>
      match token.verify(k, name, ToMechanism(algorithm), data, signature)
      case SearchFails(message) => Failure(ClusterError(message))
      case NoObject => Failure(KeyNotFound(name))
      case TokenFails(message) => Failure(VerificationFailed(message))
      case Invalid => Success(false)
      case Valid => Success(true)
  }

  /** Only a failed object search is a cluster error of the operation. */
  lemma SignRetries(token: Token, name: string, algorithm: Algorithm, data: Bytes)
    ensures var op := SignAttempts(token, name, algorithm, data);
      forall j: nat :: token.sign(j, name, ToMechanism(algorithm), data).SearchFails? <==>
        op(j).Failure? && op(j).error.ClusterError?
  {
  }

  lemma VerifyRetries(token: Token, name: string, algorithm: Algorithm, data: Bytes, signature: Bytes)
    ensures var op := VerifyAttempts(token, name, algorithm, data, signature);
      forall j: nat :: token.verify(j, name, ToMechanism(algorithm), data, signature).SearchFails? <==>
        op(j).Failure? && op(j).error.ClusterError?
  {
  }

  function SignAnswer(
    keys: map<string, KeyEntry>, retries: nat, keyId: string, script: KeyEntry -> (nat -> Attempt<Bytes>))
    : HsmResult<Bytes> {
    if keyId !in keys then Failure(KeyNotFound(keyId))
    else if !keys[keyId].info.enabled then Failure(KeyDisabled(keyId))
    else FinalAnswer(retries, script(keys[keyId]))
  }

  function VerifyAnswer(
    keys: map<string, KeyEntry>, retries: nat, keyId: string, script: KeyEntry -> (nat -> Attempt<bool>))
    : HsmResult<bool> {
    if keyId !in keys then Failure(KeyNotFound(keyId)) else FinalAnswer(retries, script(keys[keyId]))
  }

  /** The sequence holds each of the n sessions created so far exactly once. */
  ghost predicate AllSessions(sessions: seq<Session>, n: nat) {
    && (forall i, j :: 0 <= i < j < |sessions| ==> sessions[i] != sessions[j])
    && (forall s: Session :: s in sessions <==> s < n)
  }

  class Backend {
    const keys: map<string, KeyEntry>
    const retryAttempts: nat
    const poolSize: nat
    var idle: seq<Session>
    var created: nat
    var exhausted: nat

    /** Every session ever created is idle: no call is under way. */
    ghost predicate Valid()
      reads this
    {
      created <= poolSize && AllSessions(idle, created)
    }

    constructor (configs: seq<KeyConfig>, retryAttempts: nat, poolSize: nat)
      ensures Valid() && idle == [] && created == 0 && exhausted == 0
      ensures this.retryAttempts == retryAttempts && this.poolSize == poolSize
      ensures RegistryOf(configs, |configs|, keys)
    {
      var m: map<string, KeyEntry> := map[];
      for n := 0 to |configs|
        invariant RegistryOf(configs, n, m)
      {
        var config := configs[n];
        ghost var before := m;
        if config.enabled {
          m := m[config.id := Entry(config)];
        }
        RegistryRound(configs, n, before);
      }
      this.keys := m;
      this.retryAttempts := retryAttempts;
      this.poolSize := poolSize;
      idle, created, exhausted := [], 0, 0;
    }

    /** Every session is idle but this one, which a call holds. */
    ghost predicate Lent(session: Session)
      reads this
    {
      created <= poolSize && AllSessions([session] + idle, created)
    }

    /** Checks out the session that has been idle longest, or creates one, which may fail.
        In a pool without room for a session this never returns. */
    method Get(creation: Option<string>) returns (r: Option<Session>)
      requires Valid() && poolSize >= 1
      modifies this`idle, this`created
      ensures r == None <==> old(idle) == [] && creation.Some?
      ensures r == None ==> Valid() && idle == old(idle) && created == old(created)
      ensures r.Some? ==> Lent(r.value)
      ensures r.Some? ==> if old(idle) == [] then r.value == old(created) && created == old(created) + 1 && idle == []
        else r.value == old(idle)[0] && idle == old(idle)[1..] && created == old(created)
    {
      if idle == [] {
        if creation.Some? {
          return None;
        }
        assert created == 0 by {
          assert 0 !in idle;
        }
        r := Some(created);
        created := created + 1;
      } else {
        assert idle == [idle[0]] + idle[1..];
        r := Some(idle[0]);
        idle := idle[1..];
      }
    }

    method Put(session: Session)
      requires Lent(session)
      modifies this`idle
      ensures Valid() && idle == old(idle) + [session]
    {
      ghost var before := [session] + idle;
      idle := idle + [session];
      assert forall s :: s in idle <==> s in before;
      assert forall i :: 0 <= i < |idle| ==> idle[i] == if i == |idle| - 1 then before[0] else before[i + 1];
    }

    /** One round of the retry loop: check a session out, run the operation, return the session. */
    method Round<T>(creation: Option<string>, outcome: HsmResult<T>) returns (a: Attempt<T>)
      requires Valid() && poolSize >= 1
      modifies this`idle, this`created
      ensures Valid()
      ensures a == if old(idle) == [] && creation.Some? then NoSession(creation.value) else Ran(outcome)
      ensures a.Ran? ==> idle != [] && created == if old(idle) == [] then old(created) + 1 else old(created)
      ensures a.NoSession? ==> idle == old(idle) && created == old(created)
    {
      var session := Get(creation);
      if session == None {
        return NoSession(creation.value);
      }
      a := Ran(outcome);
      Put(session.value);
    }

    /** One uncontended call. Attempt k finds session creation at `create(k)` and the
        operation at `op(k)`; the answer is the one the retry rule gives for those
        attempts, and every session is back in the pool. Unless no session can be had, it
        is that of the first operation that does not end in a cluster error, or of the
        last one allowed. */
    method WithSession<T>(create: nat -> Option<string>, op: nat -> HsmResult<T>) returns (r: HsmResult<T>)
      requires Valid() && poolSize >= 1
      modifies this`idle, this`created, this`exhausted
      ensures Valid()
      ensures r == FinalAnswer(retryAttempts, Script(old(idle) == [], create, op))
      ensures exhausted ==
        old(exhausted) + (if Exhausted(retryAttempts, Script(old(idle) == [], create, op)) then 1 else 0)
      ensures created == if old(idle) == [] && create(0) == None then old(created) + 1 else old(created)
      ensures if old(idle) == [] && create(0).Some? then
          r == Failure(ClusterError("Session pool exhausted: " + create(0).value)) && exhausted == old(exhausted)
        else
          exists n: nat :: n <= retryAttempts && r == op(n)
            && (forall j: nat :: j < n ==> op(j).Failure? && op(j).error.ClusterError?)
            && if r.Failure? && r.error.ClusterError? then n == retryAttempts && exhausted == old(exhausted) + 1
               else exhausted == old(exhausted)
    {
      ghost var script := Script(idle == [], create, op);
      ghost var used := Used(retryAttempts, script);
      UsedSkipsTransient(retryAttempts, script, 0);
      var lastErr := PoolExhausted;
      for attempt := 0 to retryAttempts + 1
        invariant Valid() && exhausted == old(exhausted)
        invariant attempt <= used && (attempt == used ==> attempt == retryAttempts + 1)
        invariant attempt > 0 ==> script(attempt - 1) == Ran(Failure(lastErr)) && lastErr.ClusterError?
        invariant attempt > 0 ==> op(attempt - 1) == Failure(lastErr) && !(old(idle) == [] && create(0).Some?)
        invariant forall j: nat :: j < attempt ==> op(j).Failure? && op(j).error.ClusterError?
        invariant if attempt == 0 then idle == old(idle) && created == old(created)
          else idle != [] && created == if old(idle) == [] && create(0) == None then old(created) + 1 else old(created)
      {
        // from the second attempt on, the source sleeps here, holding no session
        var a := Round(create(attempt), op(attempt));
        assert a == script(attempt);
        if !Transient(a) {
          assert attempt == used - 1;
          assert a.Ran? ==> a.outcome == op(attempt);
          return Answer(a);
        }
        lastErr := a.outcome.error;
      }
      exhausted := exhausted + 1;
      r := Failure(lastErr);
      assert r == op(retryAttempts);
    }

    /** Signing: the digest is prepared outside the pool, the token works inside it. */
    method Sign(
      token: Token, digest: Digest, create: nat -> Option<string>,
      keyId: string, algorithm: Algorithm, payload: Bytes, prehashed: bool) returns (r: HsmResult<Bytes>)
      requires Valid() && (keyId in keys ==> poolSize >= 1)
      modifies this`idle, this`created, this`exhausted
      ensures Valid()
      ensures r == SignAnswer(keys, retryAttempts, keyId, (entry: KeyEntry) =>
        Script(old(idle) == [], create,
          SignAttempts(token, entry.tokenLabel, algorithm, DataFor(digest, algorithm, payload, prehashed))))
      ensures keyId !in keys ==> r == Failure(KeyNotFound(keyId))
      ensures keyId in keys && keys[keyId].info.enabled && !(old(idle) == [] && create(0).Some?) ==>
        var name, ecdsa := keys[keyId].tokenLabel, algorithm.Es256? || algorithm.Es384?;
        var mechanism := if ecdsa then Ecdsa else Hashing(algorithm);
        var data := if ecdsa && !prehashed then digest(algorithm, payload) else payload;
        exists n: nat :: n <= retryAttempts
          && (forall j: nat :: j < n ==> token.sign(j, name, mechanism, data).SearchFails?)
          && match token.sign(n, name, mechanism, data)
             case SearchFails(message) => n == retryAttempts && r == Failure(ClusterError(message))
             case NoObject => r == Failure(KeyNotFound(name))
             case TokenFails(message) => r == Failure(SigningFailed(message))
             case Signature(bytes) => r == Success(bytes)
    {
      if keyId !in keys {
        return Failure(KeyNotFound(keyId));
      }
      var entry := keys[keyId];
      if !entry.info.enabled {
        return Failure(KeyDisabled(keyId));
      }
      var data := DataFor(digest, algorithm, payload, prehashed);
      var op := SignAttempts(token, entry.tokenLabel, algorithm, data);
      r := WithSession(create, op);
      SignRetries(token, entry.tokenLabel, algorithm, data);
    }

    method Verify(
      token: Token, digest: Digest, create: nat -> Option<string>,
      keyId: string, algorithm: Algorithm, payload: Bytes, signature: Bytes, prehashed: bool)
      returns (r: HsmResult<bool>)
      requires Valid() && (keyId in keys ==> poolSize >= 1)
      modifies this`idle, this`created, this`exhausted
      ensures Valid()
      ensures r == VerifyAnswer(keys, retryAttempts, keyId, (entry: KeyEntry) =>
        Script(old(idle) == [], create,
          VerifyAttempts(token, entry.tokenLabel, algorithm,
            DataFor(digest, algorithm, payload, prehashed), signature)))
      ensures keyId !in keys ==> r == Failure(KeyNotFound(keyId))
      ensures keyId in keys && !(old(idle) == [] && create(0).Some?) ==>
        var name, ecdsa := keys[keyId].tokenLabel, algorithm.Es256? || algorithm.Es384?;
        var mechanism := if ecdsa then Ecdsa else Hashing(algorithm);
        var data := if ecdsa && !prehashed then digest(algorithm, payload) else payload;
        exists n: nat :: n <= retryAttempts
          && (forall j: nat :: j < n ==> token.verify(j, name, mechanism, data, signature).SearchFails?)
          && match token.verify(n, name, mechanism, data, signature)
             case SearchFails(message) => n == retryAttempts && r == Failure(ClusterError(message))
             case NoObject => r == Failure(KeyNotFound(name))
             case TokenFails(message) => r == Failure(VerificationFailed(message))
             case Invalid => r == Success(false)
             case Valid => r == Success(true)
    {
      if keyId !in keys {
        return Failure(KeyNotFound(keyId));
      }
      var entry := keys[keyId];
      var data := DataFor(digest, algorithm, payload, prehashed);
      var op := VerifyAttempts(token, entry.tokenLabel, algorithm, data, signature);
      r := WithSession(create, op);
      VerifyRetries(token, entry.tokenLabel, algorithm, data, signature);
    }

    /** Keys live on the token: a reload changes nothing. */
    method ReloadKeys(configs: seq<KeyConfig>) returns (r: HsmResult<()>)
      ensures r == Success(())
    {
      r := Success(());
    }
  }
}
