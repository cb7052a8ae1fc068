/** What the cluster backend promises across calls, however many retries each took: a
    signature made from a payload or from its digest verifies against either form, and
    no registered key is ever reported as disabled. */
module PreHash {
  import opened GatewayTypes
  import opened Registry
  import opened Retry
  import opened Cluster
  import opened SoftwareHsm
  import Pem

  /** The token accepts what it signed with the same key pair, mechanism and data, at
      any attempt of any call. */
  ghost predicate Honest(token: Token) {
    forall j, k, name, mechanism, data, bytes ::
      token.sign(j, name, mechanism, data) == Signature(bytes) ==>
        token.verify(k, name, mechanism, data, bytes) != VerifyReply.Invalid
  }

  /** The attempts a call met, among other calls: no session, or the operation as the token answers it. */
  ghost predicate Meets<T(!new)>(script: nat -> Attempt<T>, operation: nat -> HsmResult<T>) {
    forall k :: script(k).NoSession? || script(k) == Ran(operation(k))
  }

  lemma AnswerIsAnAttempt<T(!new)>(retries: nat, script: nat -> Attempt<T>, operation: nat -> HsmResult<T>)
    requires Meets(script, operation) && FinalAnswer(retries, script).Success?
    ensures exists k :: 0 <= k <= retries && operation(k) == FinalAnswer(retries, script)
  {
    var k := Used(retries, script) - 1;
    assert script(k) == Ran(operation(k));
  }

  /** A signature verifies for every form of the message that names the same data to
      the token, if both calls come to an answer. */
  lemma SameDataVerifies(
    token: Token, name: string, algorithm: Algorithm, data: Bytes, retries: nat,
    signScript: nat -> Attempt<Bytes>, verifyScript: nat -> Attempt<bool>)
    requires Honest(token)
    requires Meets(signScript, SignAttempts(token, name, algorithm, data))
    requires FinalAnswer(retries, signScript).Success? && FinalAnswer(retries, verifyScript).Success?
    requires Meets(verifyScript, VerifyAttempts(token, name, algorithm, data, FinalAnswer(retries, signScript).value))
    ensures FinalAnswer(retries, verifyScript) == Success(true)
  {
    var signature := FinalAnswer(retries, signScript).value;
    AnswerIsAnAttempt(retries, signScript, SignAttempts(token, name, algorithm, data));
    AnswerIsAnAttempt(retries, verifyScript, VerifyAttempts(token, name, algorithm, data, signature));
    var j :| 0 <= j <= retries && SignAttempts(token, name, algorithm, data)(j) == Success(signature);
    assert token.sign(j, name, ToMechanism(algorithm), data) == Signature(signature);
    var k :| 0 <= k <= retries &&
      VerifyAttempts(token, name, algorithm, data, signature)(k) == FinalAnswer(retries, verifyScript);
    assert token.verify(k, name, ToMechanism(algorithm), data, signature) != VerifyReply.Invalid;
  }

  datatype Form = Raw | Digested

  /** The request fields that submit a message in this form, with the matching flag. */
  function Submit(digest: Digest, algorithm: Algorithm, message: Bytes, form: Form): (Bytes, bool) {
    match form
    case Raw => (message, false)
    case Digested => (digest(algorithm, message), true)
  }

  function DataOf(digest: Digest, algorithm: Algorithm, message: Bytes, form: Form): Bytes {
    DataFor(digest, algorithm, Submit(digest, algorithm, message, form).0, Submit(digest, algorithm, message, form).1)
  }

  /** The two forms of a message are one to the token exactly for ECDSA, and for the
      other mechanisms, which hash whatever they are given, only when hashing changes
      nothing. */
  lemma FormsAgreeIff(digest: Digest, algorithm: Algorithm, message: Bytes)
    ensures DataOf(digest, algorithm, message, Raw) == DataOf(digest, algorithm, message, Digested) <==>
      algorithm.Es256? || algorithm.Es384? || digest(algorithm, message) == message
  {
  }

  /** ES256 and ES384 signatures made from a payload or from its digest verify against
      either form, however many transient errors the two calls went through. */
  lemma EcdsaCoherent(
    keys: map<string, KeyEntry>, retries: nat, token: Token, digest: Digest,
    keyId: string, algorithm: Algorithm, message: Bytes, signed: Form, verified: Form,
    signScript: KeyEntry -> (nat -> Attempt<Bytes>), verifyScript: KeyEntry -> (nat -> Attempt<bool>))
    requires algorithm.Es256? || algorithm.Es384?
    requires Honest(token)
    requires var answer := SignAnswer(keys, retries, keyId, signScript);
      && answer.Success?
      && VerifyAnswer(keys, retries, keyId, verifyScript).Success?
      && Meets(signScript(keys[keyId]),
           SignAttempts(token, keys[keyId].tokenLabel, algorithm, DataOf(digest, algorithm, message, signed)))
      && Meets(verifyScript(keys[keyId]),
           VerifyAttempts(token, keys[keyId].tokenLabel, algorithm,
             DataOf(digest, algorithm, message, verified), answer.value))
    ensures VerifyAnswer(keys, retries, keyId, verifyScript) == Success(true)
  {
    FormsAgreeIff(digest, algorithm, message);
    var entry := keys[keyId];
    SameDataVerifies(token, entry.tokenLabel, algorithm, DataOf(digest, algorithm, message, signed), retries,
      signScript(entry), verifyScript(entry));
  }

  // ----- the software backend -----

  /** A signature verifies under the public key derived from its private key exactly for
      the digest it was made from, if it and the public key can be read at all. */
  ghost predicate Exact(p: Primitives) {
    forall seed, algorithm, text, der, public, signed, signature, looked ::
      && Pem.EcdsaPemToPkcs8Der(text) == Success(der)
      && p.ecdsaSign(seed, algorithm, der, signed) == Success(signature)
      && p.derivePublic(algorithm, text) == Success(public)
      && p.ecdsaVerify(algorithm, public, looked, signature).Success? ==>
        (p.ecdsaVerify(algorithm, public, looked, signature).value <==> looked == signed)
  }

  /** Signing a message submitted in this form. */
  function SignForm(
    keys: map<string, StoredKey>, keyId: string, p: Primitives, seed: nat, algorithm: Algorithm,
    message: Bytes, form: Form): HsmResult<Bytes> {
    SignOutcome(keys, keyId, p, seed, algorithm, Submit(p.digest, algorithm, message, form).0)
  }

  function VerifyForm(
    keys: map<string, StoredKey>, keyId: string, p: Primitives, algorithm: Algorithm,
    message: Bytes, form: Form, signature: Bytes): HsmResult<bool> {
    VerifyOutcome(keys, keyId, p, algorithm, Submit(p.digest, algorithm, message, form).0, signature)
  }

  lemma SoftwareSignatureIs(
    keys: map<string, StoredKey>, keyId: string, p: Primitives, seed: nat, algorithm: Algorithm, payload: Bytes)
    returns (text: string, der: Bytes)
    requires IsEcdsa(algorithm)
    requires SignOutcome(keys, keyId, p, seed, algorithm, payload).Success?
    ensures keyId in keys && p.text(keys[keyId].pem) == Some(text)
    ensures Pem.EcdsaPemToPkcs8Der(text) == Success(der)
    ensures p.ecdsaSign(seed, algorithm, der, p.digest(algorithm, payload)) ==
      Success(SignOutcome(keys, keyId, p, seed, algorithm, payload).value)
  {
    text := p.text(keys[keyId].pem).value;
    der := Pem.EcdsaPemToPkcs8Der(text).value;
  }

  /** A software ECDSA signature verifies exactly for the payloads with the digest of the
      one that was signed. */
  lemma SoftwareVerifiesIff(
    keys: map<string, StoredKey>, keyId: string, p: Primitives, seed: nat, algorithm: Algorithm,
    payload: Bytes, looked: Bytes)
    requires IsEcdsa(algorithm) && Exact(p)
    requires SignOutcome(keys, keyId, p, seed, algorithm, payload).Success?
    requires var signature := SignOutcome(keys, keyId, p, seed, algorithm, payload).value;
      VerifyOutcome(keys, keyId, p, algorithm, looked, signature).Success?
    ensures var signature := SignOutcome(keys, keyId, p, seed, algorithm, payload).value;
      VerifyOutcome(keys, keyId, p, algorithm, looked, signature) ==
        Success(p.digest(algorithm, looked) == p.digest(algorithm, payload))
  {
    var text, der := SoftwareSignatureIs(keys, keyId, p, seed, algorithm, payload);
    var public := p.derivePublic(algorithm, text).value;
    var signature := SignOutcome(keys, keyId, p, seed, algorithm, payload).value;
    assert p.ecdsaVerify(algorithm, public, p.digest(algorithm, looked), signature).Success?;
  }

  /** The same of RSA signatures, whose public key is read as SPKI. */
  ghost predicate ExactRsa(p: Primitives) {
    forall seed, algorithm, text, public, der, signed, signature, looked ::
      && p.rsaSign(seed, algorithm, text, signed) == Success(signature)
      && p.derivePublic(algorithm, text) == Success(public)
      && Pem.SpkiPemToDer(public) == Success(der) ==>
        (p.rsaVerify(algorithm, der, looked, signature) <==> looked == signed)
  }

  /** RSA signatures too verify exactly for the payloads with the digest that was signed. */
  lemma SoftwareRsaVerifiesIff(
    keys: map<string, StoredKey>, keyId: string, p: Primitives, seed: nat, algorithm: Algorithm,
    payload: Bytes, looked: Bytes)
    requires !IsEcdsa(algorithm) && !IsHmac(algorithm) && ExactRsa(p)
    requires SignOutcome(keys, keyId, p, seed, algorithm, payload).Success?
    requires var signature := SignOutcome(keys, keyId, p, seed, algorithm, payload).value;
      VerifyOutcome(keys, keyId, p, algorithm, looked, signature).Success?
    ensures var signature := SignOutcome(keys, keyId, p, seed, algorithm, payload).value;
      VerifyOutcome(keys, keyId, p, algorithm, looked, signature) ==
        Success(p.digest(algorithm, looked) == p.digest(algorithm, payload))
  {
    var text := p.text(keys[keyId].pem).value;
    var public := p.derivePublic(algorithm, text).value;
    var der := Pem.SpkiPemToDer(public).value;
    var signature := SignOutcome(keys, keyId, p, seed, algorithm, payload).value;
    assert p.rsaSign(seed, algorithm, text, p.digest(algorithm, payload)) == Success(signature);
    assert p.rsaVerify(algorithm, der, p.digest(algorithm, looked), signature) <==>
      p.digest(algorithm, looked) == p.digest(algorithm, payload);
  }

  /** On the software backend a signature made from one form of a message verifies
      against a form exactly when the forms are the same or the digest of the message is
      its own digest. */
  lemma SoftwareFormsAgreeIff(
    keys: map<string, StoredKey>, keyId: string, p: Primitives, seed: nat, algorithm: Algorithm,
    message: Bytes, signed: Form, verified: Form)
    requires IsEcdsa(algorithm) && Exact(p)
    requires SignForm(keys, keyId, p, seed, algorithm, message, signed).Success?
    requires var answer := SignForm(keys, keyId, p, seed, algorithm, message, signed);
      VerifyForm(keys, keyId, p, algorithm, message, verified, answer.value).Success?
    ensures var answer := SignForm(keys, keyId, p, seed, algorithm, message, signed);
      var once := p.digest(algorithm, message);
      VerifyForm(keys, keyId, p, algorithm, message, verified, answer.value) ==
        Success(signed == verified || p.digest(algorithm, once) == once)
  {
    SoftwareVerifiesIff(keys, keyId, p, seed, algorithm,
      Submit(p.digest, algorithm, message, signed).0, Submit(p.digest, algorithm, message, verified).0);
  }

  /** The token object of this name holds the key pair of these bytes: it accepts a
      software signature exactly for the digest it was made from. */
  ghost predicate SamePair(p: Primitives, text: string, token: Token, name: string) {
    forall seed, algorithm, der, signed, signature, k, looked ::
      && Pem.EcdsaPemToPkcs8Der(text) == Success(der)
      && p.ecdsaSign(seed, algorithm, der, signed) == Success(signature) ==>
        && (token.verify(k, name, Ecdsa, looked, signature) == VerifyReply.Valid ==> looked == signed)
        && (token.verify(k, name, Ecdsa, looked, signature) == VerifyReply.Invalid ==> looked != signed)
  }

  /** A signature of the software backend verifies on the cluster, against either form of
      the message and through any retries, exactly when it was made from the message
      itself or the digest of the message is its own digest. */
  lemma BackendsAgreeIff(
    keys: map<string, StoredKey>, keyId: string, p: Primitives, seed: nat, algorithm: Algorithm,
    message: Bytes, signed: Form, verified: Form,
    token: Token, entry: KeyEntry, retries: nat, verifyScript: nat -> Attempt<bool>)
    requires IsEcdsa(algorithm)
    requires SignForm(keys, keyId, p, seed, algorithm, message, signed).Success?
    requires p.text(keys[keyId].pem).Some? ==> SamePair(p, p.text(keys[keyId].pem).value, token, entry.tokenLabel)
    requires var answer := SignForm(keys, keyId, p, seed, algorithm, message, signed);
      Meets(verifyScript, VerifyAttempts(token, entry.tokenLabel, algorithm,
        DataOf(p.digest, algorithm, message, verified), answer.value))
    requires FinalAnswer(retries, verifyScript).Success?
    ensures var once := p.digest(algorithm, message);
      FinalAnswer(retries, verifyScript) == Success(signed == Raw || p.digest(algorithm, once) == once)
  {
    var text, der := SoftwareSignatureIs(
      keys, keyId, p, seed, algorithm, Submit(p.digest, algorithm, message, signed).0);
    var signature := SignForm(keys, keyId, p, seed, algorithm, message, signed).value;
    var data := DataOf(p.digest, algorithm, message, verified);
    var attempts := VerifyAttempts(token, entry.tokenLabel, algorithm, data, signature);
    AnswerIsAnAttempt(retries, verifyScript, attempts);
    var k :| 0 <= k <= retries && attempts(k) == FinalAnswer(retries, verifyScript);
    assert ToMechanism(algorithm) == Ecdsa && data == p.digest(algorithm, message);
    var reply := token.verify(k, entry.tokenLabel, Ecdsa, data, signature);
    assert FinalAnswer(retries, verifyScript) == Success(reply.Valid?);
  }

  /** The attempts of an uncontended call are the operation's own. */
  lemma ScriptMeets<T(!new)>(noneIdle: bool, create: nat -> Option<string>, operation: nat -> HsmResult<T>)
    ensures Meets(Script(noneIdle, create, operation), operation)
  {
  }

  /** Signing with the backend and then verifying with it, as `Backend.Sign` and
      `Backend.Verify` answer: whichever forms are submitted and whatever the attempts
      meet, the signature is valid if both calls come to an answer. */
  lemma BackendCallsCoherent(
    keys: map<string, KeyEntry>, retries: nat, token: Token, digest: Digest,
    keyId: string, algorithm: Algorithm, message: Bytes, signed: Form, verified: Form,
    noneIdle: bool, create: nat -> Option<string>, noneIdle': bool, create': nat -> Option<string>)
    requires algorithm.Es256? || algorithm.Es384?
    requires Honest(token)
    ensures var (payload, flag) := Submit(digest, algorithm, message, signed);
      var (payload', flag') := Submit(digest, algorithm, message, verified);
      var signature := SignAnswer(keys, retries, keyId, (entry: KeyEntry) =>
        Script(noneIdle, create,
          SignAttempts(token, entry.tokenLabel, algorithm, DataFor(digest, algorithm, payload, flag))));
      signature.Success? ==>
        var answer := VerifyAnswer(keys, retries, keyId, (entry: KeyEntry) =>
          Script(noneIdle', create',
            VerifyAttempts(token, entry.tokenLabel, algorithm,
              DataFor(digest, algorithm, payload', flag'), signature.value)));
        answer.Success? ==> answer == Success(true)
  {
    var (payload, flag) := Submit(digest, algorithm, message, signed);
    var (payload', flag') := Submit(digest, algorithm, message, verified);
    var data, data' := DataFor(digest, algorithm, payload, flag), DataFor(digest, algorithm, payload', flag');
    var signScript := (entry: KeyEntry) =>
      Script(noneIdle, create, SignAttempts(token, entry.tokenLabel, algorithm, data));
    var signature := SignAnswer(keys, retries, keyId, signScript);
    if signature.Success? {
      var verifyScript := (entry: KeyEntry) =>
        Script(noneIdle', create', VerifyAttempts(token, entry.tokenLabel, algorithm, data', signature.value));
      if VerifyAnswer(keys, retries, keyId, verifyScript).Success? {
        var name := keys[keyId].tokenLabel;
        ScriptMeets(noneIdle, create, SignAttempts(token, name, algorithm, data));
        ScriptMeets(noneIdle', create', VerifyAttempts(token, name, algorithm, data', signature.value));
        EcdsaCoherent(keys, retries, token, digest, keyId, algorithm, message, signed, verified,
          signScript, verifyScript);
      }
    }
  }

  /** The registry is fixed at start-up and holds enabled keys only, so signing never
      answers that a key is disabled, and answers that the pool is exhausted only if the
      operation said so. */
  lemma ClusterUnreachableErrors(
    configs: seq<KeyConfig>, keys: map<string, KeyEntry>, retries: nat, token: Token, digest: Digest,
    keyId: string, algorithm: Algorithm, payload: Bytes, prehashed: bool,
    script: KeyEntry -> (nat -> Attempt<Bytes>))
    requires RegistryOf(configs, |configs|, keys)
    requires keyId in keys ==> Meets(script(keys[keyId]),
      SignAttempts(token, keys[keyId].tokenLabel, algorithm, DataFor(digest, algorithm, payload, prehashed)))
    ensures forall name :: SignAnswer(keys, retries, keyId, script) != Failure(KeyDisabled(name))
    ensures SignAnswer(keys, retries, keyId, script) != Failure(PoolExhausted)
    ensures keyId in keys ==> keys[keyId].info.id == keyId && keys[keyId].info.enabled
  {
    if keyId in keys {
      assert ComesFrom(configs, |configs|, keyId, keys[keyId]);
      var own := script(keys[keyId]);
      var k := Used(retries, own) - 1;
      assert own(k).NoSession? || own(k) == Ran(SignAttempts(token, keys[keyId].tokenLabel, algorithm,
        DataFor(digest, algorithm, payload, prehashed))(k));
    }
  }
}
