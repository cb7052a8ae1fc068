/** The sign and verify handlers of src/http/handlers.rs once the gates are passed: texts
    in, texts out. A signature that a sign response shows can be posted back. */
module Endpoints {
  import opened GatewayTypes
  import opened Retry
  import opened Cluster
  import opened SoftwareHsm
  import opened PreHash
  import Hex
  import Payload

  datatype Reply<+T> = InvalidPayload | InvalidSignature | Refused(error: HsmError) | Answered(value: T)

  function FromBackend<T>(r: HsmResult<T>): Reply<T> {
    match r
    case Success(value) => Answered(value)
    case Failure(error) => Refused(error)
  }

  /** The signature is shown as lower-case hexadecimal text. */
  function HandleSign(payload: string, sign: Bytes -> HsmResult<Bytes>): Reply<string> {
    match Payload.DecodePayload(payload)
    case None => InvalidPayload
    case Some(bytes) =>
      match sign(bytes)
      case Success(signature) => Answered(Hex.Encode(signature, false))
      case Failure(error) => Refused(error)
  }

  function HandleVerify(payload: string, signature: string, verify: (Bytes, Bytes) -> HsmResult<bool>): Reply<bool> {
    match Payload.DecodePayload(payload)
    case None => InvalidPayload
    case Some(bytes) =>
      match Payload.DecodePayload(signature)
      case None => InvalidSignature
      case Some(signatureBytes) => FromBackend(verify(bytes, signatureBytes))
  }

  lemma {:induction false} EncodesLowerHex(bytes: Bytes)
    ensures |Hex.Encode(bytes, false)| == 2 * |bytes|
    ensures forall i :: 0 <= i < 2 * |bytes| ==> Hex.Encode(bytes, false)[i] in "0123456789abcdef"
  {
    Hex.EncodeShape(bytes, false);
    var text := Hex.Encode(bytes, false);
    forall i | 0 <= i < |text| ensures text[i] in "0123456789abcdef" {
      Hex.EncodeDigits(bytes, false, i / 2);
      Hex.DigitIsTabled(bytes[i / 2] / 16, false);
      Hex.DigitIsTabled(bytes[i / 2] % 16, false);
      assert i == 2 * (i / 2) || i == 2 * (i / 2) + 1;
    }
  }

  /** What a sign response shows: nothing for a payload text that no decoder takes, else
      the backend's error, or its signature in lower-case hexadecimal. */
  lemma SignShows(payload: string, sign: Bytes -> HsmResult<Bytes>, bytes: Bytes)
    ensures Payload.DecodePayload(payload) == None <==> HandleSign(payload, sign) == InvalidPayload
    ensures Payload.DecodePayload(payload) == Some(bytes) ==>
      match sign(bytes)
      case Failure(error) => HandleSign(payload, sign) == Refused(error)
      case Success(signature) =>
        && HandleSign(payload, sign).Answered?
        && var text := HandleSign(payload, sign).value;
           && |text| == 2 * |signature| && Hex.Decode(text) == Some(signature)
           && forall i :: 0 <= i < |text| ==> text[i] in "0123456789abcdef"
  {
    if Payload.DecodePayload(payload) == Some(bytes) && sign(bytes).Success? {
      EncodesLowerHex(sign(bytes).value);
      Hex.RoundTrip(sign(bytes).value, false);
    }
  }

  /** What a verify response shows: the first of the two texts that no decoder takes, else
      what the backend says of the two. */
  lemma VerifyShows(
    payload: string, signature: string, verify: (Bytes, Bytes) -> HsmResult<bool>, bytes: Bytes, signatureBytes: Bytes)
    ensures Payload.DecodePayload(payload) == None ==> HandleVerify(payload, signature, verify) == InvalidPayload
    ensures Payload.DecodePayload(payload).Some? && Payload.DecodePayload(signature) == None ==>
      HandleVerify(payload, signature, verify) == InvalidSignature
    ensures
      Payload.DecodePayload(payload) == Some(bytes) && Payload.DecodePayload(signature) == Some(signatureBytes) ==>
      match verify(bytes, signatureBytes)
      case Success(valid) => HandleVerify(payload, signature, verify) == Answered(valid)
      case Failure(error) => HandleVerify(payload, signature, verify) == Refused(error)
  {
  }

  /** A posted-back signature text stands for the very bytes the backend signed with: it is
      never rejected nor misread, whatever they are. */
  lemma PostedBackReachesBackend(
    payload: string, again: string, sign: Bytes -> HsmResult<Bytes>, verify: (Bytes, Bytes) -> HsmResult<bool>)
    returns (bytes: Bytes, signature: Bytes)
    requires HandleSign(payload, sign).Answered?
    ensures Payload.DecodePayload(payload) == Some(bytes) && sign(bytes) == Success(signature)
    ensures HandleVerify(again, HandleSign(payload, sign).value, verify) ==
      match Payload.DecodePayload(again)
      case None => InvalidPayload
      case Some(looked) => FromBackend(verify(looked, signature))
  {
    bytes := Payload.DecodePayload(payload).value;
    signature := sign(bytes).value;
    Payload.InvertsHex(signature, false);
  }

  /** What the cluster backend answers to each payload, whatever its attempts meet. */
  function ClusterSigns(
    keys: map<string, KeyEntry>, retries: nat, keyId: string, scripts: Bytes -> (KeyEntry -> (nat -> Attempt<Bytes>)))
    : Bytes -> HsmResult<Bytes> {
    (bytes: Bytes) => SignAnswer(keys, retries, keyId, scripts(bytes))
  }

  function ClusterVerifies(
    keys: map<string, KeyEntry>, retries: nat, keyId: string,
    scripts: (Bytes, Bytes) -> (KeyEntry -> (nat -> Attempt<bool>))): (Bytes, Bytes) -> HsmResult<bool> {
    (bytes: Bytes, signature: Bytes) => VerifyAnswer(keys, retries, keyId, scripts(bytes, signature))
  }

  /** The attempts of every call are the token's answers about the data prepared for it. */
  ghost predicate MeetsToken(
    token: Token, digest: Digest, algorithm: Algorithm, signed: bool, verified: bool,
    signScripts: Bytes -> (KeyEntry -> (nat -> Attempt<Bytes>)),
    verifyScripts: (Bytes, Bytes) -> (KeyEntry -> (nat -> Attempt<bool>))) {
    && (forall bytes, entry: KeyEntry :: Meets(signScripts(bytes)(entry),
          SignAttempts(token, entry.tokenLabel, algorithm, DataFor(digest, algorithm, bytes, signed))))
    && (forall bytes, signature, entry: KeyEntry :: Meets(verifyScripts(bytes, signature)(entry),
          VerifyAttempts(token, entry.tokenLabel, algorithm, DataFor(digest, algorithm, bytes, verified), signature)))
  }

  /** On the cluster a signature that a response shows, posted back with a payload text
      that names the same data, is never called invalid, through any retries of either
      call and for every algorithm. */
  lemma ClusterPostedBackIsValid(
    keys: map<string, KeyEntry>, retries: nat, keyId: string, token: Token, digest: Digest, algorithm: Algorithm,
    payload: string, signed: bool, again: string, verified: bool,
    signScripts: Bytes -> (KeyEntry -> (nat -> Attempt<Bytes>)),
    verifyScripts: (Bytes, Bytes) -> (KeyEntry -> (nat -> Attempt<bool>)))
    requires Honest(token) && MeetsToken(token, digest, algorithm, signed, verified, signScripts, verifyScripts)
    requires HandleSign(payload, ClusterSigns(keys, retries, keyId, signScripts)).Answered?
    requires Payload.DecodePayload(again).Some?
    requires DataFor(digest, algorithm, Payload.DecodePayload(payload).value, signed) ==
      DataFor(digest, algorithm, Payload.DecodePayload(again).value, verified)
    ensures var shown := HandleSign(payload, ClusterSigns(keys, retries, keyId, signScripts)).value;
      var reply := HandleVerify(again, shown, ClusterVerifies(keys, retries, keyId, verifyScripts));
      reply == Answered(true) || reply.Refused?
  {
    var sign, verify :=
      ClusterSigns(keys, retries, keyId, signScripts), ClusterVerifies(keys, retries, keyId, verifyScripts);
    var bytes, signature := PostedBackReachesBackend(payload, again, sign, verify);
    var looked := Payload.DecodePayload(again).value;
    if verify(looked, signature).Success? {
      var entry := keys[keyId];
      SameDataVerifies(token, entry.tokenLabel, algorithm, DataFor(digest, algorithm, bytes, signed), retries,
        signScripts(bytes)(entry), verifyScripts(looked, signature)(entry));
    }
  }

  /** In particular when the payload text and its flag are posted back unchanged, and, for
      ES256 and ES384, when one text shows a message and the other its digest. */
  lemma NamesSameData(
    digest: Digest, algorithm: Algorithm, payload: string, signed: bool, again: string, verified: bool,
    message: Bytes, form: Form, form': Form)
    requires Payload.DecodePayload(payload).Some?
    requires
      || (again == payload && verified == signed)
      || (&& (algorithm.Es256? || algorithm.Es384?)
          && (Payload.DecodePayload(payload).value, signed) == Submit(digest, algorithm, message, form)
          && Payload.DecodePayload(again).Some?
          && (Payload.DecodePayload(again).value, verified) == Submit(digest, algorithm, message, form'))
    ensures Payload.DecodePayload(again).Some?
    ensures DataFor(digest, algorithm, Payload.DecodePayload(payload).value, signed) ==
      DataFor(digest, algorithm, Payload.DecodePayload(again).value, verified)
  {
    FormsAgreeIff(digest, algorithm, message);
  }

  /** On the software backend a posted-back ECDSA signature is called valid exactly for
      payload texts with the digest of the one that was signed, if the call comes to an
      answer. */
  lemma SoftwarePostedBackIsValidIff(
    keys: map<string, StoredKey>, keyId: string, p: Primitives, seed: nat, algorithm: Algorithm,
    payload: string, again: string)
    requires IsEcdsa(algorithm) && Exact(p)
    requires HandleSign(payload, (b: Bytes) => SignOutcome(keys, keyId, p, seed, algorithm, b)).Answered?
    requires Payload.DecodePayload(again).Some?
    ensures var shown := HandleSign(payload, (b: Bytes) => SignOutcome(keys, keyId, p, seed, algorithm, b)).value;
      var reply := HandleVerify(again, shown, (b: Bytes, s: Bytes) => VerifyOutcome(keys, keyId, p, algorithm, b, s));
      reply.Refused? || reply == Answered(
        p.digest(algorithm, Payload.DecodePayload(again).value) ==
        p.digest(algorithm, Payload.DecodePayload(payload).value))
  {
    var sign := (b: Bytes) => SignOutcome(keys, keyId, p, seed, algorithm, b);
    var verify := (b: Bytes, s: Bytes) => VerifyOutcome(keys, keyId, p, algorithm, b, s);
    var bytes, signature := PostedBackReachesBackend(payload, again, sign, verify);
    var looked := Payload.DecodePayload(again).value;
    if verify(looked, signature).Success? {
      SoftwareVerifiesIff(keys, keyId, p, seed, algorithm, bytes, looked);
    }
  }
}
