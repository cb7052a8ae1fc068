/** The software backend's registry (src/hsm/software.rs): loading keys from files,
    generating the missing ones, and replacing the registry on reload. */
module SoftwareHsm {
  import opened GatewayTypes
  import opened Registry
  import Base64
  import Pem

  datatype StoredKey = StoredKey(info: KeyInfo, pem: Bytes)

  /** What generating and writing a key comes to: it may fail before the file is
      touched, or in writing, which may leave part of a file behind. */
  datatype Generation =
    | GenerateFails(message: string)
    | CreateDirFails(message: string)
    | WriteFails(message: string, partial: Option<Bytes>)
    | Written(pem: Bytes)

  /** The outside world of one load: where keys live, which existing files cannot be
      read, and what generation does for each configuration. */
  datatype Env = Env(keyDir: string, unreadable: set<string>, generate: nat -> Generation)

  datatype Progress =
    | Loading(files: map<string, Bytes>, keys: map<string, StoredKey>)
    | Failed(files: map<string, Bytes>, message: string)

  function TrimSlashes(dir: string): string {
    if dir != "" && dir[|dir| - 1] == '/' then TrimSlashes(dir[..|dir| - 1]) else dir
  }

  function Path(keyDir: string, backendRef: string): string {
    TrimSlashes(keyDir) + "/" + backendRef + ".pem"
  }

  function KeyTypeLabel(algorithm: Algorithm): string {
    match algorithm
    case Rs256 | Ps256 => "RSA-2048"
    case Rs384 | Ps384 => "RSA-3072"
    case Rs512 | Ps512 => "RSA-4096"
    case Es256 => "EC-P256"
    case Es384 => "EC-P384"
    case Hs256 => "HMAC-256"
    case Hs384 => "HMAC-384"
    case Hs512 => "HMAC-512"
  }

  function Stored(config: KeyConfig, pem: Bytes): StoredKey {
    StoredKey(Describe(config, KeyTypeLabel(config.algorithm)), pem)
  }

  /** One round of the loading loop. */
  function LoadOne(
    env: Env, index: nat, config: KeyConfig, files: map<string, Bytes>, keys: map<string, StoredKey>): Progress {
    if !config.enabled then
      Loading(files, keys)
    else
      var path := Path(env.keyDir, config.backendRef);
      if path in files && path !in env.unreadable then
        Loading(files, keys[config.id := Stored(config, files[path])])
      else
        match env.generate(index)
        case GenerateFails(message) => Failed(files, message)
        case CreateDirFails(message) => Failed(files, message)
        case WriteFails(message, partial) =>
          Failed(if partial.Some? then files[path := partial.value] else files, message)
        case Written(pem) => Loading(files[path := pem], keys[config.id := Stored(config, pem)])
  }

  /** Where the loop stands after the first n configurations; a failure ends it. */
  function Load(env: Env, files: map<string, Bytes>, configs: seq<KeyConfig>, n: nat): Progress
    requires n <= |configs|
  {
    if n == 0 then Loading(files, map[])
    else
      match Load(env, files, configs, n - 1)
      case Loading(f, k) => LoadOne(env, n - 1, configs[n - 1], f, k)
      case Failed(f, message) => Failed(f, message)
  }

  lemma {:induction false} LoadFailureSticks(env: Env, files: map<string, Bytes>, configs: seq<KeyConfig>, n: nat)
    requires n <= |configs| && Load(env, files, configs, n).Failed?
    ensures Load(env, files, configs, |configs|) == Load(env, files, configs, n)
    decreases |configs| - n
  {
    if n < |configs| {
      LoadFailureSticks(env, files, configs, n + 1);
    }
  }

  /** Every entry is enabled and sits under its own id. */
  ghost predicate Sane(keys: map<string, StoredKey>) {
    forall id :: id in keys ==> keys[id].info.enabled && keys[id].info.id == id
  }

  lemma {:induction false} LoadIsSane(env: Env, files: map<string, Bytes>, configs: seq<KeyConfig>, n: nat)
    requires n <= |configs| && Load(env, files, configs, n).Loading?
    ensures Sane(Load(env, files, configs, n).keys)
  {
    if n > 0 {
      LoadIsSane(env, files, configs, n - 1);
    }
  }

  /** Files and registry after a reload. */
  function Reloaded(
    files: map<string, Bytes>, keys: map<string, StoredKey>, env: Env, configs: seq<KeyConfig>)
    : (map<string, Bytes>, map<string, StoredKey>) {
    match Load(env, files, configs, |configs|)
    case Loading(f, k) => (f, k)
    case Failed(f, _) => (f, keys)
  }

  class FileSystem {
    var files: map<string, Bytes>

    constructor (files: map<string, Bytes>)
      ensures this.files == files
    {
      this.files := files;
    }
  }

  method LoadKeys(fs: FileSystem, env: Env, configs: seq<KeyConfig>) returns (r: Result<map<string, StoredKey>, string>)
    modifies fs
    ensures match Load(env, old(fs.files), configs, |configs|)
      case Loading(f, k) => fs.files == f && r == Success(k)
      case Failed(f, message) => fs.files == f && r == Failure(message)
  {
    var keys: map<string, StoredKey> := map[];
    for i := 0 to |configs|
      invariant Load(env, old(fs.files), configs, i) == Loading(fs.files, keys)
    {
      ghost var filesBefore, keysBefore := fs.files, keys;
      assert Load(env, old(fs.files), configs, i + 1) == LoadOne(env, i, configs[i], filesBefore, keysBefore);
      var config := configs[i];
      if !config.enabled {
        continue;
      }
      var path := Path(env.keyDir, config.backendRef);
      var pem: Bytes;
      if path in fs.files && path !in env.unreadable {
        pem := fs.files[path];
      } else {
        match env.generate(i) {
          case GenerateFails(message) =>
            LoadFailureSticks(env, old(fs.files), configs, i + 1);
            return Failure(message);
          case CreateDirFails(message) =>
            LoadFailureSticks(env, old(fs.files), configs, i + 1);
            return Failure(message);
          case WriteFails(message, partial) =>
            if partial.Some? {
              fs.files := fs.files[path := partial.value];
            }
            LoadFailureSticks(env, old(fs.files), configs, i + 1);
            return Failure(message);
          case Written(generated) =>
            fs.files := fs.files[path := generated];
            pem := generated;
        }
      }
      keys := keys[config.id := Stored(config, pem)];
    }
    return Success(keys);
  }

  // ----- signing and verifying with a stored key -----

  /** The cryptographic library. Signatures may be randomized: the first argument of the
      signing primitives says how. RSA and ECDSA primitives hash the data they are given
      with the algorithm's own hash, so `rsaSign` and `ecdsaSign`, and their inverses,
      are what happens to that digest. */
  datatype Primitives = Primitives(
    text: Bytes -> Option<string>,
    digest: (Algorithm, Bytes) -> Bytes,
    rsaSign: (nat, Algorithm, string, Bytes) -> Result<Bytes, string>,
    ecdsaSign: (nat, Algorithm, Bytes, Bytes) -> Result<Bytes, string>,
    hmac: (Algorithm, Bytes, Bytes) -> Bytes,
    derivePublic: (Algorithm, string) -> Result<string, string>,
    rsaVerify: (Algorithm, Bytes, Bytes, Bytes) -> bool,
    ecdsaVerify: (Algorithm, string, Bytes, Bytes) -> Result<bool, string>)

  predicate IsEcdsa(algorithm: Algorithm) {
    algorithm.Es256? || algorithm.Es384?
  }

  predicate IsHmac(algorithm: Algorithm) {
    algorithm.Hs256? || algorithm.Hs384? || algorithm.Hs512?
  }

  function SigningResult(r: Result<Bytes, string>): HsmResult<Bytes> {
    match r
    case Success(signature) => Success(signature)
    case Failure(message) => Failure(SigningFailed(message))
  }

  function SignRsa(
    p: Primitives, seed: nat, pem: Bytes, algorithm: Algorithm, digestBytes: Bytes, prehashed: bool, payload: Bytes)
    : HsmResult<Bytes> {
    match p.text(pem)
    case None => Failure(SigningFailed("utf-8"))
    case Some(text) => SigningResult(p.rsaSign(seed, algorithm, text, p.digest(algorithm, payload)))
  }

  function SignEcdsa(
    p: Primitives, seed: nat, pem: Bytes, algorithm: Algorithm, payload: Bytes, prehashed: bool): HsmResult<Bytes> {
    match p.text(pem)
    case None => Failure(SigningFailed("utf-8"))
    case Some(text) =>
      match Pem.EcdsaPemToPkcs8Der(text)
      case Failure(error) => Failure(error)
      case Success(der) =>
        if !IsEcdsa(algorithm) then Failure(AlgorithmNotSupported("?", algorithm))
        else SigningResult(p.ecdsaSign(seed, algorithm, der, p.digest(algorithm, payload)))
  }

  const SYMMETRIC_KEY := "SYMMETRIC KEY"

  /** For HMAC the "public key" is the secret in a frame. */
  function DerivePublicKeyPem(p: Primitives, pem: Bytes, algorithm: Algorithm): HsmResult<string> {
    match p.text(pem)
    case None => Failure(BackendError("utf-8"))
    case Some(text) =>
      if IsHmac(algorithm) then
        Success(Pem.Begin(SYMMETRIC_KEY) + "\n" + Base64.EncodePadded(Base64.Standard, pem) + "\n" +
          Pem.End(SYMMETRIC_KEY) + "\n")
      else
        match p.derivePublic(algorithm, text)
        case Failure(message) => Failure(BackendError(message))
        case Success(public) => Success(public)
  }

  const HMAC_REFUSED := "HMAC verify requires the secret key \U{2014} use the /verify endpoint instead"

  function VerifyWithPublicKey(
    p: Primitives, public: string, algorithm: Algorithm, payload: Bytes, signature: Bytes, prehashed: bool)
    : HsmResult<bool> {
    match Pem.SpkiPemToDer(public)
    case Failure(error) => Failure(error)
    case Success(der) =>
      if IsHmac(algorithm) then
        Failure(VerificationFailed(HMAC_REFUSED))
      else if IsEcdsa(algorithm) then
        match p.ecdsaVerify(algorithm, public, p.digest(algorithm, payload), signature)
        case Failure(message) => Failure(VerificationFailed(message))
        case Success(valid) => Success(valid)
      else
        Success(p.rsaVerify(algorithm, der, p.digest(algorithm, payload), signature))
  }

  /** What signing this payload with these key bytes comes to: a code of the payload, or
      a signature of its digest. */
  function SignWith(p: Primitives, seed: nat, pem: Bytes, algorithm: Algorithm, payload: Bytes): HsmResult<Bytes> {
    if IsHmac(algorithm) then
      Success(p.hmac(algorithm, pem, payload))
    else
      match p.text(pem)
      case None => Failure(SigningFailed("utf-8"))
      case Some(text) =>
        var digest := p.digest(algorithm, payload);
        if !IsEcdsa(algorithm) then
          SigningResult(p.rsaSign(seed, algorithm, text, digest))
        else
          match Pem.EcdsaPemToPkcs8Der(text)
          case Failure(error) => Failure(error)
          case Success(der) => SigningResult(p.ecdsaSign(seed, algorithm, der, digest))
  }

  /** What verifying against the key pair of these bytes comes to. */
  function VerifyWith(
    p: Primitives, pem: Bytes, algorithm: Algorithm, payload: Bytes, signature: Bytes): HsmResult<bool> {
    match DerivePublicKeyPem(p, pem, algorithm)
    case Failure(error) => Failure(error)
    case Success(public) => VerifyWithPublicKey(p, public, algorithm, payload, signature, false)
  }

  /** The decision of `sign`, the check for a disabled key included. */
  function SignOutcome(
    keys: map<string, StoredKey>, keyId: string, p: Primitives, seed: nat, algorithm: Algorithm, payload: Bytes)
    : HsmResult<Bytes> {
    if keyId !in keys then Failure(KeyNotFound(keyId))
    else if !keys[keyId].info.enabled then Failure(KeyDisabled(keyId))
    else SignWith(p, seed, keys[keyId].pem, algorithm, payload)
  }

  function VerifyOutcome(
    keys: map<string, StoredKey>, keyId: string, p: Primitives, algorithm: Algorithm, payload: Bytes, signature: Bytes)
    : HsmResult<bool> {
    if keyId !in keys then Failure(KeyNotFound(keyId))
    else VerifyWith(p, keys[keyId].pem, algorithm, payload, signature)
  }

  lemma SecretFrame()
    ensures Pem.Begin(SYMMETRIC_KEY) == "-----BEGIN SYMMETRIC KEY-----"
    ensures Pem.End(SYMMETRIC_KEY) == "-----END SYMMETRIC KEY-----"
  {
  }

  /** No HMAC signature is ever verified, not even one just made: the framed secret is
      read back, and then refused. */
  lemma HmacNeverVerifies(p: Primitives, pem: Bytes, algorithm: Algorithm, payload: Bytes, signature: Bytes)
    requires IsHmac(algorithm)
    ensures VerifyWith(p, pem, algorithm, payload, signature) ==
      if p.text(pem) == None then Failure(BackendError("utf-8"))
      else Failure(VerificationFailed("HMAC verify requires the secret key \U{2014} use the /verify endpoint instead"))
    ensures p.text(pem).Some? ==> DerivePublicKeyPem(p, pem, algorithm) == Success(
      "-----BEGIN SYMMETRIC KEY-----" + "\n" + Base64.EncodePadded(Base64.Standard, pem) + "\n" +
      "-----END SYMMETRIC KEY-----" + "\n")
  {
    Pem.SingleLineRoundTrip(SYMMETRIC_KEY, pem);
    SecretFrame();
  }

  class SoftwareHsm {
    const keyDir: string
    const fs: FileSystem
    var keys: map<string, StoredKey>

    ghost predicate Valid()
      reads this
    {
      Sane(keys)
    }

    /** A backend whose start-up load left this registry. */
    constructor (keyDir: string, fs: FileSystem, keys: map<string, StoredKey>)
      requires Sane(keys)
      ensures Valid() && this.keyDir == keyDir && this.fs == fs && this.keys == keys
    {
      this.keyDir, this.fs, this.keys := keyDir, fs, keys;
    }

    /** All or nothing for the registry: it is replaced by a complete load or not at all. */
    method ReloadKeys(env: Env, configs: seq<KeyConfig>) returns (r: HsmResult<()>)
      requires Valid() && env.keyDir == keyDir
      modifies this`keys, fs
      ensures Valid()
      ensures match Load(env, old(fs.files), configs, |configs|)
        case Loading(f, k) => r == Success(()) && keys == k && fs.files == f
        case Failed(f, message) => r == Failure(Config(message)) && keys == old(keys) && fs.files == f
      ensures (fs.files, keys) == Reloaded(old(fs.files), old(keys), env, configs)
    {
      var loaded := LoadKeys(fs, env, configs);
      if loaded.Failure? {
        return Failure(Config(loaded.error));
      }
      LoadIsSane(env, old(fs.files), configs, |configs|);
      keys := loaded.value;
      return Success(());
    }

    /** Every registered key signs, with its own bytes, which for HMAC are the secret of a
        code of the payload; whether the payload was submitted as a digest makes no
        difference. */
    method Sign(keyId: string, p: Primitives, seed: nat, algorithm: Algorithm, payload: Bytes, prehashed: bool)
      returns (r: HsmResult<Bytes>)
      requires Valid()
      ensures r == SignOutcome(keys, keyId, p, seed, algorithm, payload)
      ensures r == if keyId in keys then SignWith(p, seed, keys[keyId].pem, algorithm, payload)
        else Failure(KeyNotFound(keyId))
      ensures forall name :: r != Failure(KeyDisabled(name))
      ensures keyId in keys && r.Failure? ==> r.error.SigningFailed?
      ensures keyId in keys && (algorithm.Hs256? || algorithm.Hs384? || algorithm.Hs512?) ==>
        r == Success(p.hmac(algorithm, keys[keyId].pem, payload))
    {
      if keyId !in keys {
        return Failure(KeyNotFound(keyId));
      }
      var key := keys[keyId];
      if !key.info.enabled {
        return Failure(KeyDisabled(keyId));
      }
      var msg := if prehashed then payload else p.digest(algorithm, payload);
      match algorithm {
        case Rs256 | Rs384 | Rs512 | Ps256 | Ps384 | Ps512 =>
          r := SignRsa(p, seed, key.pem, algorithm, msg, prehashed, payload);
        case Es256 | Es384 =>
          r := SignEcdsa(p, seed, key.pem, algorithm, payload, prehashed);
        case Hs256 | Hs384 | Hs512 =>
          r := Success(p.hmac(algorithm, key.pem, payload));
      }
    }

    /** Verification looks at the same digest, flag or not, and takes no HMAC signature. */
    method Verify(
      keyId: string, p: Primitives, algorithm: Algorithm, payload: Bytes, signature: Bytes, prehashed: bool)
      returns (r: HsmResult<bool>)
      ensures r == VerifyOutcome(keys, keyId, p, algorithm, payload, signature)
      ensures IsHmac(algorithm) ==> r.Failure?
      ensures keyId !in keys <==> r == Failure(KeyNotFound(keyId))
      ensures keyId in keys && r.Failure? ==>
        var text := p.text(keys[keyId].pem);
        var unreadable := text == None || (!IsHmac(algorithm) && p.derivePublic(algorithm, text.value).Failure?);
        if unreadable then r.error.BackendError? else r.error.VerificationFailed?
    {
      if keyId !in keys {
        return Failure(KeyNotFound(keyId));
      }
      var public := DerivePublicKeyPem(p, keys[keyId].pem, algorithm);
      if public.Failure? {
        return Failure(public.error);
      }
      r := VerifyWithPublicKey(p, public.value, algorithm, payload, signature, prehashed);
    }
  }
}
