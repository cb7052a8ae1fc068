/** The values shared by every part of the gateway: results and errors
    (src/hsm/mod.rs), algorithms and key configuration (src/config.rs). */
module GatewayTypes {
  datatype Option<+T> = None | Some(value: T)

  datatype Result<+T, +E> = Success(value: T) | Failure(error: E)

  type Byte = x: int | 0 <= x < 256

  type Bytes = seq<Byte>

  datatype Algorithm =
    | Rs256 | Rs384 | Rs512
    | Ps256 | Ps384 | Ps512
    | Es256 | Es384
    | Hs256 | Hs384 | Hs512

  datatype HsmError =
    | KeyNotFound(name: string)
    | KeyDisabled(name: string)
    | AlgorithmNotSupported(name: string, algorithm: Algorithm)
    | SigningFailed(message: string)
    | VerificationFailed(message: string)
    | ClusterError(message: string)
    | PoolExhausted
    | Io(message: string)
    | Config(message: string)
    | BackendError(message: string)

  type HsmResult<+T> = Result<T, HsmError>

  datatype KeyConfig = KeyConfig(
    id: string,
    description: string,
    backendRef: string,
    algorithm: Algorithm,
    enabled: bool)

  datatype KeyInfo = KeyInfo(
    id: string,
    description: string,
    algorithm: Algorithm,
    enabled: bool,
    keyType: string)

  /** A session of a pool; sessions are numbered in the order of their creation. */
  type Session = nat
}
