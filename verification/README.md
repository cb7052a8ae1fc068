# Signing gateway: a verified model

The signing gateway keeps private keys in an HSM (or, for development, in files) and
signs for callers that authenticate over HTTP or gRPC. This project models, in
Dafny 4.11, the parts of it that carry state, concurrency or delicate decoding, and
proves what they promise for all inputs, all runs and all interleavings.
`dafny verify dfyconfig.toml` checks everything.

- `GatewayTypes.dfy`: results, errors, algorithms, key configuration.
- `Retry.dfy`, `Cluster.dfy`, `SessionPool.dfy`, `PreHash.dfy`: the PKCS#11 cluster
  backend. `Retry` says what one `with_session` call comes to; `Cluster.Backend` is the
  backend as a class, with its registry loop, its session pool and the retry loop as
  methods; `SessionPool` is any number of concurrent calls as a state machine over the
  pool's permits and sessions, in which creation and the operation may answer anything,
  callers may go away while suspended, and the scheduler is free; `PreHash` relates
  signing and verifying across calls, on both backends.
- `Watcher.dfy`, `Inflight.dfy`: the hot reload of auth.toml as a state machine (writes
  and their events, a channel of capacity four, the watcher task, keys in files or fixed
  on a token), and sign requests that read the auth lock several times, list the keys and
  sign while it runs.
- `TornGrants.dfy`, `SigningVersions.dfy`: what requests can be granted, and with keys of
  which version they can sign, when any number of reloads fall between their reads.
- `ReloadTask.dfy`: one round of that task as the loop it is, over its channel, the
  software key backend and the policy, tied to the runs of the state machine.
- `Endpoints.dfy`: the sign and verify handlers as texts in and texts out.
- `Cidr.dfy`, `ClientIp.dfy`, `Gates.dfy`: address ranges, client address resolution and
  the authorization gates of both protocols.
- `Hex.dfy`, `Base64.dfy`, `Payload.dfy`, `Pem.dfy`: base16, base64 and base64url
  (sections 8, 4 and 5 of RFC 4648, with the strictness of section 3.5), the payload
  decoder built from them, and PEM framing (sections 2 and 3 of RFC 7468).
- `Registry.dfy`, `SoftwareHsm.dfy`, `LoaderLaws.dfy`: key registries, default
  algorithms, and the software backend's loader over a file system.

What the outside world does is a parameter everywhere: functions from the attempt
number, the configuration index or the text to any answer at all. Properties hold for
every such function.

Where the code differs from what its documentation or comments say, the model follows
the code:

- The retry comment and the README speak of retrying transient cluster errors. A
  session that cannot be created is reported as a cluster error and is not retried
  (`Retry.NoSessionNotRetried`).
- A comment expects recycling to replace dead sessions. Recycling always succeeds, so
  no session is ever replaced and at most `pool_size` of them ever enter the pool
  (`SessionPool.PoolConserved`).
- The pool size is documented as the number of sessions. Creation runs on a thread of
  its own and outlives a call that is cancelled while waiting for it, so the token can
  be asked for one session more for each such call, and no more than that
  (`SessionPool.TokenLoadIff`, `SessionPool.TwoCreationsForOne`).
- The payload decoder is documented to accept base64 and base64url. Text that happens
  to be hexadecimal of even length is read as hexadecimal (`Payload.InvertsPaddedIff`,
  `Payload.InvertsUrlSafeIff`, `Payload.MisreadBase64`).
- The loader says that a key file was not found whenever a read fails. An existing file
  that cannot be read may be overwritten by a generated key
  (`LoaderLaws.ExistingFilesSafeIff`).
- Keys and policy are meant to be reloaded together. A failed key reload still puts the
  new policy in force, and on the cluster backend every reload does, succeeding without
  touching the keys, so the two can come from different versions
  (`Watcher.KeysFollowPolicyIff`, `Watcher.FixedKeysFollowPolicyIff`,
  `Watcher.ReloadDrifts`).
- Reloads between the reads of one request can grant what no policy in force meanwhile
  grants, on either path, and three policies can do what no two of them do
  (`TornGrants.HttpTornGrantIff`, `TornGrants.GrpcTornGrantIff`,
  `TornGrants.TornGrantExample`, `TornGrants.TornByTwoReloadsExample`).
- A request judged by one version of the policy can sign with keys of a later version,
  and, after failed reloads or on the cluster backend, with keys of an earlier one
  (`SigningVersions.SignedVersionsIff`).
- A key reload between resolving a default algorithm and signing makes the new key sign
  under the old default (`LoaderLaws.StaleDefaultIff`).
- The gRPC path skips the address gate when the peer is unknown
  (`Gates.UnknownPeerSkipsIpGate`).
- The proxy table does not say what happens to a forwarded entry that is no address:
  the peer is used (`ClientIp.ResolvesTable`).
- `prehashed` has no effect in the software backend, nor on the cluster backend's
  mechanisms other than ECDSA: a digest submitted as such is hashed once more
  (`SoftwareHsm.SoftwareHsm.Sign`, `PreHash.SoftwareFormsAgreeIff`,
  `PreHash.BackendsAgreeIff`, `PreHash.FormsAgreeIff`).
- A comment announces that HMAC verification signs again and compares. The software
  backend refuses every HMAC signature (`SoftwareHsm.HmacNeverVerifies`).

## Model

| member | source | states |
|---|---|---|
| Retry.RoundConcludes | src/hsm/cluster.rs:322-331 | After any round the call is over or going on, never both: over unless the round met a cluster error of the operation with retries left; only such an error uses up a retry, and running out of retries is exactly ending on one |
| Retry.LogUnique | src/hsm/cluster.rs:309-336 | For every sequence of attempt outcomes there is exactly one way for a call to end: after transient attempts only, at the first decisive attempt or at attempt number retries + 1 |
| Retry.NeverInitialError | src/hsm/cluster.rs:309-335 | The loop with its remembered error answers what the last attempt came to, whatever that error starts as; pool exhausted is answered exactly when the last operation itself answered it |
| Retry.NoSessionNotRetried | src/hsm/cluster.rs:318-320 | Failing to get a session ends the call at that attempt with a cluster error, however many retries are left |
| Cluster.Backend.constructor | src/hsm/cluster.rs:233-250 | The registry holds exactly the ids of enabled configurations, each with the description and label of the last enabled one with that id |
| Cluster.RegistryDescribes | src/hsm/cluster.rs:236-249 | A registered key has the description and algorithm of the last enabled configuration with its id, and its reference as token label |
| Cluster.Backend.Get | src/hsm/cluster.rs:318-320 | Checks out the longest-idle session, creates one only when none is idle, and changes nothing when creation fails |
| Cluster.Backend.Put | src/hsm/cluster.rs:57-61 | A returned session goes to the end of the idle queue and every session is idle again |
| Cluster.Backend.Round | src/hsm/cluster.rs:318-328 | An attempt ends with every session back in the pool, creating at most one and only when none was idle |
| Cluster.Backend.WithSession | src/hsm/cluster.rs:305-336 | A session that cannot be created ends the call with that cluster error; otherwise the answer is that of the first operation not ending in a cluster error, or of the last allowed one, and the exhaustion counter moves exactly when that is a cluster error too; every session is returned |
| Cluster.Backend.Sign | src/hsm/cluster.rs:346-400 | Unknown keys are reported; otherwise the token is asked, under the key's label, for the ECDSA of the payload's digest or of the payload submitted as one, or for the hashing mechanism of the payload itself; failed object searches are retried, any other reply of the token is the answer |
| Cluster.Backend.Verify | src/hsm/cluster.rs:402-440 | Likewise for verification, where an invalid signature is an answer and not an error |
| SessionPool.StepKeepsInv | src/hsm/cluster.rs:305-336 | Every step of any number of concurrent calls keeps permits, sessions, counters and each call's progress in balance |
| SessionPool.CapacityKept | src/hsm/cluster.rs:277-280 | Sessions in the pool plus sessions being created for calls still waiting for them never exceed the pool size, although creation is not atomic |
| SessionPool.EachSessionInOnePlace | src/hsm/cluster.rs:277-329 | In every reachable state each session is idle once or held by exactly one call, and no session is in two places |
| SessionPool.PoolConserved | src/hsm/cluster.rs:111-119 | In every reachable state idle plus held sessions are all that ever entered the pool, at most the pool size, and free permits plus permits in use are the pool size |
| SessionPool.TokenLoadIff | src/hsm/cluster.rs:98-109 | Counting creations that outlive their cancelled call, b sessions are enough for every run with at most m such creations exactly when b is at least the pool size plus m |
| SessionPool.TwoCreationsForOne | src/hsm/cluster.rs:98-109 | A run in which a pool of one has two sessions being opened at once |
| SessionPool.AllFinishedAllIdle | src/hsm/cluster.rs:305-336 | Once every call is done or cancelled, every session is idle and every permit free |
| SessionPool.EachCallFollowsLoop | src/hsm/cluster.rs:305-336 | Under every schedule each finished call gave the sequential loop's answer for the attempts it met, after at most retries + 1 of them, all but the last transient; the counter equals the number of calls that ran out |
| SessionPool.CallAnswersOwnOutcome | src/hsm/cluster.rs:311-335 | Under every schedule the attempts of a call are those its own steps report; a finished call was told what the last of them came to, all earlier ones ended in cluster errors, and the last one did not unless it was the last allowed |
| SessionPool.ExhaustedCounts | src/hsm/cluster.rs:333-334 | The counter is the number of calls all of whose retries + 1 attempts ended in cluster errors |
| SessionPool.FirstInFirstOut | src/hsm/cluster.rs:277-280 | Sessions are taken from the pool in the order they were returned to it |
| SessionPool.EveryConclusionHappens | src/hsm/cluster.rs:311-331 | Whatever sequence of outcomes the retry rule lets a call end with, some run has a call that meets just these |
| SessionPool.NoDeadlock | src/hsm/cluster.rs:311-331 | With a pool of at least one, every reachable state with an unfinished call has a step that moves a call on |
| SessionPool.EmptyPoolBlocks | src/hsm/cluster.rs:277-280 | With a pool of size zero no call is ever served, so the bound in NoDeadlock is needed |
| SessionPool.StepDoesWork | src/hsm/cluster.rs:311-331 | Remaining attempts, then phase, summed over calls, plus the creations nobody waits for, fall at every step but an arrival, which adds a fixed amount |
| SessionPool.RunsEnd | src/hsm/cluster.rs:311-331 | Every run has at most 5 * retries + 9 steps for each call that arrived |
| PreHash.SameDataVerifies | src/hsm/cluster.rs:382-440 | A signature verifies in every later call that names the same data, key and mechanism to the token, through any retries of either call |
| PreHash.FormsAgreeIff | src/hsm/cluster.rs:364-382 | Payload and digest forms name the same data exactly for ECDSA or when hashing changes nothing |
| PreHash.EcdsaCoherent | src/hsm/cluster.rs:346-440 | ES256 and ES384 signatures made from a payload or its digest verify against either form with the matching flag, whatever transient errors occurred, if both calls come to an answer |
| PreHash.BackendCallsCoherent | src/hsm/cluster.rs:346-440 | A call of the backend's sign followed by one of its verify, as the two answer, gives a valid signature for either form of either call |
| PreHash.SoftwareVerifiesIff | src/hsm/software.rs:107-140 | A software ECDSA signature verifies exactly for the payloads with the digest of the one that was signed |
| PreHash.SoftwareRsaVerifiesIff | src/hsm/software.rs:169-204 | So does a software RSA signature |
| PreHash.SoftwareFormsAgreeIff | src/hsm/software.rs:107-140 | On the software backend an ECDSA signature made from one form of a message verifies against a form exactly when the forms are the same or the digest is its own digest, and otherwise is called invalid |
| PreHash.BackendsAgreeIff | src/hsm/software.rs:207-236 | A software ECDSA signature verifies on the cluster, against either form and through any retries, exactly when it was made from the message itself or the digest is its own digest |
| PreHash.ClusterUnreachableErrors | src/hsm/cluster.rs:236-249 | The cluster backend never answers that a key is disabled nor, in signing, that the pool is exhausted; each entry is enabled and sits under its own id |
| Endpoints.PostedBackReachesBackend | src/http/handlers.rs:314-390 | The signature text of a sign response, posted to verify, stands for the very bytes the backend signed with, never rejected nor misread |
| Endpoints.SignShows | src/http/handlers.rs:255-343 | A sign response shows the backend's signature in lower-case hexadecimal or its error; only a payload no decoder takes is invalid |
| Endpoints.VerifyShows | src/http/handlers.rs:347-401 | A verify response shows what the backend says of the two decoded texts, or which one no decoder takes |
| Endpoints.ClusterPostedBackIsValid | src/http/handlers.rs:314-396 | On the cluster it is answered valid for every algorithm, with a payload text and flag that name the same data, through any retries, whenever both calls come to an answer |
| Endpoints.NamesSameData | src/http/handlers.rs:314-396 | The same text and flag name the same data, and for ES256 and ES384 so do texts of a message and of its digest |
| Endpoints.SoftwarePostedBackIsValidIff | src/http/handlers.rs:314-396 | On the software backend a posted-back ECDSA signature is answered valid exactly with payload texts that decode to bytes of the same digest, if the call comes to an answer |
| Watcher.StepKeepsInv | src/main.rs:149-183 | Every step keeps: an unread newer version has a reader on its way, the active policy is that of the latest applied version that parses, the channel holds at most four events |
| Watcher.NoLostReload | src/main.rs:149-183 | In every interleaving a version newer than the last one read implies an event to send, one queued, or a task before its read; at rest the latest version was read and its policy is active if it parses, else that of the last version read that parses |
| Watcher.FileIsWritten | src/main.rs:149-165 | Version n of the file is what the n-th write wrote; the channel holds at most four events and only a full one blocks a sender |
| Watcher.SkippedVersion | src/main.rs:167-172 | A run in which a version is written and never read, because a later one is on disk by then |
| Watcher.KeysFollowPolicyIff | src/main.rs:172-181 | In every reachable state, on either backend, keys and policy come from one version of the file exactly when a reload has put the keys of the version in force in service, start-up counting for version 0, and none has those of a newer one still being applied; at rest the first half alone decides |
| Watcher.FixedKeysFollowPolicyIff | src/hsm/cluster.rs:476-480 | On the cluster backend the keys stay those of start-up, and come from the version in force exactly while no later version that parses has been applied |
| Watcher.KeysFollowPolicy | src/main.rs:172-181 | In particular, on the software backend, they agree at rest when the latest key reload succeeded |
| Watcher.ReloadDrifts | src/main.rs:174-177 | A run exists that ends at rest with the new policy over the old keys: on the software backend with a failed key reload, on the cluster backend with none |
| Watcher.StuckIsQuiescent | src/main.rs:167-170 | A state allows nothing but further writes exactly when no event is on its way and the task is receiving |
| Watcher.Converges | src/main.rs:167-183 | After the last write every run is bounded by the work left, and one that cannot go on has the file on disk in force, if it parses |
| ReloadTask.Task.HandleEvents | src/main.rs:167-182 | With the software backend, the loop as written makes the round's one change: the channel is emptied, a readable file's policy is put in force, and the keys follow only if they load |
| Watcher.RoundIsARun | src/main.rs:167-182 | An uninterrupted round is a run of the state machine for any number of queued events: it empties the channel, puts the policy of a readable file in force, and its keys in service if they loaded and are kept in files |
| ReloadTask.HandleRefinesRound | src/main.rs:167-182 | If a task's channel, policy and keys are those of a machine state, they are after the round those of the state the machine's round reaches, whether or not the keys load |
| Inflight.StepKeepsInv | src/http/handlers.rs:213-253 | Every step of reloads and requests keeps each request's stage equal to the replay of the policies it read, in the order they were in force |
| Inflight.ArrivalIsRecorded | src/http/handlers.rs:207-214 | A request keeps what it arrived with and the policy then in force as its start, whatever comes after |
| Inflight.GrantedPassedEveryGate | src/http/handlers.rs:213-253 | A granted request passed each gate under the policy in force at that gate's own read, on either path |
| Inflight.TighteningStartGrants | src/grpc/service.rs:83-146 | If reloads since a request's arrival only tighten gates and leave the address it is taken to come from, as they do with unchanged trusted proxies or over gRPC without a known peer, the policy at its arrival grants what was granted |
| Inflight.LooseningEndGrants | src/grpc/service.rs:83-146 | If they only loosen gates and leave that address, the policy now in force grants it |
| Inflight.UndisturbedIsSnapshot | src/grpc/service.rs:83-146 | Without a reload between its reads a request gets the verdict, reason included, of the one policy it saw |
| TornGrants.GrantsDuringIff | src/main.rs:174-177 | For every sequence of policies in force from a request's arrival on, what runs can grant is what some path of reads grants that never goes back in it |
| TornGrants.HttpGrantsIff | src/http/handlers.rs:213-243 | Whatever reloads come meanwhile, a request can be granted over HTTP exactly when some policies, none older than the one before, accept the caller, resolve the address, accept it and accept the key |
| TornGrants.HttpTornGrantIff | src/http/handlers.rs:213-243 | Runs can grant over HTTP what none of the policies in force meanwhile grants exactly when some four pass the gates in that order and none passes all by itself |
| TornGrants.HttpTornByOneReloadIff | src/http/handlers.rs:213-243 | With one reload: the old policy accepts the caller, the new one the key, the address passes under one of them or as the old one resolves it and the new one judges it, and neither policy accepts all three |
| TornGrants.GrpcGrantsIff | src/grpc/service.rs:83-146 | Over gRPC, known peer or not: exactly when one of the policies admits everyone, or some, none older than the one before, name the token's caller, resolve the address, accept it and accept the key for that caller |
| TornGrants.GrpcTornGrantIff | src/grpc/service.rs:83-146 | Runs can grant over gRPC what none of the policies in force meanwhile grants exactly when none admits everyone, some four pass in that order and none passes all by itself |
| TornGrants.GrpcTornByOneReloadIff | src/grpc/service.rs:83-146 | With one reload: the new policy lets the caller the old one gave the token use the key, the address passes under one of the policies or across them, and neither policy grants by itself |
| TornGrants.TornGrantExample | src/http/handlers.rs:214-243 | On either path a run whose request is granted although the policy at its arrival refuses the key and the one now in force the token |
| TornGrants.TornByTwoReloadsExample | src/http/handlers.rs:213-243 | Three policies whose reloads let a request be granted that no two of them let be granted |
| SigningVersions.SignedInOrder | src/http/handlers.rs:271-314 | Whatever the gates read: the keys signed with are those listed or at least as new as every policy read; on the software backend without a failed key reload those listed already are; on the cluster backend both are those of start-up |
| SigningVersions.SignedVersionsIff | src/main.rs:174-177 | Exactly which versions of the policy read, the keys listed and the keys signed with can go together in a granted request, on each backend, with and without failed key reloads |
| Gates.CheckIpAllowedLoop | src/http/handlers.rs:142-162 | The early-return loop decides whether the caller has no list or some entry of it matches |
| Gates.FinishIsVerdict | src/http/handlers.rs:213-253 | The sequence of lock reads of each path, all seeing one policy, ends in that path's decision |
| Gates.GrantedIffPermitted | src/http/handlers.rs:115-162 | Each path grants exactly what the documented policy permits, HTTP to the named caller and gRPC to the token's |
| Gates.RefusedIff | src/http/handlers.rs:213-253 | A refusal names the first failing gate in the order caller, address, key, with the resolved address, caller and key it was decided on |
| Gates.ForwardedStandsForPeer | src/main.rs:69-75 | Behind a trusted proxy a request whose first forwarded entry is an address gets, on either path, the verdict and reason of the same request sent from there directly |
| Gates.OtherHeadersIgnored | src/main.rs:58-81 | A header from an untrusted peer, or whose first entry is no address, changes no verdict |
| Gates.DirectVerdicts | src/http/handlers.rs:213-253 | The verdicts on a request without a header, reasons included, written out over the policy's own maps |
| Gates.VerdictsAgreeIff | src/grpc/service.rs:99-146 | The two paths give the same verdict and reason exactly when everyone is admitted, the token is unknown, or the named caller is the token's |
| Gates.UnknownPeerSkipsIpGate | src/grpc/service.rs:110-132 | Without a known peer the gRPC path decides as if there were no address lists |
| Gates.GrantedUnderMorePermissive | src/http/handlers.rs:213-253 | What a mix of policies grants is granted by every policy at least as permissive as each of them |
| Cidr.ContainsIffSamePrefix | src/http/handlers.rs:151-152 | Lying between network and broadcast address is agreeing on the leading prefix bits, for all IPv4 and IPv6 ranges and addresses, never across families |
| Cidr.FullLengthIsExact | src/http/handlers.rs:155-157 | An exact entry is the full-length prefix of its address |
| Cidr.MatchesAnyIff | src/grpc/service.rs:114-123 | A list matches exactly when some well-formed entry shares its prefix with the address |
| Cidr.OrderAndNoiseIrrelevant | src/main.rs:58-66 | Lists with the same well-formed entries match the same addresses, whatever their order, repetitions and malformed entries |
| ClientIp.ResolvesTable | src/main.rs:51-81 | For every header: from a trusted peer the trimmed text before the first comma decides if it parses, otherwise the peer does |
| ClientIp.TrimIs | src/main.rs:71-73 | Trimming takes away surrounding whitespace and nothing else |
| ClientIp.WhitespaceIs | src/main.rs:71-73 | The characters trimmed are the twenty-five with the White_Space property of Unicode |
| ClientIp.ChainIrrelevant | src/main.rs:69-75 | Padding the first entry with whitespace or replacing what follows its comma never changes the resolved address |
| Hex.EncodeDigits | src/http/handlers.rs:316 | Byte i is written as its high and low digit at positions 2i and 2i + 1 |
| Hex.RoundTrip | src/http/handlers.rs:176-178 | Decoding inverts encoding in both letter cases |
| Hex.DecodeDomain | src/http/handlers.rs:176-178 | Decoding succeeds exactly on hexadecimal text of even length and halves it |
| Hex.DecodeSound | src/http/handlers.rs:176-178 | Up to letter case the text is the encoding of what was decoded |
| Base64.GroupIsPositional | src/http/handlers.rs:180-182 | The six-bit groups are the number the bytes are in base 256, read in base 64 |
| Base64.DigitIsTabled | src/http/handlers.rs:174 | The digits are those of tables 1 and 2 of RFC 4648 |
| Base64.PaddedShape | src/http/handlers.rs:181 | Padded text has a multiple of four characters, all from the table but for the equals signs that fill the last group |
| Base64.RoundTrip | src/http/handlers.rs:182 | Unpadded decoding inverts unpadded encoding in either alphabet |
| Base64.DecodeCanonical | src/http/handlers.rs:182 | Unpadded decoding accepts no text but the encoding of its result: no padding, zero trailing bits |
| Base64.PaddedRoundTrip | src/http/handlers.rs:181 | Padded decoding inverts padded encoding |
| Base64.PaddedDecodeCanonical | src/http/handlers.rs:181 | Padded decoding accepts no text but the canonically padded encoding of its result |
| Base64.DecodersAgree | src/http/handlers.rs:180-182 | Text accepted by the padded standard and the unpadded URL-safe decoder means the same to both |
| Payload.InvertsHex | src/http/handlers.rs:176-178 | Hexadecimal in either case, the signature of a response included, is read back exactly |
| Payload.HexShadowsBase64 | src/http/handlers.rs:176-183 | Nonempty text read as hexadecimal never means what either base64 would make of it |
| Payload.InvertsPaddedIff | src/http/handlers.rs:173-184 | Padded base64 is read back exactly when its text is empty or shows a non-hexadecimal character |
| Payload.InvertsUrlSafeIff | src/http/handlers.rs:173-184 | Unpadded base64url is read back exactly when its text is empty, of odd length, or shows a non-hexadecimal character |
| Payload.MisreadBase64 | src/http/handlers.rs:176-178 | The base64 text of three zero bytes is read as two other bytes |
| Payload.Sound | src/http/handlers.rs:173-184 | Every accepted text is one of the three encodings of the bytes it is taken for |
| Payload.RejectsIff | src/http/handlers.rs:173-184 | A text is rejected exactly when all three decoders reject it |
| Payload.FallbackOrderHarmless | src/http/handlers.rs:180-183 | Swapping the two base64 decoders changes no result |
| Pem.BodyOfFramed | src/hsm/software.rs:354-358 | However base64 text is cut into lines, filtering boundary lines and joining gives it back, under either line ending and with or without a final one |
| Pem.WrappedRoundTrip | src/hsm/software.rs:352-374 | Both decoders recover every byte string from text wrapped at any width under any label without a line feed |
| Pem.PrinterRoundTrip | src/hsm/cluster.rs:204-208 | Both decoders invert the single-line printer for all DER, the empty one included |
| Pem.PrinterIsFramed | src/hsm/cluster.rs:204-208 | The printed text, line by line |
| Pem.FirstLine | src/hsm/software.rs:354-356 | A text is cut at its first line feed, where one carriage return goes too |
| Pem.OneLine | src/hsm/software.rs:354-356 | Text without a line feed is one line as it stands, a final carriage return included |
| Pem.DecodesIff | src/hsm/software.rs:352-374 | A text decodes to der exactly when its body is the canonical base64 of der |
| Registry.FindKeyIs | src/grpc/service.rs:155-157 | A search finds an entry with the id, or none has it |
| Registry.DefaultAlgorithmOrderFree | src/http/handlers.rs:302-307 | From listings in any order both protocols resolve a named key to its entry's algorithm, and report it missing exactly when the registry lacks it |
| SoftwareHsm.LoadKeys | src/hsm/software.rs:34-82 | The loop leaves files and registry where the loading rule does, failures included |
| SoftwareHsm.SoftwareHsm.ReloadKeys | src/hsm/software.rs:159-166 | A complete load replaces the registry; a failed one leaves it as it was and reports a configuration error; either way every entry stays enabled and under its own id |
| SoftwareHsm.SoftwareHsm.Sign | src/hsm/software.rs:93-127 | Over a registry of enabled keys every registered key answers with the primitive's result on its own stored bytes and the digest of the payload, for HMAC with the code of the payload under those bytes, whatever the prehashed flag; only an absent key is reported, and never a disabled one |
| SoftwareHsm.SoftwareHsm.Verify | src/hsm/software.rs:129-141 | Verification looks at the digest of the payload whatever the flag, and never succeeds for HMAC |
| SoftwareHsm.HmacNeverVerifies | src/hsm/software.rs:328-333 | Any HMAC verification with a readable key ends in the same refusal, after the framed secret is decoded without error |
| LoaderLaws.LoadCorrect | src/hsm/software.rs:34-82 | After a successful load the ids are those of enabled configurations, each entry is from the last of them with its id and carries the bytes of its file, and exactly the missing files are new, with generated bytes |
| LoaderLaws.LoadMakesNamedFile | src/hsm/software.rs:43-58 | With files named outright, whatever slashes end the key directory: readable files keep their bytes, and missing ones are created for an enabled configuration that names them |
| LoaderLaws.LoadReadsNamedFile | src/hsm/software.rs:43-75 | Each id is described by its last enabled configuration and carries the bytes of the file named after that one's reference |
| LoaderLaws.LoadCreatesNamedFiles | src/hsm/software.rs:43-58 | Every file created is named after an enabled configuration |
| LoaderLaws.LoadFailsIff | src/hsm/software.rs:45-58 | A load fails exactly when some enabled configuration's file is unreadable, or missing and not made for an earlier one, and making it fails; with the message of the first such failure |
| LoaderLaws.LoadKeepsFiles | src/hsm/software.rs:45-58 | Any load, failed ones included, loses no file and changes none but unreadable key files |
| LoaderLaws.LoadIdempotent | src/hsm/software.rs:34-82 | Loading the same readable configuration again changes no file and gives the same registry, whatever generation would do |
| LoaderLaws.ExistingFilesSafeIff | src/hsm/software.rs:45-58 | Existing files are safe under every outcome of generation exactly when no enabled configuration names an existing file that cannot be read |
| LoaderLaws.PathInjective | src/hsm/software.rs:43 | Different key references never share a path |
| LoaderLaws.NeverDisabled | src/hsm/software.rs:38-41 | After any start-up and any sequence of reloads and requests every entry is enabled and under its own id, so every registered key signs with its own bytes, and an absent one is reported as absent |
| LoaderLaws.DefaultAlgorithmInEveryLife | src/hsm/software.rs:155-157 | At any moment of a backend's life both protocols resolve the default algorithm of a named key alike, whatever order the registry is listed in |
| LoaderLaws.StaleDefaultIff | src/http/handlers.rs:271-314 | With any calls between resolving a default algorithm and signing, the current bytes sign under the resolved algorithm; it is not the entry's own exactly when the last registry replacement in between gives the key another, and the key is gone exactly when that one does not enable it |

## Left out

- Cryptography: key formats, signing primitives and digests are parameters; what verification accepts is an assumption, made on the token for whatever it signed and in the software backend for ECDSA only, where RSA and HMAC signatures are followed no further than the primitives' answers.
- PKCS#11 calls, library loading and object search: only their outcomes, a result, a cluster error or another error.
- The session pool's fairness: any waiting call may get a free permit, so waiting times are not bounded.
- The pool library itself is modelled by its documented contract: permits, an idle queue, creation on demand; its timeouts are unset in the source.
- Wall-clock time: retry delays and the debounce are states the scheduler may leave at any step.
- File system details: one write of auth.toml is one version and is read whole; a rename that ends the watch is not modelled; paths are texts, so links and dot segments do not alias.
- Textual parsing of addresses, ranges and TOML: parsers are parameters.
- Requests with an empty key id, as far as key choice goes: over HTTP it takes the first key of an arbitrary map order.
- The explicit algorithm names, the enum tables between protocols, the key type labels, error-to-status mapping and response bodies: finite tables.
- Error messages: only those of the retry loop and of a failed load are stated; the texts of library errors are shortened.
- Configuration layering, start-up, TLS, shutdown, routing, logging and metrics other than the exhaustion counter.
- SessionPool: the state machine is on values, because concurrent calls interleave inside a method; the sequential class is in `Cluster`.
- Watcher, Inflight: likewise on values; the round that runs without interruption is the class in `ReloadTask`, there with the software backend.
