/** What a key registry says about the configuration it was built from, and how a
    request finds a key's default algorithm in a listing whose order is arbitrary. */
module Registry {
  import opened GatewayTypes

  /** Among the first n configurations, i is the last enabled one with this id. */
  ghost predicate LastEnabled(configs: seq<KeyConfig>, n: nat, id: string, i: nat)
    requires n <= |configs|
  {
    && i < n && configs[i].enabled && configs[i].id == id
    && forall j :: i < j < n ==> !(configs[j].enabled && configs[j].id == id)
  }

  ghost predicate EnabledId(configs: seq<KeyConfig>, n: nat, id: string)
    requires n <= |configs|
  {
    exists i :: 0 <= i < n && configs[i].enabled && configs[i].id == id
  }

  function Describe(config: KeyConfig, keyType: string): KeyInfo {
    KeyInfo(config.id, config.description, config.algorithm, config.enabled, keyType)
  }

  // ----- listings and default algorithms -----

  /** Every entry sits under its own id. */
  ghost predicate KeyedById(infos: map<string, KeyInfo>) {
    forall id :: id in infos ==> infos[id].id == id
  }

  /** The listing shows the entries of the registry in this order of their ids, each once. */
  ghost predicate ListsInOrder(listing: seq<KeyInfo>, infos: map<string, KeyInfo>, order: seq<string>) {
    && |order| == |listing|
    && (forall id :: id in order <==> id in infos)
    && (forall i, j :: 0 <= i < j < |order| ==> order[i] != order[j])
    && forall i :: 0 <= i < |order| ==> order[i] in infos && listing[i] == infos[order[i]]
  }

  /** A listing in whatever order the map was iterated. */
  ghost predicate Lists(listing: seq<KeyInfo>, infos: map<string, KeyInfo>) {
    exists order :: ListsInOrder(listing, infos, order)
  }

  /** The first listed entry with this id. */
  function FindKey(listing: seq<KeyInfo>, id: string): Option<KeyInfo> {
    if listing == [] then None
    else if listing[0].id == id then Some(listing[0])
    else FindKey(listing[1..], id)
  }

  lemma {:induction false} FindKeyIs(listing: seq<KeyInfo>, id: string)
    ensures FindKey(listing, id) == None ==> forall i :: 0 <= i < |listing| ==> listing[i].id != id
    ensures FindKey(listing, id).Some? ==> FindKey(listing, id).value in listing && FindKey(listing, id).value.id == id
  {
    if listing != [] && listing[0].id != id {
      FindKeyIs(listing[1..], id);
      forall i | 0 <= i < |listing| && FindKey(listing, id) == None ensures listing[i].id != id {
        if i > 0 { assert listing[1..][i - 1] == listing[i]; }
      }
    }
  }

  /** HTTP request without an algorithm, for a named key. */
  function HttpDefaultAlgorithm(listing: seq<KeyInfo>, keyId: string): HsmResult<Algorithm> {
    match FindKey(listing, keyId)
    case Some(info) => Success(info.algorithm)
    case None => Failure(KeyNotFound(keyId))
  }

  /** gRPC request with algorithm 0, for a named key; a missing key is reported alike. */
  function GrpcDefaultAlgorithm(listing: seq<KeyInfo>, keyId: string): HsmResult<Algorithm> {
    var found := FindKey(listing, keyId);
    if found.Some? then Success(found.value.algorithm) else Failure(KeyNotFound(keyId))
  }

  lemma FindInListing(infos: map<string, KeyInfo>, listing: seq<KeyInfo>, keyId: string)
    requires KeyedById(infos) && Lists(listing, infos)
    ensures FindKey(listing, keyId) == if keyId in infos then Some(infos[keyId]) else None
  {
    FindKeyIs(listing, keyId);
    var order :| ListsInOrder(listing, infos, order);
    if keyId in infos {
      var i :| 0 <= i < |order| && order[i] == keyId;
      assert listing[i] == infos[keyId] && listing[i].id == keyId;
    }
    var found := FindKey(listing, keyId);
    if found.Some? {
      var i :| 0 <= i < |listing| && listing[i] == found.value;
      assert infos[order[i]].id == order[i];
    }
  }

  /** Whatever order the two listings of one registry come in, both protocols resolve a
      named key to the algorithm of its registry entry, and report it missing exactly
      when the registry lacks it. */
  lemma DefaultAlgorithmOrderFree(
    infos: map<string, KeyInfo>, httpListing: seq<KeyInfo>, grpcListing: seq<KeyInfo>, keyId: string)
    requires KeyedById(infos) && Lists(httpListing, infos) && Lists(grpcListing, infos)
    ensures HttpDefaultAlgorithm(httpListing, keyId) ==
      if keyId in infos then Success(infos[keyId].algorithm) else Failure(KeyNotFound(keyId))
    ensures GrpcDefaultAlgorithm(grpcListing, keyId) == HttpDefaultAlgorithm(httpListing, keyId)
  {
    FindInListing(infos, httpListing, keyId);
    FindInListing(infos, grpcListing, keyId);
  }
}
