/** What loading the software backend's keys guarantees, for every configuration list:
    duplicate ids, shared key files, unreadable files and failures included. */
module LoaderLaws {
  import opened GatewayTypes
  import opened Registry
  import opened SoftwareHsm

  /** The path belongs to one of the first n configurations, and that one is enabled. */
  ghost predicate EnabledPath(keyDir: string, configs: seq<KeyConfig>, n: nat, path: string)
    requires n <= |configs|
  {
    exists i :: 0 <= i < n && configs[i].enabled && Path(keyDir, configs[i].backendRef) == path
  }

  /** Files that were there stay, and keep their bytes unless they are an unreadable key file. */
  ghost predicate FilesKept(
    env: Env, configs: seq<KeyConfig>, n: nat, before: map<string, Bytes>, after: map<string, Bytes>)
    requires n <= |configs|
  {
    forall p :: p in before ==>
      p in after && (p !in env.unreadable || !EnabledPath(env.keyDir, configs, n, p) ==> after[p] == before[p])
  }

  /** The registry entry of this id comes from configuration i: its description, and the
      bytes of its file, or those generated for it when the file cannot be read. */
  ghost predicate EntryFrom(env: Env, configs: seq<KeyConfig>, i: nat, files: map<string, Bytes>, key: StoredKey)
    requires i < |configs|
  {
    var path := Path(env.keyDir, configs[i].backendRef);
    && key.info == Describe(configs[i], KeyTypeLabel(configs[i].algorithm))
    && path in files
    && (path !in env.unreadable ==> key.pem == files[path])
    && (path in env.unreadable ==> env.generate(i) == Written(key.pem))
  }

  /** The entry of this id comes from the last enabled configuration with that id. */
  ghost predicate EntryOk(
    env: Env, configs: seq<KeyConfig>, n: nat, files: map<string, Bytes>, id: string, key: StoredKey)
    requires n <= |configs|
  {
    exists i :: LastEnabled(configs, n, id, i) && EntryFrom(env, configs, i, files, key)
  }

  ghost predicate RegistryMatches(
    env: Env, configs: seq<KeyConfig>, n: nat, files: map<string, Bytes>, keys: map<string, StoredKey>)
    requires n <= |configs|
  {
    && (forall id :: id in keys <==> EnabledId(configs, n, id))
    && (forall id :: id in keys ==> EntryOk(env, configs, n, files, id, keys[id]))
  }

  /** These are the bytes generated for an enabled configuration with this path. */
  ghost predicate GeneratedFor(env: Env, configs: seq<KeyConfig>, n: nat, path: string, pem: Bytes)
    requires n <= |configs|
  {
    exists i ::
      && 0 <= i < n && configs[i].enabled
      && Path(env.keyDir, configs[i].backendRef) == path && env.generate(i) == Written(pem)
  }

  /** Exactly the missing files of enabled configurations are new, each with the bytes
      generated for one of them. */
  ghost predicate NewFilesMatch(
    env: Env, configs: seq<KeyConfig>, n: nat, before: map<string, Bytes>, after: map<string, Bytes>)
    requires n <= |configs|
  {
    && (forall p :: p in after <==> p in before || EnabledPath(env.keyDir, configs, n, p))
    && (forall p :: p in after && p !in before ==> GeneratedFor(env, configs, n, p, after[p]))
  }

  lemma EnabledPathStep(keyDir: string, configs: seq<KeyConfig>, n: nat, path: string)
    requires n < |configs|
    ensures EnabledPath(keyDir, configs, n + 1, path) <==>
      EnabledPath(keyDir, configs, n, path) || (configs[n].enabled && Path(keyDir, configs[n].backendRef) == path)
  {
  }

  lemma EnabledIdStep(configs: seq<KeyConfig>, n: nat, id: string)
    requires n < |configs|
    ensures EnabledId(configs, n + 1, id) <==> EnabledId(configs, n, id) || (configs[n].enabled && configs[n].id == id)
  {
  }

  // ----- one round -----

  lemma RoundKeepsFiles(
    env: Env, configs: seq<KeyConfig>, n: nat,
    before: map<string, Bytes>, f: map<string, Bytes>, k: map<string, StoredKey>)
    requires n < |configs| && FilesKept(env, configs, n, before, f)
    ensures FilesKept(env, configs, n + 1, before, LoadOne(env, n, configs[n], f, k).files)
  {
    forall p ensures EnabledPath(env.keyDir, configs, n + 1, p) <==>
        EnabledPath(env.keyDir, configs, n, p) || (configs[n].enabled && Path(env.keyDir, configs[n].backendRef) == p)
    {
      EnabledPathStep(env.keyDir, configs, n, p);
    }
  }

  lemma EntrySurvives(
    env: Env, configs: seq<KeyConfig>, n: nat,
    f: map<string, Bytes>, k: map<string, StoredKey>, id: string, key: StoredKey)
    requires n < |configs| && EntryOk(env, configs, n, f, id, key)
    requires !(configs[n].enabled && configs[n].id == id)
    requires LoadOne(env, n, configs[n], f, k).Loading?
    ensures EntryOk(env, configs, n + 1, LoadOne(env, n, configs[n], f, k).files, id, key)
  {
    var i :| LastEnabled(configs, n, id, i) && EntryFrom(env, configs, i, f, key);
    assert LastEnabled(configs, n + 1, id, i);
    assert EntryFrom(env, configs, i, LoadOne(env, n, configs[n], f, k).files, key);
  }

  lemma EntryAdded(env: Env, configs: seq<KeyConfig>, n: nat, f: map<string, Bytes>, k: map<string, StoredKey>)
    requires n < |configs| && configs[n].enabled
    requires LoadOne(env, n, configs[n], f, k).Loading?
    ensures var next := LoadOne(env, n, configs[n], f, k);
      var id := configs[n].id;
      id in next.keys && EntryOk(env, configs, n + 1, next.files, id, next.keys[id])
  {
    var next, id := LoadOne(env, n, configs[n], f, k), configs[n].id;
    assert LastEnabled(configs, n + 1, id, n);
    assert EntryFrom(env, configs, n, next.files, next.keys[id]);
  }

  lemma RoundMatchesEntry(
    env: Env, configs: seq<KeyConfig>, n: nat, f: map<string, Bytes>, k: map<string, StoredKey>, id: string)
    requires n < |configs| && LoadOne(env, n, configs[n], f, k).Loading?
    requires id in k ==> EntryOk(env, configs, n, f, id, k[id])
    ensures var next := LoadOne(env, n, configs[n], f, k);
      && (id in next.keys <==> id in k || (configs[n].enabled && configs[n].id == id))
      && (id in next.keys ==> EntryOk(env, configs, n + 1, next.files, id, next.keys[id]))
  {
    if configs[n].enabled && configs[n].id == id {
      EntryAdded(env, configs, n, f, k);
    } else if id in k {
      EntrySurvives(env, configs, n, f, k, id, k[id]);
    }
  }

  lemma FileAdded(
    env: Env, configs: seq<KeyConfig>, n: nat, f: map<string, Bytes>, k: map<string, StoredKey>, p: string)
    requires n < |configs| && LoadOne(env, n, configs[n], f, k).Loading?
    ensures var next := LoadOne(env, n, configs[n], f, k).files;
      && (p in next <==> p in f || (configs[n].enabled && Path(env.keyDir, configs[n].backendRef) == p))
      && (p in next && p !in f ==> GeneratedFor(env, configs, n + 1, p, next[p]))
      && (p in f && p !in env.unreadable ==> next[p] == f[p])
      && (p in f && p in env.unreadable && next[p] != f[p] ==> GeneratedFor(env, configs, n + 1, p, next[p]))
  {
    var next := LoadOne(env, n, configs[n], f, k).files;
    if p in next && (p !in f || next[p] != f[p]) {
      assert env.generate(n) == Written(next[p]);
    }
  }

  // ----- the whole load -----

  /** A load, successful or not, only gains files, and changes no file that was there
      except a key file it could not read. */
  lemma {:induction false} LoadKeepsFiles(env: Env, configs: seq<KeyConfig>, n: nat, files: map<string, Bytes>)
    requires n <= |configs|
    ensures FilesKept(env, configs, n, files, Load(env, files, configs, n).files)
  {
    if n > 0 {
      LoadKeepsFiles(env, configs, n - 1, files);
      match Load(env, files, configs, n - 1)
      case Loading(f, k) =>
        RoundKeepsFiles(env, configs, n - 1, files, f, k);
      case Failed(f, _) =>
        forall p | EnabledPath(env.keyDir, configs, n - 1, p) ensures EnabledPath(env.keyDir, configs, n, p) {
          EnabledPathStep(env.keyDir, configs, n - 1, p);
        }
    }
  }

  lemma {:induction false} LoadMatchesFile(
    env: Env, configs: seq<KeyConfig>, n: nat, files: map<string, Bytes>, p: string)
    requires n <= |configs| && Load(env, files, configs, n).Loading?
    ensures var f := Load(env, files, configs, n).files;
      && (p in f <==> p in files || EnabledPath(env.keyDir, configs, n, p))
      && (p in f && p !in files ==> GeneratedFor(env, configs, n, p, f[p]))
  {
    if n > 0 {
      LoadMatchesFile(env, configs, n - 1, files, p);
      var done := Load(env, files, configs, n - 1);
      FileAdded(env, configs, n - 1, done.files, done.keys, p);
      EnabledPathStep(env.keyDir, configs, n - 1, p);
    }
  }

  lemma {:induction false} LoadMatchesEntry(
    env: Env, configs: seq<KeyConfig>, n: nat, files: map<string, Bytes>, id: string)
    requires n <= |configs| && Load(env, files, configs, n).Loading?
    ensures var done := Load(env, files, configs, n);
      && (id in done.keys <==> EnabledId(configs, n, id))
      && (id in done.keys ==> EntryOk(env, configs, n, done.files, id, done.keys[id]))
  {
    if n > 0 {
      LoadMatchesEntry(env, configs, n - 1, files, id);
      var done := Load(env, files, configs, n - 1);
      EnabledIdStep(configs, n - 1, id);
      RoundMatchesEntry(env, configs, n - 1, done.files, done.keys, id);
    }
  }

  /** After a successful load the registry holds exactly the ids of the enabled
      configurations, each entry from the last of them with that id and with the bytes
      of its file, and the new files are exactly the missing ones. */
  lemma LoadCorrect(env: Env, configs: seq<KeyConfig>, files: map<string, Bytes>)
    requires Load(env, files, configs, |configs|).Loading?
    ensures var done := Load(env, files, configs, |configs|);
      && RegistryMatches(env, configs, |configs|, done.files, done.keys)
      && NewFilesMatch(env, configs, |configs|, files, done.files)
      && FilesKept(env, configs, |configs|, files, done.files)
  {
    var done := Load(env, files, configs, |configs|);
    forall id
      ensures id in done.keys <==> EnabledId(configs, |configs|, id)
      ensures id in done.keys ==> EntryOk(env, configs, |configs|, done.files, id, done.keys[id])
    {
      LoadMatchesEntry(env, configs, |configs|, files, id);
    }
    forall p
      ensures p in done.files <==> p in files || EnabledPath(env.keyDir, configs, |configs|, p)
      ensures p in done.files && p !in files ==> GeneratedFor(env, configs, |configs|, p, done.files[p])
    {
      LoadMatchesFile(env, configs, |configs|, files, p);
    }
    LoadKeepsFiles(env, configs, |configs|, files);
  }

  /** Different key references never share a file. */
  lemma PathInjective(keyDir: string, r1: string, r2: string)
    ensures Path(keyDir, r1) == Path(keyDir, r2) <==> r1 == r2
  {
    var d := TrimSlashes(keyDir) + "/";
    if Path(keyDir, r1) == Path(keyDir, r2) {
      assert r1 == Path(keyDir, r1)[|d|..|d| + |r1|];
      assert r2 == Path(keyDir, r2)[|d|..|d| + |r2|];
    }
  }

  function Slashes(n: nat): string {
    seq(n, _ => '/')
  }

  lemma {:induction false} PathIs(stem: string, n: nat, backendRef: string)
    requires stem == "" || stem[|stem| - 1] != '/'
    ensures Path(stem + Slashes(n), backendRef) == stem + "/" + backendRef + ".pem"
  {
    var dir := stem + Slashes(n);
    if n == 0 {
      assert dir == stem;
    } else {
      assert dir[..|dir| - 1] == stem + Slashes(n - 1);
      PathIs(stem, n - 1, backendRef);
    }
  }

  /** A successful load, with the files named outright: below the key directory, whatever
      slashes end its name, each enabled configuration's file is its reference with
      ".pem". Readable files keep their bytes, and the missing ones are created. */
  lemma LoadMakesNamedFile(
    env: Env, configs: seq<KeyConfig>, files: map<string, Bytes>, stem: string, n: nat, i: nat)
    requires stem == "" || stem[|stem| - 1] != '/'
    requires env.keyDir == stem + Slashes(n)
    requires Load(env, files, configs, |configs|).Loading?
    requires i < |configs| && configs[i].enabled
    ensures var done := Load(env, files, configs, |configs|).files;
      var path := stem + "/" + configs[i].backendRef + ".pem";
      && path in done
      && (path in files && path !in env.unreadable ==> done[path] == files[path])
      && (path !in files ==>
            exists j ::
              && 0 <= j < |configs| && configs[j].enabled && configs[j].backendRef == configs[i].backendRef
              && env.generate(j) == Written(done[path]))
  {
    var done := Load(env, files, configs, |configs|).files;
    var path := stem + "/" + configs[i].backendRef + ".pem";
    PathIs(stem, n, configs[i].backendRef);
    LoadMatchesFile(env, configs, |configs|, files, path);
    if path in files {
      LoadKeepsFiles(env, configs, |configs|, files);
    } else {
      var j :| 0 <= j < |configs| && configs[j].enabled && Path(env.keyDir, configs[j].backendRef) == path
        && env.generate(j) == Written(done[path]);
      PathInjective(env.keyDir, configs[j].backendRef, configs[i].backendRef);
    }
  }

  /** Each id is described by the last enabled configuration that has it, and carries the
      bytes of the file named after that one. */
  lemma LoadReadsNamedFile(
    env: Env, configs: seq<KeyConfig>, files: map<string, Bytes>, stem: string, n: nat, i: nat)
    requires stem == "" || stem[|stem| - 1] != '/'
    requires env.keyDir == stem + Slashes(n)
    requires Load(env, files, configs, |configs|).Loading?
    requires i < |configs| && configs[i].enabled
    requires forall j :: i < j < |configs| && configs[j].enabled ==> configs[j].id != configs[i].id
    ensures var done := Load(env, files, configs, |configs|);
      var path := stem + "/" + configs[i].backendRef + ".pem";
      && configs[i].id in done.keys && path in done.files
      && var key := done.keys[configs[i].id];
         && key.info.id == configs[i].id && key.info.description == configs[i].description
         && key.info.algorithm == configs[i].algorithm && key.info.enabled
         && (path !in env.unreadable ==> key.pem == done.files[path])
         && (path in env.unreadable ==> env.generate(i) == Written(key.pem))
  {
    PathIs(stem, n, configs[i].backendRef);
    LoadMatchesEntry(env, configs, |configs|, files, configs[i].id);
    assert LastEnabled(configs, |configs|, configs[i].id, i);
  }

  /** Nothing else is created: every new file is named after an enabled configuration. */
  lemma LoadCreatesNamedFiles(
    env: Env, configs: seq<KeyConfig>, files: map<string, Bytes>, stem: string, n: nat, path: string)
    requires stem == "" || stem[|stem| - 1] != '/'
    requires env.keyDir == stem + Slashes(n)
    requires Load(env, files, configs, |configs|).Loading?
    ensures path in Load(env, files, configs, |configs|).files && path !in files ==>
      exists i :: 0 <= i < |configs| && configs[i].enabled && path == stem + "/" + configs[i].backendRef + ".pem"
  {
    LoadMatchesFile(env, configs, |configs|, files, path);
    if path in Load(env, files, configs, |configs|).files && path !in files {
      var i :| 0 <= i < |configs| && configs[i].enabled && Path(env.keyDir, configs[i].backendRef) == path;
      PathIs(stem, n, configs[i].backendRef);
    }
  }

  /** Configuration i is where the load ends: its file has to be generated, and cannot be. */
  ghost predicate FailsAt(env: Env, files: map<string, Bytes>, configs: seq<KeyConfig>, i: nat)
    requires i < |configs|
  {
    var path := Path(env.keyDir, configs[i].backendRef);
    && configs[i].enabled && !env.generate(i).Written?
    && (path in env.unreadable
        || (path !in files && forall j :: 0 <= j < i && configs[j].enabled ==>
              Path(env.keyDir, configs[j].backendRef) != path))
  }

  lemma RoundFailsIff(env: Env, files: map<string, Bytes>, configs: seq<KeyConfig>, n: nat)
    requires n < |configs| && Load(env, files, configs, n).Loading?
    ensures Load(env, files, configs, n + 1).Failed? <==> FailsAt(env, files, configs, n)
    ensures Load(env, files, configs, n + 1).Failed? ==>
      var before, path := Load(env, files, configs, n).files, Path(env.keyDir, configs[n].backendRef);
      && Load(env, files, configs, n + 1).message == env.generate(n).message
      && Load(env, files, configs, n + 1).files ==
           if env.generate(n).WriteFails? && env.generate(n).partial.Some?
           then before[path := env.generate(n).partial.value] else before
  {
    LoadMatchesFile(env, configs, n, files, Path(env.keyDir, configs[n].backendRef));
  }

  /** A load fails exactly when some enabled configuration's key file is unreadable, or
      missing and not made for an earlier one, and generating it fails; with the message
      of the first such failure, the files made before it, and the part of its own that
      was written. */
  lemma {:induction false} LoadFailsIff(env: Env, files: map<string, Bytes>, configs: seq<KeyConfig>, n: nat)
    requires n <= |configs|
    ensures Load(env, files, configs, n).Failed? <==> exists i :: 0 <= i < n && FailsAt(env, files, configs, i)
    ensures Load(env, files, configs, n).Failed? ==>
      exists i :: 0 <= i < n && FailsAt(env, files, configs, i)
        && (forall j :: 0 <= j < i ==> !FailsAt(env, files, configs, j))
        && Load(env, files, configs, n).message == env.generate(i).message
        && Load(env, files, configs, i).Loading?
        && var before, path := Load(env, files, configs, i).files, Path(env.keyDir, configs[i].backendRef);
           Load(env, files, configs, n).files ==
             if env.generate(i).WriteFails? && env.generate(i).partial.Some?
             then before[path := env.generate(i).partial.value] else before
  {
    if n > 0 {
      LoadFailsIff(env, files, configs, n - 1);
      if Load(env, files, configs, n - 1).Loading? {
        RoundFailsIff(env, files, configs, n - 1);
      }
    }
  }

  // ----- loading again -----

  lemma {:induction false} PrefixLoads(env: Env, files: map<string, Bytes>, configs: seq<KeyConfig>, n: nat, m: nat)
    requires n <= m <= |configs| && Load(env, files, configs, m).Loading?
    ensures Load(env, files, configs, n).Loading?
    decreases m
  {
    if n < m {
      PrefixLoads(env, files, configs, n, m - 1);
    }
  }

  /** Later rounds keep the files of earlier ones when every key file can be read. */
  lemma {:induction false} LaterRoundsKeepFiles(
    env: Env, files: map<string, Bytes>, configs: seq<KeyConfig>, n: nat, m: nat)
    requires n <= m <= |configs| && Load(env, files, configs, m).Loading?
    requires forall p :: EnabledPath(env.keyDir, configs, |configs|, p) ==> p !in env.unreadable
    ensures Load(env, files, configs, n).Loading?
    ensures forall p :: p in Load(env, files, configs, n).files ==>
      && p in Load(env, files, configs, m).files
      && Load(env, files, configs, m).files[p] == Load(env, files, configs, n).files[p]
    decreases m
  {
    if n < m {
      PrefixLoads(env, files, configs, m - 1, m);
      LaterRoundsKeepFiles(env, files, configs, n, m - 1);
      if configs[m - 1].enabled {
        assert EnabledPath(env.keyDir, configs, |configs|, Path(env.keyDir, configs[m - 1].backendRef));
      }
    }
  }

  /** Loading the same configurations again after a success generates nothing and
      yields the identical registry, whatever generation would now do. */
  lemma {:induction false} LoadIdempotent(
    env: Env, again: Env, files: map<string, Bytes>, configs: seq<KeyConfig>, n: nat)
    requires n <= |configs| && Load(env, files, configs, |configs|).Loading?
    requires again.keyDir == env.keyDir
    requires forall p :: EnabledPath(env.keyDir, configs, |configs|, p) ==>
      p !in env.unreadable && p !in again.unreadable
    ensures Load(env, files, configs, n).Loading?
    ensures var done := Load(env, files, configs, |configs|).files;
      Load(again, done, configs, n) == Loading(done, Load(env, files, configs, n).keys)
  {
    PrefixLoads(env, files, configs, n, |configs|);
    if n > 0 {
      LoadIdempotent(env, again, files, configs, n - 1);
      LaterRoundsKeepFiles(env, files, configs, n, |configs|);
      if configs[n - 1].enabled {
        assert EnabledPath(env.keyDir, configs, |configs|, Path(env.keyDir, configs[n - 1].backendRef));
      }
    }
  }

  // ----- unreadable files -----

  ghost predicate KeepsAll(before: map<string, Bytes>, after: map<string, Bytes>) {
    forall p :: p in before ==> p in after && after[p] == before[p]
  }

  lemma {:induction false} Overwritten(
    env: Env, files: map<string, Bytes>, configs: seq<KeyConfig>, n: nat, p: string, pem: Bytes)
    requires n <= |configs| && p in files && p in env.unreadable
    requires forall i :: env.generate(i) == Written(pem)
    ensures Load(env, files, configs, n).Loading? && p in Load(env, files, configs, n).files
    ensures EnabledPath(env.keyDir, configs, n, p) ==> Load(env, files, configs, n).files[p] == pem
  {
    if n > 0 {
      Overwritten(env, files, configs, n - 1, p, pem);
      EnabledPathStep(env.keyDir, configs, n - 1, p);
    }
  }

  /** Any failed read counts as a missing file. Hence a load is sure to leave every file
      as it was exactly when no enabled configuration names an existing file that
      cannot be read; otherwise generation may overwrite one. */
  lemma ExistingFilesSafeIff(
    keyDir: string, unreadable: set<string>, files: map<string, Bytes>, configs: seq<KeyConfig>)
    ensures
      (forall generate :: KeepsAll(files, Load(Env(keyDir, unreadable, generate), files, configs, |configs|).files))
      <==>
      (forall p :: p in files && p in unreadable ==> !EnabledPath(keyDir, configs, |configs|, p))
  {
    if forall p :: p in files && p in unreadable ==> !EnabledPath(keyDir, configs, |configs|, p) {
      forall generate
        ensures KeepsAll(files, Load(Env(keyDir, unreadable, generate), files, configs, |configs|).files)
      {
        LoadKeepsFiles(Env(keyDir, unreadable, generate), configs, |configs|, files);
      }
    } else {
      var p :| p in files && p in unreadable && EnabledPath(keyDir, configs, |configs|, p);
      var other: Bytes := if files[p] == [0] then [1] else [0];
      var env := Env(keyDir, unreadable, _ => Written(other));
      Overwritten(env, files, configs, |configs|, p, other);
      assert !KeepsAll(files, Load(env, files, configs, |configs|).files);
    }
  }

  // ----- whole lives of a backend -----

  datatype Call =
    | Reload(env: Env, configs: seq<KeyConfig>)
    | Sign(keyId: string)

  /** The registry and files after a call, as ReloadKeys and Sign leave them. */
  function After(
    files: map<string, Bytes>, keys: map<string, StoredKey>, call: Call): (map<string, Bytes>, map<string, StoredKey>) {
    match call
    case Sign(_) => (files, keys)
    case Reload(env, configs) => Reloaded(files, keys, env, configs)
  }

  /** Registry after start-up with these configurations and then these calls. */
  function Life(
    env: Env, files: map<string, Bytes>, configs: seq<KeyConfig>, calls: seq<Call>)
    : (map<string, Bytes>, map<string, StoredKey>)
    requires Load(env, files, configs, |configs|).Loading?
  {
    if calls == [] then
      (Load(env, files, configs, |configs|).files, Load(env, files, configs, |configs|).keys)
    else
      var (f, k) := Life(env, files, configs, calls[..|calls| - 1]);
      After(f, k, calls[|calls| - 1])
  }

  lemma {:induction false} LifeIsSane(
    env: Env, files: map<string, Bytes>, configs: seq<KeyConfig>, calls: seq<Call>)
    requires Load(env, files, configs, |configs|).Loading?
    ensures Sane(Life(env, files, configs, calls).1)
    decreases |calls|
  {
    if calls == [] {
      LoadIsSane(env, files, configs, |configs|);
    } else {
      var earlier, last := calls[..|calls| - 1], calls[|calls| - 1];
      LifeIsSane(env, files, configs, earlier);
      var f := Life(env, files, configs, earlier).0;
      if last.Reload? && Load(last.env, f, last.configs, |last.configs|).Loading? {
        LoadIsSane(last.env, f, last.configs, |last.configs|);
      }
    }
  }

  /** In every life of a software backend each entry is enabled and sits under its own
      id, so every registered key signs, with its own bytes, and no other is reported
      as disabled. */
  lemma NeverDisabled(
    env: Env, files: map<string, Bytes>, configs: seq<KeyConfig>, calls: seq<Call>,
    keyId: string, p: Primitives, seed: nat, algorithm: Algorithm, payload: Bytes)
    requires Load(env, files, configs, |configs|).Loading?
    ensures var keys := Life(env, files, configs, calls).1;
      var r := SignOutcome(keys, keyId, p, seed, algorithm, payload);
      && Sane(keys)
      && r != Failure(KeyDisabled(keyId))
      && (r == Failure(KeyNotFound(keyId)) <==> keyId !in keys)
      && (keyId in keys ==> r == SignWith(p, seed, keys[keyId].pem, algorithm, payload))
  {
    LifeIsSane(env, files, configs, calls);
  }

  function Infos(keys: map<string, StoredKey>): map<string, KeyInfo> {
    map id | id in keys :: keys[id].info
  }

  /** At any moment of a backend's life, both protocols resolve the default algorithm of
      a named key alike, from whatever order the registry is listed in. */
  lemma DefaultAlgorithmInEveryLife(
    env: Env, files: map<string, Bytes>, configs: seq<KeyConfig>, calls: seq<Call>,
    httpListing: seq<KeyInfo>, grpcListing: seq<KeyInfo>, keyId: string)
    requires Load(env, files, configs, |configs|).Loading?
    requires var keys := Life(env, files, configs, calls).1;
      Lists(httpListing, Infos(keys)) && Lists(grpcListing, Infos(keys))
    ensures var keys := Life(env, files, configs, calls).1;
      && HttpDefaultAlgorithm(httpListing, keyId) ==
           (if keyId in keys then Success(keys[keyId].info.algorithm) else Failure(KeyNotFound(keyId)))
      && GrpcDefaultAlgorithm(grpcListing, keyId) == HttpDefaultAlgorithm(httpListing, keyId)
  {
    var keys := Life(env, files, configs, calls).1;
    LifeIsSane(env, files, configs, calls);
    DefaultAlgorithmOrderFree(Infos(keys), httpListing, grpcListing, keyId);
  }

  // ----- a request across reloads -----

  /** Call j is a reload that replaces the registry. */
  predicate Completes(env: Env, files: map<string, Bytes>, configs: seq<KeyConfig>, calls: seq<Call>, j: nat)
    requires Load(env, files, configs, |configs|).Loading? && j < |calls|
  {
    && calls[j].Reload?
    && var before := Life(env, files, configs, calls[..j]).0;
       Load(calls[j].env, before, calls[j].configs, |calls[j].configs|).Loading?
  }

  /** Of the calls from n on, j is the last that replaces the registry. */
  ghost predicate LastReplacement(
    env: Env, files: map<string, Bytes>, configs: seq<KeyConfig>, calls: seq<Call>, n: nat, j: nat)
    requires Load(env, files, configs, |configs|).Loading?
  {
    && n <= j < |calls| && Completes(env, files, configs, calls, j)
    && forall l: nat :: j < l < |calls| ==> !Completes(env, files, configs, calls, l)
  }

  lemma {:induction false} RegistrySince(
    env: Env, files: map<string, Bytes>, configs: seq<KeyConfig>, calls: seq<Call>, n: nat) returns (j: Option<nat>)
    requires Load(env, files, configs, |configs|).Loading? && n <= |calls|
    ensures j.Some? ==> LastReplacement(env, files, configs, calls, n, j.value)
    ensures j.Some? ==> var last := calls[j.value];
      Life(env, files, configs, calls).1 ==
        Load(last.env, Life(env, files, configs, calls[..j.value]).0, last.configs, |last.configs|).keys
    ensures j == None ==> forall l: nat :: n <= l < |calls| ==> !Completes(env, files, configs, calls, l)
    ensures j == None ==> Life(env, files, configs, calls).1 == Life(env, files, configs, calls[..n]).1
    decreases |calls|
  {
    j := None;
    if n == |calls| {
      assert calls[..n] == calls;
    } else if Completes(env, files, configs, calls, |calls| - 1) {
      j := Some(|calls| - 1);
    } else {
      var earlier := calls[..|calls| - 1];
      j := RegistrySince(env, files, configs, earlier, n);
      assert forall l: nat :: l < |earlier| ==> earlier[..l] == calls[..l];
      assert forall l: nat :: l < |earlier| ==>
        (Completes(env, files, configs, earlier, l) <==> Completes(env, files, configs, calls, l));
      assert earlier[..n] == calls[..n];
    }
  }

  /** The configurations leave the key's last enabled entry with an algorithm other than this one. */
  ghost predicate Reassigns(configs: seq<KeyConfig>, keyId: string, algorithm: Algorithm) {
    exists i: nat :: LastEnabled(configs, |configs|, keyId, i) && configs[i].algorithm != algorithm
  }

  lemma LoadReassigns(
    env: Env, files: map<string, Bytes>, configs: seq<KeyConfig>, keyId: string, algorithm: Algorithm)
    requires Load(env, files, configs, |configs|).Loading?
    ensures var keys := Load(env, files, configs, |configs|).keys;
      && (keyId in keys <==> EnabledId(configs, |configs|, keyId))
      && (keyId in keys && keys[keyId].info.algorithm != algorithm <==> Reassigns(configs, keyId, algorithm))
  {
    var done := Load(env, files, configs, |configs|);
    LoadMatchesEntry(env, configs, |configs|, files, keyId);
    if keyId in done.keys {
      var i: nat :|
        LastEnabled(configs, |configs|, keyId, i) && EntryFrom(env, configs, i, done.files, done.keys[keyId]);
      assert forall j: nat :: LastEnabled(configs, |configs|, keyId, j) ==> j == i;
    }
  }

  /** A request resolves its default algorithm in one read of the registry and signs in
      another, so it always signs with the current bytes, but under the algorithm it
      resolved. That is not the current entry's exactly when the last reload between the
      reads to replace the registry gives the key another algorithm, and the key is gone
      exactly when that reload does not enable it. */
  lemma StaleDefaultIff(
    env: Env, files: map<string, Bytes>, configs: seq<KeyConfig>, calls: seq<Call>, n: nat,
    listing: seq<KeyInfo>, keyId: string, p: Primitives, seed: nat, payload: Bytes)
    requires Load(env, files, configs, |configs|).Loading? && n <= |calls|
    requires Lists(listing, Infos(Life(env, files, configs, calls[..n]).1))
    requires HttpDefaultAlgorithm(listing, keyId).Success?
    ensures var resolved, now := HttpDefaultAlgorithm(listing, keyId).value, Life(env, files, configs, calls).1;
      && GrpcDefaultAlgorithm(listing, keyId) == Success(resolved)
      && SignOutcome(now, keyId, p, seed, resolved, payload) ==
           (if keyId in now then SignWith(p, seed, now[keyId].pem, resolved, payload) else Failure(KeyNotFound(keyId)))
      && (keyId !in now <==>
            (exists j: nat :: LastReplacement(env, files, configs, calls, n, j)
              && !EnabledId(calls[j].configs, |calls[j].configs|, keyId)))
      && (keyId in now && now[keyId].info.algorithm != resolved <==>
            (exists j: nat :: LastReplacement(env, files, configs, calls, n, j)
              && Reassigns(calls[j].configs, keyId, resolved)))
  {
    var resolved := HttpDefaultAlgorithm(listing, keyId).value;
    DefaultAlgorithmInEveryLife(env, files, configs, calls[..n], listing, listing, keyId);
    LifeIsSane(env, files, configs, calls);
    var j := RegistrySince(env, files, configs, calls, n);
    if j.Some? {
      var last := calls[j.value];
      LoadReassigns(last.env, Life(env, files, configs, calls[..j.value]).0, last.configs, keyId, resolved);
      assert forall k :: LastReplacement(env, files, configs, calls, n, k) ==> k == j.value;
    }
  }
}
