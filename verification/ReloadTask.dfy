/** One round of the reload task as it is written: receive, drain in a loop, read the
    file, reload the keys, replace the policy. It has the effect of the corresponding
    steps of the state machine when nothing else runs in between. */
module ReloadTask {
  import opened GatewayTypes
  import opened Gates
  import Watcher
  import SoftwareHsm

  /** What a round reads and changes. */
  datatype View = View(
    queue: nat,
    auth: AuthConfig,
    keys: map<string, SoftwareHsm.StoredKey>,
    files: map<string, Bytes>)

  /** The round as one change: every queued event is consumed, the policy is replaced if
      the file parses, the keys only if they load as well. */
  function Handle(v: View, onDisk: Watcher.Contents, env: SoftwareHsm.Env): View {
    if v.queue == 0 || !onDisk.Parsed? then
      v.(queue := 0)
    else
      match SoftwareHsm.Load(env, v.files, onDisk.keys, |onDisk.keys|)
      case Loading(files, keys) => View(0, onDisk.auth, keys, files)
      case Failed(files, _) => View(0, onDisk.auth, v.keys, files)
  }

  class Task {
    var queue: nat
    var auth: AuthConfig
    const hsm: SoftwareHsm.SoftwareHsm

    ghost predicate Valid()
      reads this, hsm
    {
      hsm.Valid()
    }

    ghost function Contents(): View
      reads this, hsm, hsm.fs
    {
      View(queue, auth, hsm.keys, hsm.fs.files)
    }

    constructor (auth: AuthConfig, hsm: SoftwareHsm.SoftwareHsm)
      requires hsm.Valid()
      ensures Valid() && this.hsm == hsm
      ensures Contents() == View(0, auth, hsm.keys, hsm.fs.files)
    {
      this.queue, this.auth, this.hsm := 0, auth, hsm;
    }

    /** Handles the events in the channel, if there are any. */
    method HandleEvents(onDisk: Watcher.Contents, env: SoftwareHsm.Env) returns (received: bool)
      requires Valid() && env.keyDir == hsm.keyDir
      modifies this`queue, this`auth, hsm`keys, hsm.fs
      ensures Valid() && (received <==> old(queue) > 0)
      ensures Contents() == Handle(old(Contents()), onDisk, env)
    {
      if queue == 0 {
        return false;
      }
      queue := queue - 1;
      while queue > 0
        modifies this`queue
      {
        queue := queue - 1;
      }
      if onDisk.Parsed? {
        var reloaded := hsm.ReloadKeys(env, onDisk.keys);
        auth := onDisk.auth;
      }
      return true;
    }
  }

  // ----- the same round in the state machine -----

  /** A task between rounds stands where the machine does: as many events, the same
      policy, and the keys that loading the version they are from gave. */
  ghost predicate Represents(v: View, s: Watcher.State, loaded: nat -> map<string, SoftwareHsm.StoredKey>) {
    && Watcher.Shape(s) && s.task.Receiving? && s.backend.Software?
    && v.queue == s.queue && v.auth == Watcher.Active(s) && v.keys == loaded(s.keysFrom)
  }

  /** What `HandleEvents` does to its fields is what the machine's round does to the state
      they represent, whether or not the keys load. */
  lemma HandleRefinesRound(
    v: View, s: Watcher.State, loaded: nat -> map<string, SoftwareHsm.StoredKey>, env: SoftwareHsm.Env)
    requires Represents(v, s, loaded) && s.queue > 0
    ensures var version := |s.file| - 1;
      var onDisk := s.file[version];
      var load := if onDisk.Parsed? then SoftwareHsm.Load(env, v.files, onDisk.keys, |onDisk.keys|)
        else SoftwareHsm.Failed(v.files, "");
      var run := Watcher.Round(s.queue, onDisk.Parsed?, load.Loading?);
      && Watcher.ValidRun(s, run)
      && Represents(Handle(v, onDisk, env), Watcher.Exec(s, run),
           (n: nat) => if load.Loading? && n == version then load.keys else loaded(n))
  {
    var onDisk := s.file[|s.file| - 1];
    var ok := onDisk.Parsed? && SoftwareHsm.Load(env, v.files, onDisk.keys, |onDisk.keys|).Loading?;
    Watcher.RoundIsARun(s, ok);
  }
}
