/** The provisioning sequence of a cloud VM run, its rollback, and its cleanup. */
module Provisioning {
  import opened Common

  /** The per-run files of a run, all inside the keys directory. */
  datatype Paths = Paths(key: string, pub: string, knownHosts: string, wrapper: string)
  {
    function Own(): set<string> {
      {key, pub, knownHosts, wrapper}
    }

    predicate Distinct() {
      key != pub && knownHosts != key && knownHosts != pub && wrapper != key && wrapper != pub && wrapper != knownHosts
    }
  }

  function PathsOf(keyDir: string, runId: string): Paths {
    var key := keyDir + "/dispatcher-" + runId;
    Paths(key, key + ".pub", keyDir + "/known_hosts-" + runId, keyDir + "/ssh-wrapper-" + runId + ".sh")
  }

  lemma PathsDistinct(keyDir: string, runId: string)
    ensures PathsOf(keyDir, runId).Distinct()
  {
    var p, n := PathsOf(keyDir, runId), |keyDir|;
    assert p.key[n + 1] == 'd' && p.pub[n + 1] == 'd' && p.knownHosts[n + 1] == 'k' && p.wrapper[n + 1] == 's';
  }

  /** Two runs share a file if and only if they are the same, or one is called as the other's
      public key would be. */
  lemma RunsShareFilesExactly(keyDir: string, a: string, b: string)
    ensures PathsOf(keyDir, a).Own() !! PathsOf(keyDir, b).Own() <==> a != b && a != b + ".pub" && b != a + ".pub"
  {
    var p, q, n := PathsOf(keyDir, a), PathsOf(keyDir, b), |keyDir|;
    assert p.key[n + 1] == 'd' && p.pub[n + 1] == 'd' && p.knownHosts[n + 1] == 'k' && p.wrapper[n + 1] == 's';
    assert q.key[n + 1] == 'd' && q.pub[n + 1] == 'd' && q.knownHosts[n + 1] == 'k' && q.wrapper[n + 1] == 's';
    var d := keyDir + "/dispatcher-";
    assert p.pub == d + (a + ".pub") && q.pub == d + (b + ".pub");
    SamePrefix(d, a, b);
    SamePrefix(d, a, b + ".pub");
    SamePrefix(d, a + ".pub", b);
    SamePrefix(d, a + ".pub", b + ".pub");
    SameSuffix(a, b, ".pub");
    SamePrefix(keyDir + "/known_hosts-", a, b);
    var w := keyDir + "/ssh-wrapper-";
    assert p.wrapper == w + (a + ".sh") && q.wrapper == w + (b + ".sh");
    SamePrefix(w, a + ".sh", b + ".sh");
    SameSuffix(a, b, ".sh");
    assert p.key in p.Own() && p.pub in p.Own();
  }

  lemma SamePrefix(p: string, a: string, b: string)
    ensures p + a == p + b <==> a == b
  {
    assert (p + a)[|p|..] == a && (p + b)[|p|..] == b;
  }

  lemma SameSuffix(a: string, b: string, s: string)
    ensures a + s == b + s <==> a == b
  {
    assert (a + s)[..|a|] == a && (b + s)[..|b|] == b;
  }

  /** A created VM; `sshKey` is "" unless the provider supplies its own identity. */
  datatype Vm = Vm(id: string, sshKey: string)

  datatype Pin = ScanFailed | CreateFailed(removedOld: bool) | WriteFailed | Pinned

  datatype WrapperWrite = Written | NotWritten | PartlyWritten

  /** How each step fares. */
  datatype Env = Env(
    keygenOk: bool, preflightOk: bool, created: Option<Vm>, readyOk: bool, pin: Pin, authOk: bool,
    wrapper: WrapperWrite, attestOk: bool, rsyncOk: bool, startOk: bool)

  datatype State = State(vmId: string, keyPath: string, keyManaged: bool, knownHosts: string, wrapper: string)

  predicate VmCreated(env: Env) {
    env.keygenOk && env.preflightOk && env.created.Some?
  }

  predicate Succeeds(env: Env) {
    VmCreated(env) && env.readyOk && env.pin.Pinned? && env.authOk && env.wrapper.Written? && env.attestOk &&
    env.rsyncOk && env.startOk
  }

  predicate ReachesPin(env: Env) {
    VmCreated(env) && env.readyOk
  }

  predicate ReachesWrapper(env: Env) {
    ReachesPin(env) && env.pin.Pinned? && env.authOk
  }

  /** The one path on which a file of the run outlives a failed Execute. */
  predicate LeavesWrapper(env: Env) {
    ReachesWrapper(env) && env.wrapper.PartlyWritten?
  }

  predicate Managed(env: Env) {
    env.created.Some? ==> env.created.value.sshKey == ""
  }

  /** The files after Execute, by outcome. */
  function FilesAfter(files: set<string>, p: Paths, env: Env): set<string> {
    if !env.keygenOk then files
    else if Succeeds(env) then
      if Managed(env) then files + {p.knownHosts, p.wrapper, p.key, p.pub}
      else files + {p.knownHosts, p.wrapper} - {p.key, p.pub}
    else
      files - {p.key, p.pub}
      - (if ReachesPin(env) && !env.pin.ScanFailed? && env.pin != CreateFailed(false) then {p.knownHosts} else {})
      - (if ReachesWrapper(env) && env.wrapper.Written? then {p.wrapper} else {})
      + (if LeavesWrapper(env) then {p.wrapper} else {})
  }

  predicate StartsUp(env: Env) {
    env.pin.Pinned? && env.authOk && env.wrapper.Written? && env.attestOk && env.rsyncOk && env.startOk
  }

  function StartFiles(files: set<string>, p: Paths, env: Env): set<string> {
    if env.pin.Pinned? then
      files + {p.knownHosts} + (if env.authOk && !env.wrapper.NotWritten? then {p.wrapper} else {})
    else if env.pin.ScanFailed? || env.pin == CreateFailed(false) then files
    else files - {p.knownHosts}
  }

  /** What is common to the machine that runs dispatcher and to the provider. */
  class CloudVmAdapter {
    var files: set<string>
    var destroyCalls: seq<string>

    constructor (existing: set<string>)
      ensures files == existing && destroyCalls == []
    {
      files, destroyCalls := existing, [];
    }

    method Remove(paths: seq<string>)
      modifies this`files
      ensures files == old(files) - set f | f in paths
    {
      for i := 0 to |paths|
        invariant files == old(files) - set f | f in paths[..i]
      {
        assert paths[..i + 1] == paths[..i] + [paths[i]];
        files := files - {paths[i]};
      }
      assert paths[..|paths|] == paths;
    }

    method PinHostKey(p: Paths, pin: Pin) returns (ok: bool)
      modifies this`files
      ensures ok == pin.Pinned?
      ensures files == if pin.Pinned? then old(files) + {p.knownHosts}
                       else if pin.ScanFailed? || pin == CreateFailed(false) then old(files)
                       else old(files) - {p.knownHosts}
    {
      match pin
      case ScanFailed => return false;
      case CreateFailed(removedOld) =>
        if removedOld {
          files := files - {p.knownHosts};
        }
        return false;
      case WriteFailed =>
        files := files + {p.knownHosts};
        files := files - {p.knownHosts};
        return false;
      case Pinned =>
        files := files + {p.knownHosts};
        return true;
    }

    method WriteWrapper(p: Paths, w: WrapperWrite) returns (ok: bool)
      modifies this`files
      ensures ok == w.Written?
      ensures files == if w.NotWritten? then old(files) else old(files) + {p.wrapper}
    {
      if !w.NotWritten? {
        files := files + {p.wrapper};
      }
      return w.Written?;
    }

    /** From the host key to the started workload; `early` grows by the files to remove
        on error. */
    method Start(p: Paths, env: Env, state0: State, early0: seq<string>) returns (r: Option<State>, early: seq<string>)
      modifies this`files
      ensures r.Some? <==> StartsUp(env)
      ensures r.Some? ==> r.value == state0.(knownHosts := p.knownHosts, wrapper := p.wrapper)
      ensures early == early0 + (if env.pin.Pinned? then [p.knownHosts] else [])
                       + (if env.pin.Pinned? && env.authOk && env.wrapper.Written? then [p.wrapper] else [])
      ensures files == StartFiles(old(files), p, env)
    {
      r, early := None, early0;
      var ok := PinHostKey(p, env.pin);
      if !ok {
        return;
      }
      early := early + [p.knownHosts];
      if !env.authOk {
        return;
      }
      ok := WriteWrapper(p, env.wrapper);
      if !ok {
        return;
      }
      early := early + [p.wrapper];
      if !env.attestOk || !env.rsyncOk || !env.startOk {
        return;
      }
      r := Some(state0.(knownHosts := p.knownHosts, wrapper := p.wrapper));
    }

    /** A failed run issues exactly one destroy call for a created VM; a successful one
        issues none and hands all it needs to Cleanup. */
    method Execute(keyDir: string, runId: string, env: Env) returns (r: Option<State>)
      modifies this
      ensures r.Some? <==>
                && env.keygenOk && env.preflightOk && env.created.Some? && env.readyOk && env.pin.Pinned? && env.authOk
                && env.wrapper.Written? && env.attestOk && env.rsyncOk && env.startOk
      ensures files == FilesAfter(old(files), PathsOf(keyDir, runId), env)
      ensures !env.keygenOk ==> files == old(files)
      ensures destroyCalls == old(destroyCalls) +
                if env.keygenOk && env.preflightOk && env.created.Some? && r.None? then [env.created.value.id] else []
      // The handle names the created VM and the files it is reached with.
      ensures r.Some? ==>
                && r.value.vmId == env.created.value.id
                && r.value.keyManaged == (env.created.value.sshKey == "")
                && (r.value.keyManaged ==> r.value.keyPath == keyDir + "/dispatcher-" + runId)
                && (!r.value.keyManaged ==> r.value.keyPath == env.created.value.sshKey)
                && r.value.knownHosts == keyDir + "/known_hosts-" + runId
                && r.value.wrapper == keyDir + "/ssh-wrapper-" + runId + ".sh"
      ensures r.Some? ==> r.value == Handle(PathsOf(keyDir, runId), env.created.value)
    {
      PathsDistinct(keyDir, runId);
      r := ExecuteWith(PathsOf(keyDir, runId), env);
    }

    /** A run and then its cleanup: on every path a created VM gets exactly one destroy call,
        which names it, and nothing else does; when all goes well the four files of the run
        are gone and no other file is touched. */
    method ExecuteThenCleanup(keyDir: string, runId: string, env: Env, destroyOk: bool) returns (ran: bool)
      modifies this
      ensures destroyCalls == old(destroyCalls) +
                if env.keygenOk && env.preflightOk && env.created.Some? then [env.created.value.id] else []
      ensures ran && destroyOk ==>
                files == old(files) - {keyDir + "/dispatcher-" + runId, keyDir + "/dispatcher-" + runId + ".pub",
                                       keyDir + "/known_hosts-" + runId, keyDir + "/ssh-wrapper-" + runId + ".sh"}
    {
      ghost var before := files;
      var r := Execute(keyDir, runId, env);
      ran := r.Some?;
      if r.Some? {
        WholeRunRemovesItsOwn(before, keyDir, runId, env);
        var success := Cleanup(r.value, destroyOk);
      }
    }

    method ExecuteWith(p: Paths, env: Env) returns (r: Option<State>)
      requires p.Distinct()
      modifies this
      ensures r.Some? <==> Succeeds(env)
      ensures files == FilesAfter(old(files), p, env)
      ensures destroyCalls == old(destroyCalls) + if VmCreated(env) && r.None? then [env.created.value.id] else []
      ensures r.Some? ==> r.value == Handle(p, env.created.value)
    {
      r := None;
      if !env.keygenOk {
        return;
      }
      files := files + {p.key, p.pub};
      var early := [p.key, p.pub];
      var destroyOnErr, vmId := false, "";
      label Body: {
        if !env.preflightOk || env.created.None? {
          break Body;
        }
        var vm := env.created.value;
        destroyOnErr, vmId := true, vm.id;
        if !env.readyOk {
          break Body;
        }
        var state := State(vm.id, p.key, true, "", "");
        if vm.sshKey != "" {
          files := files - {p.key};
          files := files - {p.pub};
          early := [];
          state := state.(keyPath := vm.sshKey, keyManaged := false);
        }
        r, early := Start(p, env, state, early);
        if r.Some? {
          early, destroyOnErr := [], false;
        }
      }
      // The deferred actions, last armed first.
      if destroyOnErr {
        destroyCalls := destroyCalls + [vmId];
      }
      Remove(early);
    }

    method Cleanup(state: State, destroyOk: bool) returns (success: bool)
      modifies this
      ensures success == destroyOk && destroyCalls == old(destroyCalls) + [state.vmId]
      ensures files == if destroyOk then FilesCleaned(old(files), state) else old(files)
    {
      destroyCalls := destroyCalls + [state.vmId];
      if !destroyOk {
        return false;
      }
      if state.keyManaged {
        files := files - {state.keyPath};
        files := files - {state.keyPath + ".pub"};
      }
      if state.knownHosts != "" {
        files := files - {state.knownHosts};
      }
      if state.wrapper != "" {
        files := files - {state.wrapper};
      }
      return true;
    }
  }

  function Handle(p: Paths, vm: Vm): State {
    State(vm.id, if vm.sshKey == "" then p.key else vm.sshKey, vm.sshKey == "", p.knownHosts, p.wrapper)
  }

  function FilesCleaned(files: set<string>, state: State): set<string> {
    files
    - (if state.keyManaged then {state.keyPath, state.keyPath + ".pub"} else {})
    - (if state.knownHosts != "" then {state.knownHosts} else {})
    - (if state.wrapper != "" then {state.wrapper} else {})
  }

  /** A failed Execute past key generation keeps no file of its own, exactly when no
      partly written wrapper is left: what remains was there before, without the key pair. */
  lemma RollbackExact(files: set<string>, keyDir: string, runId: string, env: Env)
    requires env.keygenOk && !Succeeds(env)
    ensures var p := PathsOf(keyDir, runId);
            var after := FilesAfter(files, p, env);
            && p.key !in after && p.pub !in after
            && (forall f :: f !in p.Own() ==> (f in after <==> f in files))
            && (p.knownHosts in after <==>
                p.knownHosts in files &&
                (env.preflightOk && env.created.Some? && env.readyOk ==>
                   env.pin == ScanFailed || env.pin == CreateFailed(false)))
            && (p.wrapper !in files ==> (after <= files <==> !LeavesWrapper(env)))
            && (files !! p.Own() ==> (after == files <==> !LeavesWrapper(env)))
    ensures LeavesWrapper(env) <==>
            && env.preflightOk && env.created.Some? && env.readyOk
            && env.pin.Pinned? && env.authOk && env.wrapper.PartlyWritten?
  {
    PathsDistinct(keyDir, runId);
  }

  /** A successful Execute has every file the run uses in place; a supplied identity is
      in place too exactly when it is not one of the run's own key files. */
  lemma SuccessKeepsWhatIsUsed(files: set<string>, keyDir: string, runId: string, env: Env)
    requires Succeeds(env)
    requires env.created.value.sshKey != "" ==> env.created.value.sshKey in files
    ensures var p := PathsOf(keyDir, runId);
            var after := FilesAfter(files, p, env);
            var state := Handle(p, env.created.value);
            && state.knownHosts in after && state.wrapper in after
            && (state.keyPath in after <==> Managed(env) || (state.keyPath != p.key && state.keyPath != p.pub))
            && (Managed(env) ==> state.keyPath + ".pub" in after)
            && (forall f :: f in files && f !in p.Own() ==> f in after)
  {
    PathsDistinct(keyDir, runId);
  }

  /** Execute and then Cleanup take away the run's own files and nothing else, so a
      supplied identity survives exactly when it is not one of the run's own paths. */
  lemma WholeRunRemovesItsOwn(files: set<string>, keyDir: string, runId: string, env: Env)
    requires Succeeds(env)
    ensures var p := PathsOf(keyDir, runId);
            FilesCleaned(FilesAfter(files, p, env), Handle(p, env.created.value)) == files - p.Own()
  {
    PathsDistinct(keyDir, runId);
  }
}
