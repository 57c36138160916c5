/**
 * The upgrade package's operations as state-changing methods of one host:
 * its persisted state lives in fields, the collaborators' outcomes come from
 * an `Env`, and every collaborator call is appended to the ghost `trace`.
 * Each operation is proved to do exactly what its specification function in
 * CleanupSweep, RestartCoordinator or RollbackFlow describes.
 */
module UpgradeHost {
  import opened Wrappers
  import opened UpgradeTypes
  import opened CleanupSweep
  import opened RestartCoordinator
  import opened RollbackFlow

  class Host {
    /** The agent's name, which prefixes every install directory. */
    const agentName: string
    var symlink: string
    var activeCommit: string
    var marker: bool
    var prevSymlink: bool
    var dataRoot: seq<string>
    /** Every collaborator call made so far, in order. */
    ghost var trace: seq<Event>

    function State(): Disk
      reads this
    {
      Disk(symlink, activeCommit, marker, prevSymlink, dataRoot)
    }

    constructor (agentName: string, d: Disk)
      ensures this.agentName == agentName && State() == d && trace == []
    {
      this.agentName := agentName;
      symlink, activeCommit, marker, prevSymlink, dataRoot := d.symlink, d.activeCommit, d.marker, d.prevSymlink, d.dataRoot;
      trace := [];
    }

    // -------------------------------------------------------------------
    // Stand-ins for the collaborators; each changes only its own piece of state.

    /** ChangeSymlink: on success the symlink points at `hash`. */
    method SwitchSymlink(hash: string, env: Env) returns (err: Option<Error>)
      modifies this`symlink, this`trace
      ensures err == (if env.symlinkOk then None else Some(SymlinkFailed(hash)))
      ensures symlink == if env.symlinkOk then hash else old(symlink)
      ensures trace == old(trace) + [ChangeSymlink(hash)]
    {
      trace := trace + [ChangeSymlink(hash)];
      if env.symlinkOk {
        symlink := hash;
        err := None;
      } else {
        err := Some(SymlinkFailed(hash));
      }
    }

    /** UpdateActiveCommit: on success the active-commit record holds `hash`. */
    method WriteActiveCommit(hash: string, env: Env) returns (err: Option<Error>)
      modifies this`activeCommit, this`trace
      ensures err == (if env.commitOk then None else Some(CommitFailed(hash)))
      ensures activeCommit == if env.commitOk then hash else old(activeCommit)
      ensures trace == old(trace) + [UpdateActiveCommit(hash)]
    {
      trace := trace + [UpdateActiveCommit(hash)];
      if env.commitOk {
        activeCommit := hash;
        err := None;
      } else {
        err := Some(CommitFailed(hash));
      }
    }

    /** CleanMarker: on success the upgrade marker is gone. */
    method RemoveMarker(env: Env) returns (ok: bool)
      modifies this`marker, this`trace
      ensures ok == env.markerOk
      ensures marker == (old(marker) && !ok)
      ensures trace == old(trace) + [CleanMarker]
    {
      trace := trace + [CleanMarker];
      ok := env.markerOk;
      if ok {
        marker := false;
      }
    }

    /** Removing the legacy symlink; the caller ignores whether it worked. */
    method RemoveLegacySymlink(env: Env)
      modifies this`prevSymlink, this`trace
      ensures prevSymlink == (old(prevSymlink) && !env.prevSymlinkOk)
      ensures trace == old(trace) + [RemovePrevSymlink]
    {
      trace := trace + [RemovePrevSymlink];
      if env.prevSymlinkOk {
        prevSymlink := false;
      }
    }

    /** install.RemovePath on one entry of the data root. */
    method RemoveDir(dir: string, env: Env) returns (ok: bool)
      modifies this`dataRoot, this`trace
      ensures ok == env.removeOk(dir)
      ensures dataRoot == if ok then Without(old(dataRoot), {dir}) else old(dataRoot)
      ensures trace == old(trace) + [RemovePath(dir)]
    {
      trace := trace + [RemovePath(dir)];
      ok := env.removeOk(dir);
      if ok {
        dataRoot := Without(dataRoot, {dir});
      }
    }

    // -------------------------------------------------------------------
    // The operations

    /** Rollback to `prevHash`: symlink, commit, restart, cleanup, stopping at the first failure. */
    method Rollback(prevHash: string, currentHash: string, env: Env) returns (err: Option<Error>)
      modifies this
      ensures var o := RollbackSpec(old(State()), agentName, prevHash, currentHash, env);
              err == o.err && State() == o.disk && trace == old(trace) + o.events
    {
      ghost var d0, t0 := State(), trace;
      err := SwitchSymlink(prevHash, env);
      if err.Some? {
        return;
      }
      err := WriteActiveCommit(prevHash, env);
      if err.Some? {
        AppendAssoc(t0, [ChangeSymlink(prevHash)], [UpdateActiveCommit(prevHash)]);
        return;
      }
      ghost var e2 := [ChangeSymlink(prevHash)] + [UpdateActiveCommit(prevHash)];
      AppendAssoc(t0, [ChangeSymlink(prevHash)], [UpdateActiveCommit(prevHash)]);
      assert trace == t0 + e2;
      ghost var d2 := State();
      err := RestartAgent(env);
      ghost var r := RestartSpec(d2, env);
      AppendAssoc(t0, e2, r.events);
      if err.Some? {
        return;
      }
      ghost var c := CleanupSpec(d2, agentName, prevHash, true, env);
      AppendAssoc(t0, e2 + r.events, c.events);
      err := Cleanup(prevHash, true, env);
    }

    /** Cleanup: remove every install directory of the agent except that of `currentHash`. */
    method Cleanup(currentHash: string, removeMarker: bool, env: Env) returns (err: Option<Error>)
      modifies this
      ensures var o := CleanupSpec(old(State()), agentName, currentHash, removeMarker, env);
              err == o.err && State() == o.disk && trace == old(trace) + o.events
    {
      ghost var t0 := trace;
      ghost var ev0 := [GraceDelay] + (if removeMarker then [CleanMarker] else []);
      trace := trace + [GraceDelay];
      if removeMarker {
        var ok := RemoveMarker(env);
        AppendAssoc(t0, [GraceDelay], [CleanMarker]);
        if !ok {
          return Some(MarkerFailed);
        }
      } else {
        assert ev0 == [GraceDelay];
      }
      assert trace == t0 + ev0;
      if !env.openOk {
        return Some(OpenFailed);
      }
      if !env.listOk {
        return Some(ListFailed);
      }
      RemoveLegacySymlink(env);
      AppendAssoc(t0, ev0, [RemovePrevSymlink]);
      ghost var c := Candidates(dataRoot, agentName, currentHash);
      var failed := RemoveStaleDirs(currentHash, env);
      AppendAssoc(t0, ev0 + [RemovePrevSymlink], Removals(c));
      err := if failed == [] then None else Some(RemoveFailed(failed));
    }

    /**
     * The loop of Cleanup over the listing of the data root: skip the current
     * version's directory and every entry without the agent's prefix, try to
     * remove each other entry, and collect the failures.
     */
    method RemoveStaleDirs(currentHash: string, env: Env) returns (failed: seq<string>)
      modifies this`dataRoot, this`trace
      ensures var c := Candidates(old(dataRoot), agentName, currentHash);
              && failed == Failed(c, env.removeOk)
              && dataRoot == Without(old(dataRoot), Removed(c, env.removeOk))
              && trace == old(trace) + Removals(c)
    {
      var subdirs := dataRoot;
      var dirPrefix := agentName + "-";
      var currentDir := agentName + "-" + currentHash;
      failed := [];
      WithoutNothing(subdirs);
      assert subdirs[..0] == [];
      assert Removed([], env.removeOk) == {};
      for i := 0 to |subdirs|
        invariant failed == Failed(Candidates(subdirs[..i], agentName, currentHash), env.removeOk)
        invariant trace == old(trace) + Removals(Candidates(subdirs[..i], agentName, currentHash))
        invariant dataRoot == Without(subdirs, Removed(Candidates(subdirs[..i], agentName, currentHash), env.removeOk))
      {
        var dir := subdirs[i];
        ghost var c := Candidates(subdirs[..i], agentName, currentHash);
        SweepStep(subdirs, i, agentName, currentHash, env.removeOk);
        if dir == currentDir {
          continue;
        }
        if !(dirPrefix <= dir) {
          continue;
        }
        var ok := RemoveDir(dir, env);
        AppendAssoc(old(trace), Removals(c), [RemovePath(dir)]);
        if !ok {
          failed := failed + [dir];
        } else {
          WithoutStep(subdirs, Removed(c, env.removeOk), dir);
        }
      }
      assert subdirs[..|subdirs|] == subdirs;
    }

    /** InvokeWatcher: start the watcher if the installation is upgradeable, then release its handle. */
    method InvokeWatcher(env: Env) returns (err: Option<Error>)
      modifies this`trace
      ensures var o := InvokeWatcherSpec(State(), env);
              err == o.err && trace == old(trace) + o.events
    {
      if !env.upgradeable {
        return None;
      }
      trace := trace + [StartWatcher(WatcherSubcommand)];
      err := if env.startOk then None else Some(StartFailed);
      if env.processExists {
        trace := trace + [ReleaseWatcher];
      }
    }

    /** restartAgent: up to MaxRestartCount rounds of one backoff wait and one attempt. */
    method RestartAgent(env: Env) returns (err: Option<Error>)
      modifies this`trace
      ensures var o := RestartSpec(State(), env);
              err == o.err && trace == old(trace) + o.events
    {
      var i := MaxRestartCount;
      while i >= 1
        invariant 1 <= i <= MaxRestartCount
        invariant forall k :: 0 <= k < MaxRestartCount - i ==> env.attempt(k) != Succeeds
        invariant trace == old(trace) + Rounds(env.attempt, MaxRestartCount - i)
        decreases i
      {
        var n := MaxRestartCount - i;
        trace := trace + [BackoffWait];
        AppendAssoc(old(trace), Rounds(env.attempt, n), [BackoffWait]);
        err := RestartOnce(env.attempt(n));
        AppendAssoc(old(trace), Rounds(env.attempt, n) + [BackoffWait], AttemptEvents(env.attempt(n)));
        assert trace == old(trace) + Rounds(env.attempt, n + 1);
        if err == None {
          assert FirstSuccess(env.attempt, 0) == n;
          break;
        }
        if i == 1 {
          assert FirstSuccess(env.attempt, 0) == MaxRestartCount;
          return;
        }
        i := i - 1;
      }
      AppendAssoc(old(trace), Rounds(env.attempt, FirstSuccess(env.attempt, 0) + 1), [CloseSignal]);
      trace := trace + [CloseSignal];
      err := None;
    }

    /** restartFn: connect; on success request the restart and disconnect whatever the request gives. */
    method RestartOnce(a: Attempt) returns (err: Option<Error>)
      modifies this`trace
      ensures err == AttemptError(a) && trace == old(trace) + AttemptEvents(a)
    {
      trace := trace + [Connect(a != ConnectFails)];
      if a == ConnectFails {
        return Some(NetworkError);
      }
      trace := trace + [RequestRestart(a == Succeeds)];
      err := if a == Succeeds then None else Some(RpcError);
      trace := trace + [Disconnect];
    }
  }
}
