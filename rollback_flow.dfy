/**
 * The rollback orchestrator and the watcher invocation of the upgrade path.
 * Rollback is a fail-fast sequence that never undoes a step that already ran:
 * repoint the symlink, rewrite the active commit, restart the daemon, then
 * sweep every other install directory and the upgrade marker.
 */
module RollbackFlow {
  import opened Wrappers
  import opened UpgradeTypes
  import opened CleanupSweep
  import opened RestartCoordinator

  /** Rollback(prevHash, currentHash). `currentHash` is accepted and not used, as in the source. */
  function RollbackSpec(d: Disk, agentName: string, prevHash: string, currentHash: string, env: Env): Outcome {
    var e1 := [ChangeSymlink(prevHash)];
    if !env.symlinkOk then Outcome(Some(SymlinkFailed(prevHash)), d, e1)
    else
      var d1 := d.(symlink := prevHash);
      var e2 := e1 + [UpdateActiveCommit(prevHash)];
      if !env.commitOk then Outcome(Some(CommitFailed(prevHash)), d1, e2)
      else
        var d2 := d1.(activeCommit := prevHash);
        var r := RestartSpec(d2, env);
        if r.err.Some? then Outcome(r.err, r.disk, e2 + r.events)
        else
          var c := CleanupSpec(r.disk, agentName, prevHash, true, env);
          Outcome(c.err, c.disk, e2 + r.events + c.events)
  }

  /** InvokeWatcher: nothing unless the installation is upgradeable; then start, and release a process that exists. */
  function InvokeWatcherSpec(d: Disk, env: Env): Outcome {
    if !env.upgradeable then Outcome(None, d, [])
    else
      Outcome(if env.startOk then None else Some(StartFailed), d,
              [StartWatcher(WatcherSubcommand)] + (if env.processExists then [ReleaseWatcher] else []))
  }

  /** The step of the rollback sequence a call belongs to. */
  function Phase(e: Event): nat {
    match e
    case ChangeSymlink(_) => 0
    case UpdateActiveCommit(_) => 1
    case BackoffWait => 2
    case Connect(_) => 2
    case RequestRestart(_) => 2
    case Disconnect => 2
    case CloseSignal => 2
    case GraceDelay => 3
    case CleanMarker => 3
    case RemovePrevSymlink => 3
    case RemovePath(_) => 3
    case StartWatcher(_) => 4
    case ReleaseWatcher => 4
  }

  /** The calls of a log come step by step: no call of a later step before a call of an earlier one. */
  predicate InStepOrder(ev: seq<Event>) {
    forall i, j :: 0 <= i < j < |ev| ==> Phase(ev[i]) <= Phase(ev[j])
  }

  predicate AllInPhase(ev: seq<Event>, p: nat) {
    forall e :: e in ev ==> Phase(e) == p
  }

  lemma {:induction false} InStepOrderAppend(a: seq<Event>, b: seq<Event>, p: nat)
    requires InStepOrder(a) && (forall e :: e in a ==> Phase(e) <= p) && AllInPhase(b, p)
    ensures InStepOrder(a + b) && forall e :: e in a + b ==> Phase(e) <= p
  {
    var ab := a + b;
    forall i, j | 0 <= i < j < |ab| ensures Phase(ab[i]) <= Phase(ab[j]) {
      if j < |a| {
        assert ab[i] == a[i] && ab[j] == a[j];
      } else if i < |a| {
        assert ab[i] == a[i] && ab[i] in a;
        assert ab[j] == b[j - |a|] && ab[j] in b;
      } else {
        assert ab[i] == b[i - |a|] && ab[i] in b;
        assert ab[j] == b[j - |a|] && ab[j] in b;
      }
    }
  }

  lemma RestartPhase(d: Disk, env: Env)
    ensures AllInPhase(RestartSpec(d, env).events, 2)
  {
    RestartOnlyRestartEvents(d, env);
  }

  lemma CleanupPhase(d: Disk, agentName: string, currentHash: string, removeMarker: bool, env: Env)
    ensures AllInPhase(CleanupSpec(d, agentName, currentHash, removeMarker, env).events, 3)
  {
    CleanupOnlyCleanupEvents(d, agentName, currentHash, removeMarker, env);
  }

  // ---------------------------------------------------------------------
  // Properties of Rollback

  /** Whatever fails, the calls come in the order symlink, commit, restart, cleanup. */
  lemma RollbackInStepOrder(d: Disk, agentName: string, prevHash: string, currentHash: string, env: Env)
    ensures InStepOrder(RollbackSpec(d, agentName, prevHash, currentHash, env).events)
  {
    var e1 := [ChangeSymlink(prevHash)];
    var e2 := e1 + [UpdateActiveCommit(prevHash)];
    assert InStepOrder(e1);
    InStepOrderAppend(e1, [UpdateActiveCommit(prevHash)], 1);
    if env.symlinkOk && env.commitOk {
      var d2 := d.(symlink := prevHash, activeCommit := prevHash);
      var r := RestartSpec(d2, env);
      RestartPhase(d2, env);
      InStepOrderAppend(e2, r.events, 2);
      if r.err.None? {
        CleanupPhase(r.disk, agentName, prevHash, true, env);
        InStepOrderAppend(e2 + r.events, CleanupSpec(r.disk, agentName, prevHash, true, env).events, 3);
      }
    }
  }

  /** A failed symlink switch ends the rollback: one call, nothing changed. */
  lemma RollbackSymlinkFails(d: Disk, agentName: string, prevHash: string, currentHash: string, env: Env)
    requires !env.symlinkOk
    ensures var o := RollbackSpec(d, agentName, prevHash, currentHash, env);
            o.err == Some(SymlinkFailed(prevHash)) && o.events == [ChangeSymlink(prevHash)] && o.disk == d
  {
  }

  /** A failed commit update ends the rollback, and the symlink stays switched. */
  lemma RollbackCommitFails(d: Disk, agentName: string, prevHash: string, currentHash: string, env: Env)
    requires env.symlinkOk && !env.commitOk
    ensures var o := RollbackSpec(d, agentName, prevHash, currentHash, env);
            && o.err == Some(CommitFailed(prevHash))
            && o.events == [ChangeSymlink(prevHash), UpdateActiveCommit(prevHash)]
            && o.disk == d.(symlink := prevHash)
  {
  }

  /**
   * A failed restart ends the rollback with the last attempt's error: no
   * cleanup call is made, the symlink and the commit stay switched, and the
   * marker and the install directories are untouched.
   */
  lemma RollbackRestartFails(d: Disk, agentName: string, prevHash: string, currentHash: string, env: Env)
    requires env.symlinkOk && env.commitOk
    requires forall k :: 0 <= k < MaxRestartCount ==> env.attempt(k) != Succeeds
    ensures var o := RollbackSpec(d, agentName, prevHash, currentHash, env);
            && o.err == AttemptError(env.attempt(MaxRestartCount - 1))
            && o.disk == d.(symlink := prevHash, activeCommit := prevHash)
            && (forall e :: e in o.events ==> Phase(e) <= 2)
            && Connects(o.events) == MaxRestartCount
  {
    var d2 := d.(symlink := prevHash, activeCommit := prevHash);
    var e2 := [ChangeSymlink(prevHash)] + [UpdateActiveCommit(prevHash)];
    var r := RestartSpec(d2, env);
    RestartExhausted(d2, env);
    assert RollbackSpec(d, agentName, prevHash, currentHash, env).events == e2 + r.events;
    RestartPhase(d2, env);
    RestartBounded(d2, env);
    SwitchEventsQuiet(prevHash);
    CountsAppend(e2, r.events);
  }

  /** The two calls of the switch neither connect nor remove a directory. */
  lemma SwitchEventsQuiet(prevHash: string)
    ensures var e2 := [ChangeSymlink(prevHash)] + [UpdateActiveCommit(prevHash)];
            Connects(e2) == 0 && RemovedDirs(e2) == []
  {
    var e1 := [ChangeSymlink(prevHash)];
    var u := [UpdateActiveCommit(prevHash)];
    CountsOne(ChangeSymlink(prevHash));
    CountsOne(UpdateActiveCommit(prevHash));
    CountsAppend(e1, u);
    assert e1[..0] == [] && u[..0] == [];
    assert RemovedDirs(e1) == [] && RemovedDirs(u) == [];
    RemovedDirsAppend(e1, u);
  }

  /**
   * When the switch and the restart succeed, the rollback returns what the
   * cleanup of every version but `prevHash` returns, with the marker removal
   * requested, and ends with the symlink and the commit on `prevHash`.
   */
  lemma RollbackEndsWithCleanup(d: Disk, agentName: string, prevHash: string, currentHash: string, env: Env, k: nat)
    requires env.symlinkOk && env.commitOk
    requires k < MaxRestartCount && env.attempt(k) == Succeeds
    ensures var o := RollbackSpec(d, agentName, prevHash, currentHash, env);
            var c := CleanupSpec(d.(symlink := prevHash, activeCommit := prevHash), agentName, prevHash, true, env);
            && o.err == c.err && o.disk == c.disk
            && o.disk.symlink == prevHash && o.disk.activeCommit == prevHash
            && (env.markerOk ==> !o.disk.marker)
            && RequestRestart(true) in o.events
            && (Sweeps(true, env) ==> RemovedDirs(o.events) == Candidates(d.dataRoot, agentName, prevHash))
  {
    var d2 := d.(symlink := prevHash, activeCommit := prevHash);
    var e2 := [ChangeSymlink(prevHash)] + [UpdateActiveCommit(prevHash)];
    RestartSucceedsIff(d2, env);
    RestartAcceptedIffNil(d2, env);
    CleanupOnlyCleanupEvents(d2, agentName, prevHash, true, env);
    var r := RestartSpec(d2, env);
    var c := CleanupSpec(d2, agentName, prevHash, true, env);
    assert e2 + r.events + c.events == RollbackSpec(d, agentName, prevHash, currentHash, env).events;
    if Sweeps(true, env) {
      SwitchEventsQuiet(prevHash);
      RestartOnlyRestartEvents(d2, env);
      NoRemovalsWithoutRemovePath(r.events);
      RemovedDirsAppend(e2, r.events);
      RemovedDirsAppend(e2 + r.events, c.events);
      SweepRemovals(d2, agentName, prevHash, true, env);
    }
  }

  /** Rollback never tries to remove the install directory of the version it rolls back to. */
  lemma RollbackKeepsTarget(d: Disk, agentName: string, prevHash: string, currentHash: string, env: Env)
    ensures var o := RollbackSpec(d, agentName, prevHash, currentHash, env);
            && CurrentDir(agentName, prevHash) !in RemovedDirs(o.events)
            && (CurrentDir(agentName, prevHash) in d.dataRoot ==> CurrentDir(agentName, prevHash) in o.disk.dataRoot)
  {
    var o := RollbackSpec(d, agentName, prevHash, currentHash, env);
    var target := CurrentDir(agentName, prevHash);
    var e1 := [ChangeSymlink(prevHash)];
    var e2 := e1 + [UpdateActiveCommit(prevHash)];
    assert RemovedDirs(e1) == [] by { assert e1[..0] == []; }
    assert RemovedDirs(e2) == [] by { assert e2[..1] == e1; }
    if env.symlinkOk && env.commitOk {
      var d2 := d.(symlink := prevHash, activeCommit := prevHash);
      var r := RestartSpec(d2, env);
      RestartOnlyRestartEvents(d2, env);
      NoRemovalsWithoutRemovePath(r.events);
      RemovedDirsAppend(e2, r.events);
      if r.err.None? {
        var c := CleanupSpec(r.disk, agentName, prevHash, true, env);
        CleanupSparesCurrentDir(r.disk, agentName, prevHash, true, env);
        RemovedDirsAppend(e2 + r.events, c.events);
      }
    }
  }

  lemma {:induction false} NoRemovalsWithoutRemovePath(ev: seq<Event>)
    requires forall e :: e in ev ==> !e.RemovePath?
    ensures RemovedDirs(ev) == []
  {
    if ev != [] {
      assert ev[|ev| - 1] in ev;
      forall e | e in ev[..|ev| - 1] ensures !e.RemovePath? {
        assert e in ev;
      }
      NoRemovalsWithoutRemovePath(ev[..|ev| - 1]);
    }
  }

  /** The hash of the version being abandoned has no influence at all. */
  lemma RollbackIgnoresCurrentHash(d: Disk, agentName: string, prevHash: string, h1: string, h2: string, env: Env)
    ensures RollbackSpec(d, agentName, prevHash, h1, env) == RollbackSpec(d, agentName, prevHash, h2, env)
  {
  }

  // ---------------------------------------------------------------------
  // Properties of InvokeWatcher

  /**
   * Not upgradeable: nil, no process started, nothing changed. Otherwise one
   * start with the watch subcommand; nil exactly when it starts; the handle
   * is released once, after the start, exactly when a process exists.
   */
  lemma InvokeWatcherContract(d: Disk, env: Env)
    ensures var o := InvokeWatcherSpec(d, env);
            && o.disk == d
            && (!env.upgradeable ==> o.err == None && o.events == [])
            && (env.upgradeable ==>
                  && (o.err == None <==> env.startOk)
                  && o.events[0] == StartWatcher(WatcherSubcommand)
                  && (ReleaseWatcher in o.events <==> env.processExists)
                  && (forall i :: 0 < i < |o.events| ==> o.events[i] == ReleaseWatcher)
                  && |o.events| == (if env.processExists then 2 else 1))
  {
  }
}
