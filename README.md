# Upgrade rollback path of the Elastic Agent, in Dafny

This project models the rollback control path of the agent's self-upgrade
package (`internal/pkg/agent/application/upgrade/rollback.go`). It also models
the license-header lookup of the development tools
(`dev-tools/licenses/license_header.go`).

The rollback path reverts the agent to a previous version. It is a
fail-fast sequence. First it repoints the current-version symlink. Then it
rewrites the active-commit record and asks the running daemon to restart,
over its control socket, with bounded retries. Last it runs the cleanup
sweep, which removes the upgrade marker and every install directory
`<agentName>-<hash>` except the one rolled back to. `InvokeWatcher` starts
the watcher subprocess after an upgrade.

Every effect goes to a collaborator that is not shown: the filesystem, the
control socket, the process table and the clock. Each one is an oracle. The
`Env` datatype gives the outcome of each fallible call: per install directory
for removals, and per attempt number for restart attempts. The persisted
state is the symlink target, the active commit, the marker, the legacy
symlink and the listing of the data root. It lives in the fields of the
class `UpgradeHost.Host`. A ghost field `trace` logs every collaborator call,
in order, as an `Event`.

Each operation is an imperative method of `Host`:

- `Rollback` and `InvokeWatcher` are straight-line code with early returns.
- `Cleanup` runs a `for` loop over the listing, in the helper `RemoveStaleDirs`.
- `RestartAgent` runs the count-down `while` loop, calling `RestartOnce` (the `restartFn` closure).

Each method is proved equal to a pure specification function
(`CleanupSpec`, `RestartSpec`, `RollbackSpec`, `InvokeWatcherSpec`). Each
function returns an `Outcome`: the error, the new state and the calls made.
The lemmas about those functions state what the source promises.

Files:

- `wrappers.dfy` (module `Wrappers`): the `Option` type shared by both parts.
- `upgrade_types.dfy` (module `UpgradeTypes`): constants, errors, events, oracles, state.
- `cleanup_sweep.dfy` (module `CleanupSweep`): the `Cleanup` specification and its properties.
- `restart_coordinator.dfy` (module `RestartCoordinator`): the `restartAgent` specification and its properties.
- `rollback_flow.dfy` (module `RollbackFlow`): the `Rollback` and `InvokeWatcher` specifications and their properties.
- `host.dfy` (module `UpgradeHost`): the class `Host` and its methods.
- `licenses.dfy` (module `Licenses`): `Find` and the two header texts.

In the code, `close(signal)` is reached only on success, because the
exhausted path returns from inside the loop
(`internal/pkg/agent/application/upgrade/rollback.go:159-164`). So the model
closes the signal only on success (`RestartClosesSignalOnSuccess`).

## Model

| member | source | states |
|---|---|---|
| `Licenses.Find` | dev-tools/licenses/license_header.go:23-32 | the error is nil exactly for "Elastic" and "Elasticv2"; every other name gives the empty text and the message "unknown license: " followed by the name; "Elastic" gives the Elastic text and "Elasticv2" the Elasticv2 text |
| `Licenses.TextsDiffer` | dev-tools/licenses/license_header.go:11-21 | the Elastic and Elasticv2 header texts differ |
| `Licenses.FindInjective` | dev-tools/licenses/license_header.go:23-30 | two accepted names give the same text iff they are the same name |
| `Licenses.UnknownMessageNamesLicense` | dev-tools/licenses/license_header.go:31 | two unknown names give the same error iff they are the same name |
| `CleanupSweep.CandidatesMember` | internal/pkg/agent/application/upgrade/rollback.go:92-101 | an entry is tried iff it is in the listing, is not `agentName-currentHash` and starts with `agentName-` |
| `CleanupSweep.CandidatesCount` | internal/pkg/agent/application/upgrade/rollback.go:94-107 | each occurrence of a candidate in the listing is tried exactly once; other entries are tried zero times |
| `CleanupSweep.CandidatesAppend` | internal/pkg/agent/application/upgrade/rollback.go:94 | the candidates of a listing `a + b` are those of `a` followed by those of `b` |
| `CleanupSweep.FailedMember` | internal/pkg/agent/application/upgrade/rollback.go:104-106 | a name is in the combined error iff it was tried and its removal failed |
| `CleanupSweep.FailedEmpty` | internal/pkg/agent/application/upgrade/rollback.go:104-109 | the combined error is empty iff every tried removal succeeded |
| `CleanupSweep.CleanupSparesCurrentDir` | internal/pkg/agent/application/upgrade/rollback.go:93-97 | Cleanup never tries to remove `agentName-currentHash`, and that directory survives |
| `CleanupSweep.CleanupSparesUnprefixed` | internal/pkg/agent/application/upgrade/rollback.go:92-101 | an entry without the `agentName-` prefix is never tried, and it is present afterwards iff it was before |
| `CleanupSweep.CleanupTriesEachCandidateOnce` | internal/pkg/agent/application/upgrade/rollback.go:94-107 | once the sweep runs, each listed candidate is tried exactly as often as it is listed, and nothing else is tried |
| `CleanupSweep.CleanupKeepsListingOrder` | internal/pkg/agent/application/upgrade/rollback.go:94-107 | once the sweep runs, removals follow listing order: those of `a` come before those of `b` |
| `CleanupSweep.CleanupResult` | internal/pkg/agent/application/upgrade/rollback.go:68-109 | once the sweep runs, the result is nil iff no tried removal failed; otherwise it holds exactly the failed ones; an entry is gone afterwards iff it was a candidate and its removal succeeded; the marker is gone if its removal was asked for and unchanged otherwise; the grace delay is the first call; the legacy symlink removal is tried, and the legacy symlink is gone iff it was there and its removal succeeded |
| `CleanupSweep.CleanupEarlyFailure` | internal/pkg/agent/application/upgrade/rollback.go:72-87 | a failed marker removal, open or listing returns that error before any directory is tried; the data root and the legacy symlink stay as they were; the marker is gone only if its removal was asked for and succeeded |
| `CleanupSweep.CleanupLeavesMarker` | internal/pkg/agent/application/upgrade/rollback.go:72-76 | without `removeMarker` the marker is neither touched nor changed |
| `CleanupSweep.CleanupOnlyCleanupEvents` | internal/pkg/agent/application/upgrade/rollback.go:68-110 | Cleanup makes only cleanup calls, the first being the grace delay, and it leaves the symlink and the active commit alone |
| `CleanupSweep.CleanupIgnoresPrevSymlinkError` | internal/pkg/agent/application/upgrade/rollback.go:89-90 | whether the legacy symlink can be removed changes neither the result, nor the data root, nor the calls made |
| `CleanupSweep.ScenarioAllRemoved` | internal/pkg/agent/application/upgrade/rollback.go:68-110 | with agent-aaa (current), agent-bbb, agent-ccc and scratch, Cleanup("aaa", true) removes agent-bbb and agent-ccc, keeps agent-aaa and scratch, removes the marker and returns nil |
| `CleanupSweep.ScenarioOneFails` | internal/pkg/agent/application/upgrade/rollback.go:94-109 | same layout, removal of agent-bbb fails: agent-ccc is still removed and the error names agent-bbb only |
| `RestartCoordinator.FirstSuccess` | internal/pkg/agent/application/upgrade/rollback.go:152-157 | the first attempt index from `k` whose attempt succeeds: every earlier one fails; the budget when none succeeds |
| `RestartCoordinator.AttemptOutcome` | internal/pkg/agent/application/upgrade/rollback.go:133-147 | an attempt gives a network error exactly when it cannot connect, and then makes no request; it disconnects exactly when it connected; nil exactly when the daemon accepts |
| `RestartCoordinator.RoundsAccepted` | internal/pkg/agent/application/upgrade/rollback.go:152-157 | the calls of the first n rounds contain an accepted restart request iff one of the first n attempts succeeds |
| `RestartCoordinator.RestartAcceptedIffNil` | internal/pkg/agent/application/upgrade/rollback.go:141-165 | the daemon accepts a restart request during restartAgent iff restartAgent returns nil |
| `RestartCoordinator.RestartBounded` | internal/pkg/agent/application/upgrade/rollback.go:41-153 | restartAgent makes between 1 and MaxRestartCount (5) attempts, with exactly one backoff wait per attempt |
| `RestartCoordinator.RestartWaitsBeforeEachAttempt` | internal/pkg/agent/application/upgrade/rollback.go:135-154 | the first call is a wait; every connect comes right after a wait; a request follows only a successful connect; every request is followed by the disconnect |
| `RestartCoordinator.RestartStopsAtFirstSuccess` | internal/pkg/agent/application/upgrade/rollback.go:154-157 | when attempt k succeeds and all earlier ones fail, restartAgent returns nil after exactly k+1 attempts |
| `RestartCoordinator.RestartSucceedsIff` | internal/pkg/agent/application/upgrade/rollback.go:152-165 | restartAgent returns nil iff one of the first MaxRestartCount attempts succeeds |
| `RestartCoordinator.RestartExhausted` | internal/pkg/agent/application/upgrade/rollback.go:159-161 | when every attempt fails it makes exactly MaxRestartCount attempts and returns the final attempt's network or RPC error; the log ends with the fifth wait and the fifth attempt's calls |
| `RestartCoordinator.RestartClosesSignalOnSuccess` | internal/pkg/agent/application/upgrade/rollback.go:159-165 | the cancellation channel is closed iff restartAgent returns nil |
| `RestartCoordinator.RestartOnlyRestartEvents` | internal/pkg/agent/application/upgrade/rollback.go:132-166 | restartAgent only waits, connects, requests, disconnects and closes the signal; it changes no persisted state |
| `RestartCoordinator.ScenarioFifthAttemptSucceeds` | internal/pkg/agent/application/upgrade/rollback.go:152-165 | four failures then a success: nil after exactly five attempts and five waits |
| `RollbackFlow.RollbackInStepOrder` | internal/pkg/agent/application/upgrade/rollback.go:47-65 | whatever fails, calls come in the order symlink, commit, restart, cleanup (that the restart and cleanup calls are present is stated by `RollbackRestartFails` and `RollbackEndsWithCleanup`) |
| `RollbackFlow.RollbackSymlinkFails` | internal/pkg/agent/application/upgrade/rollback.go:49-51 | a failed symlink switch returns its error after that single call, with nothing changed |
| `RollbackFlow.RollbackCommitFails` | internal/pkg/agent/application/upgrade/rollback.go:54-56 | a failed commit update returns its error; no restart or cleanup runs; the symlink stays switched |
| `RollbackFlow.RollbackRestartFails` | internal/pkg/agent/application/upgrade/rollback.go:59-61 | a failed restart returns the last attempt's error after exactly MaxRestartCount connect attempts; no cleanup call is made; symlink and commit stay switched; marker and data root are untouched |
| `RollbackFlow.RollbackEndsWithCleanup` | internal/pkg/agent/application/upgrade/rollback.go:58-64 | after a successful switch and restart, the result and final state are those of Cleanup(prevHash, true), with symlink and commit on prevHash; the calls include the accepted restart request and, when the sweep runs, removals of exactly the candidates of the listing in order |
| `RollbackFlow.RollbackKeepsTarget` | internal/pkg/agent/application/upgrade/rollback.go:63-64 | Rollback never tries to remove the directory of the version it rolls back to, and that directory survives |
| `RollbackFlow.RollbackIgnoresCurrentHash` | internal/pkg/agent/application/upgrade/rollback.go:47 | the `currentHash` argument has no influence on anything |
| `RollbackFlow.InvokeWatcherContract` | internal/pkg/agent/application/upgrade/rollback.go:114-130 | not upgradeable: nil, no call, nothing changed; otherwise one start with "watch", nil iff it starts, then a single release exactly when a process exists, and no other call |
| `UpgradeHost.Host.Rollback` | internal/pkg/agent/application/upgrade/rollback.go:47-65 | the method's result, new state and calls are those of `RollbackSpec` |
| `UpgradeHost.Host.Cleanup` | internal/pkg/agent/application/upgrade/rollback.go:68-110 | the method's result, new state and calls are those of `CleanupSpec` |
| `UpgradeHost.Host.RemoveStaleDirs` | internal/pkg/agent/application/upgrade/rollback.go:92-107 | the loop tries exactly the candidates in listing order; it collects the failures and removes the successfully removed entries from the listing |
| `UpgradeHost.Host.InvokeWatcher` | internal/pkg/agent/application/upgrade/rollback.go:114-130 | the method's result and calls are those of `InvokeWatcherSpec` |
| `UpgradeHost.Host.RestartAgent` | internal/pkg/agent/application/upgrade/rollback.go:149-166 | the count-down loop's result and calls are those of `RestartSpec` |
| `UpgradeHost.Host.RestartOnce` | internal/pkg/agent/application/upgrade/rollback.go:133-147 | one attempt returns the attempt's error and makes the connect, request and deferred-disconnect calls the attempt allows |

## Left out

- Real time is not modelled. The post-restart delay `afterRestartDelay` is one counted `GraceDelay` event. Each backoff wait is one `BackoffWait` event. The exponential growth of the backoff and its 90-second cap live in `internal/pkg/core/backoff`, which is not part of this model. `RestartBackoffInitSeconds` and `RestartBackoffMaxSeconds` are declared and not used, so no claim is made that delays double.
- Filesystem effects are oracle outcomes: opening and listing the data root, `os.Remove`, `install.RemovePath`, `paths.*`. The bodies of `ChangeSymlink`, `UpdateActiveCommit`, `CleanMarker` and `IsUpgradeable` are not part of this model either. Each step is treated as atomic: a success applies its change and a failure leaves that piece of state unchanged.
- The combined removal error is the sequence of failed directory names. The text `go-multierror` would print is not modelled.
- The error wrapping of `restartFn` is not kept. The connect failure is typed as a network error (`errors.TypeNetwork`) and the model keeps that as `NetworkError`. The restart failure is wrapped with no type; `RpcError` is only the model's label for it. The message texts and the socket-address metadata (`control.Address()`) are not kept.
- The control client (`client.New`, gRPC `Connect`/`Restart`/`Disconnect`) is an oracle, one outcome per attempt.
- Process handling is reduced to `StartWatcher` and `ReleaseWatcher` events with oracle outcomes. This covers the watcher command built by `invokeCmd` from `paths.VersionedHome(paths.Top())`, `cmd.Start` and `Process.Release`. Whether a process handle exists is an oracle independent of the start outcome.
- Contexts and cancellation are left out. The `signal` channel appears only as the `CloseSignal` event.
- Logging (`log.Debug`, `log.Debugf`) has no effect on behaviour and is left out.
- The value of `agentName` is defined outside the core files. It is a parameter of `Host`, and every property holds for any name.
- `internal/pkg/agent/operation/operation.go` holds only interface declarations and a dispatch handler. It is not part of this model.
- Concurrent rollbacks are left out. `rollback.go` takes no lock; the model covers one flow at a time.
