/**
 * Shared vocabulary of the upgrade rollback path: the persisted state it
 * touches, the errors it returns, the calls it makes on its collaborators
 * (logged as events), and the outcomes those collaborators report.
 */
module UpgradeTypes {
  import opened Wrappers

  /** Name of the subcommand the watcher process is started with. */
  const WatcherSubcommand: string := "watch"

  /** Restart attempt budget of the restart coordinator. */
  const MaxRestartCount: nat := 5

  /** Initial and largest backoff delay, in seconds; the model counts waits and does not time them. */
  const RestartBackoffInitSeconds: nat := 5
  const RestartBackoffMaxSeconds: nat := 90

  /** The errors the rollback path can return. */
  datatype Error =
    | SymlinkFailed(hash: string)      // repointing the current-version symlink failed
    | CommitFailed(hash: string)       // persisting the active commit failed
    | NetworkError                     // the daemon's control socket could not be reached
    | RpcError                         // the daemon failed or refused the restart request
    | MarkerFailed                     // removing the upgrade marker failed
    | OpenFailed                       // the data root could not be opened
    | ListFailed                       // the data root could not be listed
    | RemoveFailed(dirs: seq<string>)  // combined error: every install directory whose removal failed
    | StartFailed                      // the watcher process could not be started

  /** One call made on a collaborator, in the order the calls are issued. */
  datatype Event =
    | ChangeSymlink(hash: string)
    | UpdateActiveCommit(hash: string)
    | BackoffWait                      // one backoff wait of the restart coordinator
    | Connect(connected: bool)         // connecting to the control socket, and whether it worked
    | RequestRestart(accepted: bool)   // the restart request, and whether the daemon accepted it
    | Disconnect
    | CloseSignal                      // the backoff's cancellation channel is closed
    | GraceDelay                       // the fixed delay before cleanup touches the disk
    | CleanMarker
    | RemovePrevSymlink
    | RemovePath(dir: string)
    | StartWatcher(arg: string)
    | ReleaseWatcher

  /** What one restart attempt runs into. */
  datatype Attempt = ConnectFails | RestartFails | Succeeds

  /**
   * The collaborators, as oracles: the outcome of every fallible call the
   * rollback path makes on the filesystem, the control socket and the
   * process table.
   */
  datatype Env = Env(
    symlinkOk: bool,              // ChangeSymlink succeeds
    commitOk: bool,               // UpdateActiveCommit succeeds
    attempt: nat -> Attempt,      // outcome of the k-th restart attempt, counting from 0
    markerOk: bool,               // CleanMarker succeeds
    openOk: bool,                 // the data root can be opened
    listOk: bool,                 // the data root can be listed
    prevSymlinkOk: bool,          // removing the legacy symlink succeeds
    removeOk: string -> bool,     // removing the install directory of that name succeeds
    upgradeable: bool,            // the installation can be upgraded (and so watched)
    startOk: bool,                // the watcher process starts
    processExists: bool)          // the command holds a process handle after the start

  /** The persisted state the rollback path reads and changes. */
  datatype Disk = Disk(
    symlink: string,              // hash the current-version symlink points at
    activeCommit: string,         // hash in the active-commit record
    marker: bool,                 // the upgrade marker is present
    prevSymlink: bool,            // the legacy symlink is present
    dataRoot: seq<string>)        // entry names of the data root, in listing order

  /** What one operation returns, the state it leaves, and the calls it made. */
  datatype Outcome = Outcome(err: Option<Error>, disk: Disk, events: seq<Event>)

  /** Regrouping a concatenation, used to line event logs up with their specifications. */
  lemma AppendAssoc<T>(a: seq<T>, b: seq<T>, c: seq<T>)
    ensures a + (b + c) == (a + b) + c
  {
  }
}
