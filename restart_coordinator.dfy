/**
 * The restart coordinator of the upgrade path: ask the running daemon,
 * over its control socket, to restart itself, with one backoff wait before
 * each of at most MaxRestartCount attempts.
 */
module RestartCoordinator {
  import opened Wrappers
  import opened UpgradeTypes

  /** The calls one attempt makes: connect; if connected, the restart request and the deferred disconnect. */
  function AttemptEvents(a: Attempt): seq<Event> {
    match a
    case ConnectFails => [Connect(false)]
    case RestartFails => [Connect(true), RequestRestart(false), Disconnect]
    case Succeeds => [Connect(true), RequestRestart(true), Disconnect]
  }

  /** The error one attempt returns: a network error when it cannot connect, an RPC error when the request fails. */
  function AttemptError(a: Attempt): Option<Error> {
    match a
    case ConnectFails => Some(NetworkError)
    case RestartFails => Some(RpcError)
    case Succeeds => None
  }

  /** The first attempt, counting from `k`, that succeeds; MaxRestartCount when none of them does. */
  function FirstSuccess(attempt: nat -> Attempt, k: nat): (j: nat)
    requires k <= MaxRestartCount
    ensures k <= j <= MaxRestartCount
    ensures j < MaxRestartCount ==> attempt(j) == Succeeds
    ensures forall i :: k <= i < j ==> attempt(i) != Succeeds
    decreases MaxRestartCount - k
  {
    if k == MaxRestartCount then MaxRestartCount
    else if attempt(k) == Succeeds then k
    else FirstSuccess(attempt, k + 1)
  }

  /** Number of attempts the coordinator makes. */
  function AttemptsMade(attempt: nat -> Attempt): nat {
    var j := FirstSuccess(attempt, 0);
    if j < MaxRestartCount then j + 1 else MaxRestartCount
  }

  /** The calls of the first `n` rounds: each is one backoff wait followed by one attempt. */
  function Rounds(attempt: nat -> Attempt, n: nat): seq<Event> {
    if n == 0 then [] else Rounds(attempt, n - 1) + [BackoffWait] + AttemptEvents(attempt(n - 1))
  }

  /**
   * restartAgent: rounds until the first success or until the budget is
   * spent. On success the cancellation channel is closed and nil returned;
   * otherwise the last attempt's error is returned.
   */
  function RestartSpec(d: Disk, env: Env): Outcome {
    var j := FirstSuccess(env.attempt, 0);
    if j < MaxRestartCount then Outcome(None, d, Rounds(env.attempt, j + 1) + [CloseSignal])
    else Outcome(AttemptError(env.attempt(MaxRestartCount - 1)), d, Rounds(env.attempt, MaxRestartCount))
  }

  /** Number of backoff waits in an event log. */
  function Waits(ev: seq<Event>): nat {
    if ev == [] then 0 else Waits(ev[..|ev| - 1]) + (if ev[|ev| - 1] == BackoffWait then 1 else 0)
  }

  /** Number of connection attempts in an event log. */
  function Connects(ev: seq<Event>): nat {
    if ev == [] then 0 else Connects(ev[..|ev| - 1]) + (if ev[|ev| - 1].Connect? then 1 else 0)
  }

  /**
   * The calls around position `j` keep the coordinator's discipline: every
   * connect comes right after a wait; a failed connect is followed by the next
   * wait or by nothing; a successful connect is followed by the restart
   * request, the request by the disconnect; a disconnect only follows a
   * request, and a request only follows a successful connect.
   */
  predicate StepOk(ev: seq<Event>, j: nat)
    requires j < |ev|
  {
    && (ev[j].Connect? ==> j > 0 && ev[j - 1] == BackoffWait)
    && (ev[j] == Connect(false) ==> j + 1 == |ev| || ev[j + 1] == BackoffWait)
    && (ev[j] == Connect(true) ==> j + 1 < |ev| && ev[j + 1].RequestRestart?)
    && (ev[j].RequestRestart? ==> j > 0 && ev[j - 1] == Connect(true) && j + 1 < |ev| && ev[j + 1] == Disconnect)
    && (ev[j] == Disconnect ==> j > 0 && ev[j - 1].RequestRestart?)
  }

  predicate Disciplined(ev: seq<Event>) {
    forall j :: 0 <= j < |ev| ==> StepOk(ev, j)
  }

  predicate IsRestartEvent(e: Event) {
    e.BackoffWait? || e.Connect? || e.RequestRestart? || e.Disconnect? || e.CloseSignal?
  }

  // ---------------------------------------------------------------------
  // Building blocks

  lemma {:induction false} CountsAppend(a: seq<Event>, b: seq<Event>)
    ensures Waits(a + b) == Waits(a) + Waits(b)
    ensures Connects(a + b) == Connects(a) + Connects(b)
  {
    if b != [] {
      CountsAppend(a, b[..|b| - 1]);
      assert (a + b)[..|a + b| - 1] == a + b[..|b| - 1];
    } else {
      assert a + b == a;
    }
  }

  lemma CountsOne(e: Event)
    ensures Waits([e]) == (if e == BackoffWait then 1 else 0)
    ensures Connects([e]) == (if e.Connect? then 1 else 0)
  {
    assert [e][..0] == [];
  }

  lemma AttemptCounts(a: Attempt)
    ensures Waits(AttemptEvents(a)) == 0 && Connects(AttemptEvents(a)) == 1
  {
    var ae := AttemptEvents(a);
    CountsOne(ae[0]);
    if a != ConnectFails {
      CountsOne(ae[1]);
      CountsOne(ae[2]);
      CountsAppend([ae[0]], [ae[1]]);
      CountsAppend([ae[0], ae[1]], [ae[2]]);
      assert ae == [ae[0], ae[1]] + [ae[2]];
    }
  }

  lemma {:induction false} RoundsCounts(attempt: nat -> Attempt, n: nat)
    ensures Waits(Rounds(attempt, n)) == n && Connects(Rounds(attempt, n)) == n
  {
    if n > 0 {
      RoundsCounts(attempt, n - 1);
      var b := Rounds(attempt, n - 1);
      CountsAppend(b, [BackoffWait]);
      CountsAppend(b + [BackoffWait], AttemptEvents(attempt(n - 1)));
      CountsOne(BackoffWait);
      AttemptCounts(attempt(n - 1));
    }
  }

  /** Appending one more round to a disciplined log keeps it disciplined. */
  lemma {:induction false} DisciplinedRound(b: seq<Event>, a: Attempt)
    requires Disciplined(b)
    ensures Disciplined(b + [BackoffWait] + AttemptEvents(a))
  {
    var ev := b + [BackoffWait] + AttemptEvents(a);
    forall j | 0 <= j < |ev| ensures StepOk(ev, j) {
      if j < |b| {
        assert StepOk(b, j);
        assert ev[j] == b[j];
        if j > 0 { assert ev[j - 1] == b[j - 1]; }
        if j + 1 < |b| { assert ev[j + 1] == b[j + 1]; }
      }
    }
  }

  lemma {:induction false} RoundsDisciplined(attempt: nat -> Attempt, n: nat)
    ensures Disciplined(Rounds(attempt, n))
  {
    if n > 0 {
      RoundsDisciplined(attempt, n - 1);
      DisciplinedRound(Rounds(attempt, n - 1), attempt(n - 1));
    }
  }

  lemma {:induction false} RoundsStartWithWait(attempt: nat -> Attempt, n: nat)
    requires n > 0
    ensures Rounds(attempt, n)[0] == BackoffWait
  {
    if n > 1 {
      RoundsStartWithWait(attempt, n - 1);
    }
  }

  lemma {:induction false} RoundsOnlyRestartEvents(attempt: nat -> Attempt, n: nat)
    ensures forall e :: e in Rounds(attempt, n) ==> IsRestartEvent(e) && !e.CloseSignal?
  {
    if n > 0 {
      RoundsOnlyRestartEvents(attempt, n - 1);
    }
  }

  /** Round i of the log records the i-th attempt, so an accepted request appears iff some attempt so far succeeded. */
  lemma {:induction false} RoundsAccepted(attempt: nat -> Attempt, n: nat)
    ensures RequestRestart(true) in Rounds(attempt, n) <==> exists i :: 0 <= i < n && attempt(i) == Succeeds
  {
    if n > 0 {
      RoundsAccepted(attempt, n - 1);
      var b := Rounds(attempt, n - 1);
      var ae := AttemptEvents(attempt(n - 1));
      assert RequestRestart(true) in b + [BackoffWait] + ae <==> RequestRestart(true) in b || RequestRestart(true) in ae;
      if attempt(n - 1) == Succeeds {
        assert ae[1] == RequestRestart(true);
      }
    }
  }

  // ---------------------------------------------------------------------
  // Properties of restartAgent

  /**
   * One attempt: it fails with a network error exactly when it cannot
   * connect, and then makes no request and no disconnect; it disconnects
   * exactly when it connected; it returns nil exactly when the daemon
   * accepted the request.
   */
  lemma AttemptOutcome(a: Attempt)
    ensures AttemptError(a) == Some(NetworkError) <==> AttemptEvents(a) == [Connect(false)]
    ensures Disconnect in AttemptEvents(a) <==> Connect(true) in AttemptEvents(a)
    ensures AttemptError(a) == None <==> RequestRestart(true) in AttemptEvents(a)
    ensures AttemptEvents(a)[0].Connect?
  {
  }

  /** It makes between one and MaxRestartCount attempts, with exactly one wait per attempt. */
  lemma RestartBounded(d: Disk, env: Env)
    ensures var o := RestartSpec(d, env);
            && 1 <= AttemptsMade(env.attempt) <= MaxRestartCount
            && Connects(o.events) == AttemptsMade(env.attempt)
            && Waits(o.events) == AttemptsMade(env.attempt)
  {
    var n := AttemptsMade(env.attempt);
    RoundsCounts(env.attempt, n);
    if FirstSuccess(env.attempt, 0) < MaxRestartCount {
      CountsAppend(Rounds(env.attempt, n), [CloseSignal]);
      assert [CloseSignal][..0] == [];
    }
  }

  /**
   * The log starts with a wait, so even the first attempt waits; every
   * connect comes right after its own wait; and the connect, request and
   * disconnect discipline holds throughout.
   */
  lemma RestartWaitsBeforeEachAttempt(d: Disk, env: Env)
    ensures var ev := RestartSpec(d, env).events;
            && |ev| > 0 && ev[0] == BackoffWait
            && Disciplined(ev)
  {
    var n := AttemptsMade(env.attempt);
    RoundsStartWithWait(env.attempt, n);
    RoundsDisciplined(env.attempt, n);
    if FirstSuccess(env.attempt, 0) < MaxRestartCount {
      var b := Rounds(env.attempt, n);
      var ev := b + [CloseSignal];
      assert b == Rounds(env.attempt, n - 1) + [BackoffWait] + AttemptEvents(Succeeds);
      assert b[|b| - 1] == Disconnect;
      forall j | 0 <= j < |ev| ensures StepOk(ev, j) {
        if j < |b| {
          assert StepOk(b, j);
          assert ev[j] == b[j];
          if j > 0 { assert ev[j - 1] == b[j - 1]; }
          if j + 1 < |b| { assert ev[j + 1] == b[j + 1]; }
        }
      }
    }
  }

  /** It stops at the first attempt that succeeds, and returns nil. */
  lemma RestartStopsAtFirstSuccess(d: Disk, env: Env, k: nat)
    requires k < MaxRestartCount && env.attempt(k) == Succeeds
    requires forall i :: 0 <= i < k ==> env.attempt(i) != Succeeds
    ensures RestartSpec(d, env).err == None && AttemptsMade(env.attempt) == k + 1
  {
  }

  /** It returns nil iff one of the budgeted attempts succeeds. */
  lemma RestartSucceedsIff(d: Disk, env: Env)
    ensures RestartSpec(d, env).err == None
            <==> exists k :: 0 <= k < MaxRestartCount && env.attempt(k) == Succeeds
  {
    var j := FirstSuccess(env.attempt, 0);
    if j < MaxRestartCount {
      assert env.attempt(j) == Succeeds;
    } else {
      assert AttemptError(env.attempt(MaxRestartCount - 1)) != None;
    }
  }

  /** When every attempt fails it makes exactly MaxRestartCount of them and returns the last one's error. */
  lemma RestartExhausted(d: Disk, env: Env)
    requires forall k :: 0 <= k < MaxRestartCount ==> env.attempt(k) != Succeeds
    ensures var o := RestartSpec(d, env);
            && AttemptsMade(env.attempt) == MaxRestartCount
            && o.err == AttemptError(env.attempt(MaxRestartCount - 1))
            && (o.err == Some(NetworkError) || o.err == Some(RpcError))
            && o.events == Rounds(env.attempt, MaxRestartCount - 1) + [BackoffWait]
                           + AttemptEvents(env.attempt(MaxRestartCount - 1))
  {
  }

  /** The daemon accepts a restart request in the log exactly when restartAgent returns nil. */
  lemma RestartAcceptedIffNil(d: Disk, env: Env)
    ensures var o := RestartSpec(d, env);
            RequestRestart(true) in o.events <==> o.err == None
  {
    var o := RestartSpec(d, env);
    var j := FirstSuccess(env.attempt, 0);
    RoundsAccepted(env.attempt, AttemptsMade(env.attempt));
    if j < MaxRestartCount {
      assert RequestRestart(true) in Rounds(env.attempt, j + 1);
    } else {
      assert AttemptError(env.attempt(MaxRestartCount - 1)) != None;
    }
  }

  /** The cancellation channel is closed exactly on the success path. */
  lemma RestartClosesSignalOnSuccess(d: Disk, env: Env)
    ensures var o := RestartSpec(d, env);
            CloseSignal in o.events <==> o.err == None
  {
    var n := AttemptsMade(env.attempt);
    RoundsOnlyRestartEvents(env.attempt, n);
    if FirstSuccess(env.attempt, 0) >= MaxRestartCount {
      assert AttemptError(env.attempt(MaxRestartCount - 1)) != None;
    }
  }

  /** Every call the coordinator makes belongs to it, and it changes no persisted state. */
  lemma RestartOnlyRestartEvents(d: Disk, env: Env)
    ensures var o := RestartSpec(d, env);
            o.disk == d && forall e :: e in o.events ==> IsRestartEvent(e)
  {
    RoundsOnlyRestartEvents(env.attempt, AttemptsMade(env.attempt));
  }

  /** Four failed attempts and a fifth that succeeds: nil after exactly five attempts and five waits. */
  lemma ScenarioFifthAttemptSucceeds(d: Disk, env: Env)
    requires forall k :: 0 <= k < 4 ==> env.attempt(k) != Succeeds
    requires env.attempt(4) == Succeeds
    ensures var o := RestartSpec(d, env);
            o.err == None && Connects(o.events) == 5 && Waits(o.events) == 5
  {
    RestartStopsAtFirstSuccess(d, env, 4);
    RestartBounded(d, env);
  }
}
