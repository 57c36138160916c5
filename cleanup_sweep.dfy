/**
 * The cleanup sweep of the upgrade path: after a short grace delay it may
 * remove the upgrade marker, then lists the data root and tries to remove
 * every install directory of the agent except the one of the version it is
 * told to keep, collecting every failed removal into one combined error.
 */
module CleanupSweep {
  import opened Wrappers
  import opened UpgradeTypes

  /** Every install directory of the agent is named with this prefix. */
  function DirPrefix(agentName: string): string {
    agentName + "-"
  }

  /** Name of the install directory of the version with the given hash. */
  function CurrentDir(agentName: string, hash: string): string {
    agentName + "-" + hash
  }

  /** The sweep tries to remove exactly the entries for which this holds. */
  predicate IsCandidate(dir: string, agentName: string, currentHash: string) {
    dir != CurrentDir(agentName, currentHash) && DirPrefix(agentName) <= dir
  }

  /** The entries of a listing that the sweep tries to remove, in listing order. */
  function Candidates(s: seq<string>, agentName: string, currentHash: string): seq<string> {
    if s == [] then []
    else
      var rest := Candidates(s[..|s| - 1], agentName, currentHash);
      if IsCandidate(s[|s| - 1], agentName, currentHash) then rest + [s[|s| - 1]] else rest
  }

  /** The removals among `c` that fail, in order: the contents of the combined error. */
  function Failed(c: seq<string>, removeOk: string -> bool): seq<string> {
    if c == [] then []
    else
      var rest := Failed(c[..|c| - 1], removeOk);
      if removeOk(c[|c| - 1]) then rest else rest + [c[|c| - 1]]
  }

  /** The removal calls made for the directories `c`, one each, in order. */
  function Removals(c: seq<string>): seq<Event> {
    if c == [] then [] else Removals(c[..|c| - 1]) + [RemovePath(c[|c| - 1])]
  }

  /** The names among `c` whose removal succeeds. */
  function Removed(c: seq<string>, removeOk: string -> bool): set<string> {
    set d | d in c && removeOk(d)
  }

  /** A listing from which the entries named in `gone` have been removed. */
  function Without(s: seq<string>, gone: set<string>): seq<string> {
    if s == [] then []
    else
      var rest := Without(s[..|s| - 1], gone);
      if s[|s| - 1] in gone then rest else rest + [s[|s| - 1]]
  }

  /** The directories named by the removal calls of an event log, in order. */
  function RemovedDirs(ev: seq<Event>): seq<string> {
    if ev == [] then []
    else
      var rest := RemovedDirs(ev[..|ev| - 1]);
      if ev[|ev| - 1].RemovePath? then rest + [ev[|ev| - 1].dir] else rest
  }

  /**
   * Cleanup(currentHash, removeMarker): the grace delay, the optional marker
   * removal (whose failure aborts), opening and listing the data root (whose
   * failures abort), the legacy-symlink removal (whose failure is ignored),
   * then one removal attempt per candidate directory.
   */
  function CleanupSpec(d: Disk, agentName: string, currentHash: string, removeMarker: bool, env: Env): Outcome {
    var ev0 := [GraceDelay] + (if removeMarker then [CleanMarker] else []);
    if removeMarker && !env.markerOk then Outcome(Some(MarkerFailed), d, ev0)
    else
      var d1 := if removeMarker then d.(marker := false) else d;
      if !env.openOk then Outcome(Some(OpenFailed), d1, ev0)
      else if !env.listOk then Outcome(Some(ListFailed), d1, ev0)
      else
        var c := Candidates(d.dataRoot, agentName, currentHash);
        var failed := Failed(c, env.removeOk);
        Outcome(
          if failed == [] then None else Some(RemoveFailed(failed)),
          d1.(prevSymlink := d1.prevSymlink && !env.prevSymlinkOk,
              dataRoot := Without(d.dataRoot, Removed(c, env.removeOk))),
          ev0 + [RemovePrevSymlink] + Removals(c))
  }

  /** The calls the sweep makes. */
  predicate IsCleanupEvent(e: Event) {
    e.GraceDelay? || e.CleanMarker? || e.RemovePrevSymlink? || e.RemovePath?
  }

  /** The sweep itself runs: no early failure aborted it. */
  predicate Sweeps(removeMarker: bool, env: Env) {
    (removeMarker ==> env.markerOk) && env.openOk && env.listOk
  }

  // ---------------------------------------------------------------------
  // Properties of the building blocks

  lemma {:induction false} CandidatesMember(s: seq<string>, agentName: string, currentHash: string, x: string)
    ensures x in Candidates(s, agentName, currentHash) <==> x in s && IsCandidate(x, agentName, currentHash)
  {
    if s != [] {
      CandidatesMember(s[..|s| - 1], agentName, currentHash, x);
      assert s == s[..|s| - 1] + [s[|s| - 1]];
    }
  }

  /** Each occurrence of a candidate in the listing is tried exactly once; nothing else is tried. */
  lemma {:induction false} CandidatesCount(s: seq<string>, agentName: string, currentHash: string, x: string)
    ensures multiset(Candidates(s, agentName, currentHash))[x]
            == if IsCandidate(x, agentName, currentHash) then multiset(s)[x] else 0
  {
    if s != [] {
      CandidatesCount(s[..|s| - 1], agentName, currentHash, x);
      assert s == s[..|s| - 1] + [s[|s| - 1]];
    }
  }

  /** The candidates of a listing `a + b` are those of `a` followed by those of `b`: listing order is kept. */
  lemma {:induction false} CandidatesAppend(a: seq<string>, b: seq<string>, agentName: string, currentHash: string)
    ensures Candidates(a + b, agentName, currentHash)
            == Candidates(a, agentName, currentHash) + Candidates(b, agentName, currentHash)
  {
    if b != [] {
      CandidatesAppend(a, b[..|b| - 1], agentName, currentHash);
      assert (a + b)[..|a + b| - 1] == a + b[..|b| - 1];
    } else {
      assert a + b == a;
    }
  }

  lemma {:induction false} FailedMember(c: seq<string>, removeOk: string -> bool, x: string)
    ensures x in Failed(c, removeOk) <==> x in c && !removeOk(x)
  {
    if c != [] {
      FailedMember(c[..|c| - 1], removeOk, x);
      assert c == c[..|c| - 1] + [c[|c| - 1]];
    }
  }

  lemma {:induction false} FailedEmpty(c: seq<string>, removeOk: string -> bool)
    ensures Failed(c, removeOk) == [] <==> forall x :: x in c ==> removeOk(x)
  {
    if c != [] {
      FailedEmpty(c[..|c| - 1], removeOk);
      assert c == c[..|c| - 1] + [c[|c| - 1]];
    }
  }

  lemma {:induction false} RemovedDirsAppend(a: seq<Event>, b: seq<Event>)
    ensures RemovedDirs(a + b) == RemovedDirs(a) + RemovedDirs(b)
  {
    if b != [] {
      RemovedDirsAppend(a, b[..|b| - 1]);
      assert (a + b)[..|a + b| - 1] == a + b[..|b| - 1];
    } else {
      assert a + b == a;
    }
  }

  /** The removal calls for `c` name exactly `c`, in order. */
  lemma {:induction false} RemovedDirsOfRemovals(c: seq<string>)
    ensures RemovedDirs(Removals(c)) == c
  {
    if c != [] {
      RemovedDirsOfRemovals(c[..|c| - 1]);
      RemovedDirsAppend(Removals(c[..|c| - 1]), [RemovePath(c[|c| - 1])]);
      assert c == c[..|c| - 1] + [c[|c| - 1]];
    }
  }

  lemma {:induction false} WithoutMember(s: seq<string>, gone: set<string>, x: string)
    ensures x in Without(s, gone) <==> x in s && x !in gone
  {
    if s != [] {
      WithoutMember(s[..|s| - 1], gone, x);
      assert s == s[..|s| - 1] + [s[|s| - 1]];
    }
  }

  /** Removing one more name from a listing is removing the larger set of names. */
  lemma {:induction false} WithoutStep(s: seq<string>, gone: set<string>, x: string)
    ensures Without(Without(s, gone), {x}) == Without(s, gone + {x})
  {
    if s != [] {
      WithoutStep(s[..|s| - 1], gone, x);
      var r := Without(s[..|s| - 1], gone);
      if s[|s| - 1] !in gone {
        assert (r + [s[|s| - 1]])[..|r + [s[|s| - 1]]| - 1] == r;
      }
    }
  }

  /** One more entry of the listing, as the sweep's loop sees it. */
  lemma SweepStep(s: seq<string>, i: nat, agentName: string, currentHash: string, removeOk: string -> bool)
    requires i < |s|
    ensures var c := Candidates(s[..i], agentName, currentHash);
            var x := s[i];
            if IsCandidate(x, agentName, currentHash) then
              && Candidates(s[..i + 1], agentName, currentHash) == c + [x]
              && Failed(c + [x], removeOk) == (if removeOk(x) then Failed(c, removeOk) else Failed(c, removeOk) + [x])
              && Removals(c + [x]) == Removals(c) + [RemovePath(x)]
              && Removed(c + [x], removeOk) == (if removeOk(x) then Removed(c, removeOk) + {x} else Removed(c, removeOk))
            else Candidates(s[..i + 1], agentName, currentHash) == c
  {
    var c := Candidates(s[..i], agentName, currentHash);
    assert s[..i + 1][..i] == s[..i];
    assert (c + [s[i]])[..|c|] == c;
  }

  lemma {:induction false} WithoutNothing(s: seq<string>)
    ensures Without(s, {}) == s
  {
    if s != [] {
      WithoutNothing(s[..|s| - 1]);
      assert s == s[..|s| - 1] + [s[|s| - 1]];
    }
  }

  // ---------------------------------------------------------------------
  // Properties of the sweep

  /** The directory of the version to keep is never tried, and it survives the sweep. */
  lemma CleanupSparesCurrentDir(d: Disk, agentName: string, currentHash: string, removeMarker: bool, env: Env)
    ensures var o := CleanupSpec(d, agentName, currentHash, removeMarker, env);
            && CurrentDir(agentName, currentHash) !in RemovedDirs(o.events)
            && (CurrentDir(agentName, currentHash) in d.dataRoot ==> CurrentDir(agentName, currentHash) in o.disk.dataRoot)
  {
    var o := CleanupSpec(d, agentName, currentHash, removeMarker, env);
    var cur := CurrentDir(agentName, currentHash);
    if Sweeps(removeMarker, env) {
      var c := Candidates(d.dataRoot, agentName, currentHash);
      var ev0 := [GraceDelay] + (if removeMarker then [CleanMarker] else []);
      CandidatesMember(d.dataRoot, agentName, currentHash, cur);
      RemovedDirsAppend(ev0 + [RemovePrevSymlink], Removals(c));
      RemovedDirsOfRemovals(c);
      assert RemovedDirs(ev0 + [RemovePrevSymlink]) == [] by {
        assert RemovedDirs([GraceDelay]) == [];
        if removeMarker { assert RemovedDirs([GraceDelay, CleanMarker]) == []; }
        assert (ev0 + [RemovePrevSymlink])[..|ev0|] == ev0;
      }
      WithoutMember(d.dataRoot, Removed(c, env.removeOk), cur);
    } else {
      NoRemovalsBeforeSweep(removeMarker);
    }
  }

  lemma {:induction false} NoRemovalsBeforeSweep(removeMarker: bool)
    ensures RemovedDirs([GraceDelay] + (if removeMarker then [CleanMarker] else [])) == []
  {
    assert RemovedDirs([GraceDelay]) == [];
    if removeMarker {
      assert [GraceDelay, CleanMarker][..1] == [GraceDelay];
    }
  }

  /** The events of a sweep that ran: the removal calls name exactly the candidates, in listing order. */
  lemma {:induction false} SweepRemovals(d: Disk, agentName: string, currentHash: string, removeMarker: bool, env: Env)
    requires Sweeps(removeMarker, env)
    ensures RemovedDirs(CleanupSpec(d, agentName, currentHash, removeMarker, env).events)
            == Candidates(d.dataRoot, agentName, currentHash)
  {
    var c := Candidates(d.dataRoot, agentName, currentHash);
    var ev0 := [GraceDelay] + (if removeMarker then [CleanMarker] else []);
    NoRemovalsBeforeSweep(removeMarker);
    RemovedDirsAppend(ev0, [RemovePrevSymlink]);
    assert RemovedDirs([RemovePrevSymlink]) == [];
    RemovedDirsAppend(ev0 + [RemovePrevSymlink], Removals(c));
    RemovedDirsOfRemovals(c);
  }

  /** An entry without the agent's prefix is never tried and is still there afterwards. */
  lemma CleanupSparesUnprefixed(d: Disk, agentName: string, currentHash: string, removeMarker: bool, env: Env, x: string)
    requires !(DirPrefix(agentName) <= x)
    ensures var o := CleanupSpec(d, agentName, currentHash, removeMarker, env);
            && x !in RemovedDirs(o.events)
            && (x in o.disk.dataRoot <==> x in d.dataRoot)
  {
    if Sweeps(removeMarker, env) {
      var c := Candidates(d.dataRoot, agentName, currentHash);
      SweepRemovals(d, agentName, currentHash, removeMarker, env);
      CandidatesMember(d.dataRoot, agentName, currentHash, x);
      WithoutMember(d.dataRoot, Removed(c, env.removeOk), x);
    } else {
      NoRemovalsBeforeSweep(removeMarker);
    }
  }

  /**
   * A sweep that runs tries each candidate occurrence exactly once and
   * nothing else, and the removals of a listing `a + b` are those of `a`
   * followed by those of `b`.
   */
  lemma CleanupTriesEachCandidateOnce(d: Disk, agentName: string, currentHash: string, removeMarker: bool, env: Env, x: string)
    requires Sweeps(removeMarker, env)
    ensures multiset(RemovedDirs(CleanupSpec(d, agentName, currentHash, removeMarker, env).events))[x]
            == if IsCandidate(x, agentName, currentHash) then multiset(d.dataRoot)[x] else 0
  {
    SweepRemovals(d, agentName, currentHash, removeMarker, env);
    CandidatesCount(d.dataRoot, agentName, currentHash, x);
  }

  lemma CleanupKeepsListingOrder(a: seq<string>, b: seq<string>, d: Disk, agentName: string, currentHash: string, removeMarker: bool, env: Env)
    requires Sweeps(removeMarker, env) && d.dataRoot == a + b
    ensures RemovedDirs(CleanupSpec(d, agentName, currentHash, removeMarker, env).events)
            == Candidates(a, agentName, currentHash) + Candidates(b, agentName, currentHash)
  {
    SweepRemovals(d, agentName, currentHash, removeMarker, env);
    CandidatesAppend(a, b, agentName, currentHash);
  }

  /**
   * A sweep that runs succeeds iff every candidate removal succeeds; its
   * combined error holds exactly the candidates whose removal failed; an
   * entry is gone afterwards iff it was a candidate whose removal succeeded.
   * The marker is gone when its removal was asked for and is untouched
   * otherwise, the grace delay comes before every other call, and the
   * legacy symlink removal is tried and takes the symlink away when it works.
   */
  lemma CleanupResult(d: Disk, agentName: string, currentHash: string, removeMarker: bool, env: Env)
    requires Sweeps(removeMarker, env)
    ensures var o := CleanupSpec(d, agentName, currentHash, removeMarker, env);
            && (o.err.None? <==> forall x :: x in d.dataRoot && IsCandidate(x, agentName, currentHash) ==> env.removeOk(x))
            && (o.err.Some? ==>
                  && o.err.value.RemoveFailed?
                  && forall x :: x in o.err.value.dirs <==>
                       x in d.dataRoot && IsCandidate(x, agentName, currentHash) && !env.removeOk(x))
            && (forall x :: x in o.disk.dataRoot <==>
                  x in d.dataRoot && !(IsCandidate(x, agentName, currentHash) && env.removeOk(x)))
            && (removeMarker ==> !o.disk.marker)
            && (!removeMarker ==> o.disk.marker == d.marker)
            && o.events[0] == GraceDelay
            && RemovePrevSymlink in o.events
            && o.disk.prevSymlink == (d.prevSymlink && !env.prevSymlinkOk)
  {
    var c := Candidates(d.dataRoot, agentName, currentHash);
    FailedEmpty(c, env.removeOk);
    forall x ensures x in c <==> x in d.dataRoot && IsCandidate(x, agentName, currentHash) {
      CandidatesMember(d.dataRoot, agentName, currentHash, x);
    }
    forall x ensures x in Failed(c, env.removeOk) <==> x in c && !env.removeOk(x) {
      FailedMember(c, env.removeOk, x);
    }
    forall x ensures x in Without(d.dataRoot, Removed(c, env.removeOk)) <==> x in d.dataRoot && x !in Removed(c, env.removeOk) {
      WithoutMember(d.dataRoot, Removed(c, env.removeOk), x);
    }
  }

  /**
   * The early failures return before any directory is tried, leaving the
   * data root as it was: a failed marker removal leaves the marker too; a
   * failure to open or list the data root comes after the marker removal.
   */
  lemma CleanupEarlyFailure(d: Disk, agentName: string, currentHash: string, removeMarker: bool, env: Env)
    requires !Sweeps(removeMarker, env)
    ensures var o := CleanupSpec(d, agentName, currentHash, removeMarker, env);
            && RemovedDirs(o.events) == []
            && o.disk.dataRoot == d.dataRoot && o.disk.prevSymlink == d.prevSymlink
            && o.err == (if removeMarker && !env.markerOk then Some(MarkerFailed)
                         else if !env.openOk then Some(OpenFailed)
                         else Some(ListFailed))
            && o.disk.marker == (d.marker && !(removeMarker && env.markerOk))
  {
    NoRemovalsBeforeSweep(removeMarker);
  }

  /** Without `removeMarker` the marker is neither touched nor changed. */
  lemma CleanupLeavesMarker(d: Disk, agentName: string, currentHash: string, env: Env)
    ensures var o := CleanupSpec(d, agentName, currentHash, false, env);
            && CleanMarker !in o.events && o.disk.marker == d.marker
  {
    var o := CleanupSpec(d, agentName, currentHash, false, env);
    if Sweeps(false, env) {
      var c := Candidates(d.dataRoot, agentName, currentHash);
      RemovalsOnlyRemove(c);
      assert o.events == [GraceDelay, RemovePrevSymlink] + Removals(c);
    }
  }

  lemma {:induction false} RemovalsOnlyRemove(c: seq<string>)
    ensures forall e :: e in Removals(c) ==> e.RemovePath?
  {
    if c != [] {
      RemovalsOnlyRemove(c[..|c| - 1]);
    }
  }

  /** Every call the sweep makes belongs to it, the first is the grace delay, and it leaves the symlink and the active commit alone. */
  lemma CleanupOnlyCleanupEvents(d: Disk, agentName: string, currentHash: string, removeMarker: bool, env: Env)
    ensures var o := CleanupSpec(d, agentName, currentHash, removeMarker, env);
            && (forall e :: e in o.events ==> IsCleanupEvent(e))
            && o.events[0] == GraceDelay
            && o.disk.symlink == d.symlink && o.disk.activeCommit == d.activeCommit
  {
    RemovalsOnlyRemove(Candidates(d.dataRoot, agentName, currentHash));
  }

  /** Whether the legacy symlink can be removed changes neither the result nor the data root. */
  lemma CleanupIgnoresPrevSymlinkError(d: Disk, agentName: string, currentHash: string, removeMarker: bool, env: Env)
    ensures var o1 := CleanupSpec(d, agentName, currentHash, removeMarker, env);
            var o2 := CleanupSpec(d, agentName, currentHash, removeMarker, env.(prevSymlinkOk := !env.prevSymlinkOk));
            o1.err == o2.err && o1.disk.dataRoot == o2.disk.dataRoot && o1.events == o2.events
  {
  }

  // ---------------------------------------------------------------------
  // Scenarios

  /** data root holds agent-aaa (kept), agent-bbb, agent-ccc and scratch; every removal succeeds. */
  lemma ScenarioAllRemoved(env: Env)
    requires env.markerOk && env.openOk && env.listOk
    requires env.removeOk("agent-bbb") && env.removeOk("agent-ccc")
    ensures var o := CleanupSpec(Disk("aaa", "aaa", true, false, ["agent-aaa", "agent-bbb", "agent-ccc", "scratch"]),
                                 "agent", "aaa", true, env);
            o.err == None && o.disk.dataRoot == ["agent-aaa", "scratch"] && !o.disk.marker
            && RemovedDirs(o.events) == ["agent-bbb", "agent-ccc"]
  {
    var s := ["agent-aaa", "agent-bbb", "agent-ccc", "scratch"];
    ScenarioCandidates(s);
    var d := Disk("aaa", "aaa", true, false, s);
    SweepRemovals(d, "agent", "aaa", true, env);
    var gone := Removed(["agent-bbb", "agent-ccc"], env.removeOk);
    assert gone == {"agent-bbb", "agent-ccc"};
    assert ["agent-bbb", "agent-ccc"][..1] == ["agent-bbb"];
    assert Failed(["agent-bbb", "agent-ccc"], env.removeOk) == [];
    ScenarioWithout(s, gone);
  }

  /** Same layout, but removing agent-bbb fails: agent-ccc still goes, and the error names agent-bbb only. */
  lemma ScenarioOneFails(env: Env)
    requires env.markerOk && env.openOk && env.listOk
    requires !env.removeOk("agent-bbb") && env.removeOk("agent-ccc")
    ensures var o := CleanupSpec(Disk("aaa", "aaa", true, false, ["agent-aaa", "agent-bbb", "agent-ccc", "scratch"]),
                                 "agent", "aaa", true, env);
            o.err == Some(RemoveFailed(["agent-bbb"])) && o.disk.dataRoot == ["agent-aaa", "agent-bbb", "scratch"]
  {
    var s := ["agent-aaa", "agent-bbb", "agent-ccc", "scratch"];
    ScenarioCandidates(s);
    var gone := Removed(["agent-bbb", "agent-ccc"], env.removeOk);
    assert gone == {"agent-ccc"};
    assert Failed(["agent-bbb"], env.removeOk) == ["agent-bbb"];
    assert ["agent-bbb", "agent-ccc"][..1] == ["agent-bbb"];
    ScenarioWithout(s, gone);
  }

  lemma ScenarioCandidates(s: seq<string>)
    requires s == ["agent-aaa", "agent-bbb", "agent-ccc", "scratch"]
    ensures Candidates(s, "agent", "aaa") == ["agent-bbb", "agent-ccc"]
  {
    assert CurrentDir("agent", "aaa") == "agent-aaa";
    assert "agent-bbb" != "agent-aaa" by { assert "agent-bbb"[6] != "agent-aaa"[6]; }
    assert "agent-ccc" != "agent-aaa" by { assert "agent-ccc"[6] != "agent-aaa"[6]; }
    assert "agent-" <= "agent-bbb" && "agent-" <= "agent-ccc";
    assert !("agent-" <= "scratch") by { assert "scratch"[0] != 'a'; }
    assert s[..1] == ["agent-aaa"] && s[..1][..0] == [];
    assert Candidates(s[..1], "agent", "aaa") == [];
    assert s[..2][..1] == s[..1];
    assert Candidates(s[..2], "agent", "aaa") == ["agent-bbb"];
    assert s[..3][..2] == s[..2];
    assert Candidates(s[..3], "agent", "aaa") == ["agent-bbb", "agent-ccc"];
    assert s[..3] == s[..|s| - 1];
  }

  lemma ScenarioWithout(s: seq<string>, gone: set<string>)
    requires s == ["agent-aaa", "agent-bbb", "agent-ccc", "scratch"]
    requires "agent-ccc" in gone && "agent-aaa" !in gone && "scratch" !in gone
    ensures Without(s, gone) == if "agent-bbb" in gone then ["agent-aaa", "scratch"] else ["agent-aaa", "agent-bbb", "scratch"]
  {
    assert s[..1] == ["agent-aaa"] && s[..1][..0] == [];
    assert Without(s[..1], gone) == ["agent-aaa"];
    assert s[..2][..1] == s[..1];
    var w2 := if "agent-bbb" in gone then ["agent-aaa"] else ["agent-aaa", "agent-bbb"];
    assert Without(s[..2], gone) == w2;
    assert s[..3][..2] == s[..2];
    assert Without(s[..3], gone) == w2;
    assert s[..3] == s[..|s| - 1];
  }
}
