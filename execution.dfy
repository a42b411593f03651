/** What applying an upgrade plan does, as a sequence of effects: each step
    persists its target release, then runs its pre PHP script, its SQL script
    and its post PHP script, each only when enabled and present; the first
    script that raises ends the whole run, with nothing undone. */
module Execution {
  import opened Versions
  import opened UpgradeTypes

  /** The pre (`pre`) or post PHP script of a step, when the package's configuration
      enables PHP files and the file exists. */
  function PhpEvents(conf: PackageConf, path: Path, pre: bool, files: set<Path>): seq<Event> {
    var script := PhpPath(path, pre);
    if Truthy(conf.phpFiles) && script in files then [RunPhp(script)] else []
  }

  /** The SQL script of a step, when the package's configuration enables SQL files and the file exists. */
  function SqlEvents(conf: PackageConf, path: Path, files: set<Path>): seq<Event> {
    var script := SqlPath(path);
    if Truthy(conf.sqlFiles) && script in files then [RunSql(script)] else []
  }

  /** The script events of one step, in the order they run. */
  function ScriptEvents(pkg: Package, files: set<Path>): seq<Event> {
    PhpEvents(pkg.conf, pkg.path, true, files) + SqlEvents(pkg.conf, pkg.path, files) +
    PhpEvents(pkg.conf, pkg.path, false, files)
  }

  /** One step when none of its scripts raises: the release bump comes first. */
  function StepEvents(pkg: Package, files: set<Path>): seq<Event> {
    [SetRelease(pkg.conf.releaseTo)] + ScriptEvents(pkg, files)
  }

  /** A whole plan when no script raises: its steps one after the other. */
  function PlanEvents(plan: seq<Package>, files: set<Path>): seq<Event> {
    if plan == [] then [] else PlanEvents(plan[..|plan| - 1], files) + StepEvents(plan[|plan| - 1], files)
  }

  /** The event is a script run that raises. */
  predicate Fails(e: Event, failing: set<Path>) {
    (e.RunPhp? || e.RunSql?) && e.script in failing
  }

  /** The events that actually happen: up to and including the first script that raises. */
  function Executed(es: seq<Event>, failing: set<Path>): seq<Event> {
    if es == [] then []
    else if Fails(es[0], failing) then [es[0]]
    else [es[0]] + Executed(es[1..], failing)
  }

  /** The script whose failure propagates out of the run, if any. */
  function FirstFailure(es: seq<Event>, failing: set<Path>): Option<Path> {
    if es == [] then None
    else if Fails(es[0], failing) then Some(es[0].script)
    else FirstFailure(es[1..], failing)
  }

  /** The release stored after the events, starting from `current`. */
  function LastRelease(es: seq<Event>, current: Version): Version {
    if es == [] then current
    else LastRelease(es[1..], if es[0].SetRelease? then es[0].release else current)
  }

  /** The releases persisted by the events, in order. */
  function Releases(es: seq<Event>): seq<Version> {
    if es == [] then []
    else (if es[0].SetRelease? then [es[0].release] else []) + Releases(es[1..])
  }

  /** The target release of each step of a plan, in plan order. */
  function Targets(plan: seq<Package>): (vs: seq<Version>)
    ensures |vs| == |plan| && forall i :: 0 <= i < |plan| ==> vs[i] == plan[i].conf.releaseTo
  {
    if plan == [] then [] else [plan[0].conf.releaseTo] + Targets(plan[1..])
  }

  /** How the run ends: it returns `v` when no script raises, and otherwise the
      first failing script's error propagates. */
  function RunOutcome<T>(es: seq<Event>, failing: set<Path>, v: T): Outcome<T> {
    match FirstFailure(es, failing)
    case None => Returned(v)
    case Some(script) => Raised(ScriptFailed(script))
  }

  /** Planning two stretches of steps one after the other. */
  lemma {:induction false} PlanEventsAppend(p: seq<Package>, q: seq<Package>, files: set<Path>)
    ensures PlanEvents(p + q, files) == PlanEvents(p, files) + PlanEvents(q, files)
  {
    if q == [] {
      assert p + q == p;
    } else {
      var init, last := q[..|q| - 1], q[|q| - 1];
      var pq := p + q;
      assert PlanEvents(pq, files) == PlanEvents(p + init, files) + StepEvents(last, files) by {
        assert pq[..|pq| - 1] == p + init;
        assert pq[|pq| - 1] == last;
      }
      PlanEventsAppend(p, init, files);
    }
  }

  /** What happens is a prefix of the planned events. */
  lemma {:induction false} ExecutedPrefix(es: seq<Event>, failing: set<Path>)
    ensures Executed(es, failing) <= es
  {
    if es != [] && !Fails(es[0], failing) {
      ExecutedPrefix(es[1..], failing);
      assert es == [es[0]] + es[1..];
    }
  }

  /** No failure is reported exactly when no event fails. */
  lemma {:induction false} NoFailureIff(es: seq<Event>, failing: set<Path>)
    ensures FirstFailure(es, failing).None? <==> forall i :: 0 <= i < |es| ==> !Fails(es[i], failing)
  {
    if es != [] && !Fails(es[0], failing) {
      NoFailureIff(es[1..], failing);
      assert forall i :: 1 <= i < |es| ==> es[i] == es[1..][i - 1];
    }
  }

  /** A run that raises ends with the failing script, and nothing before it failed. */
  lemma {:induction false} ExecutedEndsAtFailure(es: seq<Event>, failing: set<Path>)
    requires FirstFailure(es, failing).Some?
    ensures
      var run := Executed(es, failing);
      && |run| > 0
      && Fails(run[|run| - 1], failing)
      && run[|run| - 1].script == FirstFailure(es, failing).value
      && forall i :: 0 <= i < |run| - 1 ==> !Fails(run[i], failing)
  {
    if !Fails(es[0], failing) {
      ExecutedEndsAtFailure(es[1..], failing);
      var rest := Executed(es[1..], failing);
      assert Executed(es, failing) == [es[0]] + rest;
      assert forall i :: 1 <= i < |rest| + 1 ==> ([es[0]] + rest)[i] == rest[i - 1];
    }
  }

  /** The run stops exactly at the first failing script: what happens is a prefix of
      the planned events, it is all of them when nothing raises, and otherwise it
      ends with the failing script and holds no earlier failure. */
  lemma ExecutedStops(es: seq<Event>, failing: set<Path>)
    ensures Executed(es, failing) <= es
    ensures FirstFailure(es, failing).None? <==> forall i :: 0 <= i < |es| ==> !Fails(es[i], failing)
    ensures FirstFailure(es, failing).None? ==> Executed(es, failing) == es
    ensures FirstFailure(es, failing).Some? ==>
      var run := Executed(es, failing);
      && |run| > 0
      && Fails(run[|run| - 1], failing)
      && run[|run| - 1].script == FirstFailure(es, failing).value
      && forall i :: 0 <= i < |run| - 1 ==> !Fails(run[i], failing)
  {
    ExecutedPrefix(es, failing);
    NoFailureIff(es, failing);
    if FirstFailure(es, failing).None? {
      ExecutedWhole(es, failing);
    } else {
      ExecutedEndsAtFailure(es, failing);
    }
  }

  /** Running one stretch of events after another. */
  lemma {:induction false} ExecutedAppend(a: seq<Event>, b: seq<Event>, failing: set<Path>)
    ensures FirstFailure(a, failing).None? ==>
      Executed(a + b, failing) == a + Executed(b, failing) && FirstFailure(a + b, failing) == FirstFailure(b, failing)
    ensures FirstFailure(a, failing).Some? ==>
      Executed(a + b, failing) == Executed(a, failing) && FirstFailure(a + b, failing) == FirstFailure(a, failing)
  {
    if a != [] {
      assert (a + b)[0] == a[0];
      assert (a + b)[1..] == a[1..] + b;
      ExecutedAppend(a[1..], b, failing);
    } else {
      assert a + b == b;
    }
  }

  /** The release stored after two stretches: replay the second from what the first left. */
  lemma {:induction false} LastReleaseAppend(a: seq<Event>, b: seq<Event>, current: Version)
    ensures LastRelease(a + b, current) == LastRelease(b, LastRelease(a, current))
  {
    if a != [] {
      assert (a + b)[1..] == a[1..] + b;
      LastReleaseAppend(a[1..], b, if a[0].SetRelease? then a[0].release else current);
    } else {
      assert a + b == b;
    }
  }

  /** The releases persisted by two stretches, one list after the other. */
  lemma {:induction false} ReleasesAppend(a: seq<Event>, b: seq<Event>)
    ensures Releases(a + b) == Releases(a) + Releases(b)
  {
    if a != [] {
      assert (a + b)[1..] == a[1..] + b;
      ReleasesAppend(a[1..], b);
    } else {
      assert a + b == b;
    }
  }

  /** None of the events persists a release. */
  ghost predicate NoRelease(es: seq<Event>) {
    forall i :: 0 <= i < |es| ==> !es[i].SetRelease?
  }

  /** Events that persist no release leave the stored release alone. */
  lemma {:induction false} NoReleaseKeeps(es: seq<Event>, current: Version)
    requires NoRelease(es)
    ensures LastRelease(es, current) == current
    ensures Releases(es) == []
  {
    if es != [] {
      assert !es[0].SetRelease?;
      NoReleaseKeeps(es[1..], current);
    }
  }

  /** A phase holds at most one script: it happens in full, and it raises exactly when its script fails. */
  lemma PhaseEvents(es: seq<Event>, failing: set<Path>)
    requires |es| <= 1
    ensures Executed(es, failing) == es
    ensures FirstFailure(es, failing) == if es != [] && Fails(es[0], failing) then Some(es[0].script) else None
  {
    if es != [] {
      assert es[1..] == [];
    }
  }

  /** When nothing raises, every event happens. */
  lemma {:induction false} ExecutedWhole(es: seq<Event>, failing: set<Path>)
    requires FirstFailure(es, failing).None?
    ensures Executed(es, failing) == es
  {
    if es != [] {
      ExecutedWhole(es[1..], failing);
      assert es == [es[0]] + es[1..];
    }
  }

  /** What happens of events that persist no release persists none either. */
  lemma {:induction false} ExecutedNoRelease(es: seq<Event>, failing: set<Path>)
    requires NoRelease(es)
    ensures NoRelease(Executed(es, failing))
  {
    if es != [] && !Fails(es[0], failing) {
      assert NoRelease(es[1..]) by {
        assert forall i :: 0 <= i < |es| - 1 ==> es[1..][i] == es[i + 1];
      }
      ExecutedNoRelease(es[1..], failing);
      var rest := Executed(es[1..], failing);
      assert Executed(es, failing) == [es[0]] + rest;
      assert forall i :: 0 < i < |rest| + 1 ==> ([es[0]] + rest)[i] == rest[i - 1];
    }
  }

  /** A step's scripts persist no release. */
  lemma ScriptsNoRelease(pkg: Package, files: set<Path>)
    ensures NoRelease(ScriptEvents(pkg, files))
  {
  }

  /** A release bump ahead of script events is persisted first, and stays stored. */
  lemma BumpFirst(v: Version, es: seq<Event>, failing: set<Path>, current: Version)
    requires NoRelease(es)
    ensures Executed([SetRelease(v)] + es, failing) == [SetRelease(v)] + Executed(es, failing)
    ensures LastRelease(Executed([SetRelease(v)] + es, failing), current) == v
    ensures Releases([SetRelease(v)] + es) == [v]
  {
    assert ([SetRelease(v)] + es)[1..] == es;
    ExecutedNoRelease(es, failing);
    NoReleaseKeeps(Executed(es, failing), v);
    NoReleaseKeeps(es, v);
  }

  /** Within a step, the target release is persisted before any script runs, and
      it is what stays stored, however far the step gets. */
  lemma StepReleasedFirst(pkg: Package, files: set<Path>, failing: set<Path>, current: Version)
    ensures Executed(StepEvents(pkg, files), failing) ==
      [SetRelease(pkg.conf.releaseTo)] + Executed(ScriptEvents(pkg, files), failing)
    ensures LastRelease(Executed(StepEvents(pkg, files), failing), current) == pkg.conf.releaseTo
    ensures Releases(StepEvents(pkg, files)) == [pkg.conf.releaseTo]
  {
    ScriptsNoRelease(pkg, files);
    BumpFirst(pkg.conf.releaseTo, ScriptEvents(pkg, files), failing, current);
  }

  /** A step is its release bump followed by its three phases. */
  lemma StepSplit(pkg: Package, files: set<Path>)
    ensures StepEvents(pkg, files) ==
      [SetRelease(pkg.conf.releaseTo)] + PhpEvents(pkg.conf, pkg.path, true, files) +
      SqlEvents(pkg.conf, pkg.path, files) + PhpEvents(pkg.conf, pkg.path, false, files)
  {
  }

  lemma AppendAssoc(a: seq<Event>, b: seq<Event>, c: seq<Event>)
    ensures a + b + c == a + (b + c)
  {
  }

  /** The pre phase raises: the SQL and post phases never start. */
  lemma PreRaises(t0: seq<Event>, bump: seq<Event>, pre: seq<Event>, sql: seq<Event>, post: seq<Event>,
                  failing: set<Path>)
    requires FirstFailure(bump, failing).None? && FirstFailure(pre, failing).Some? && |pre| <= 1
    ensures t0 + bump + pre == t0 + Executed(bump + pre + sql + post, failing)
    ensures FirstFailure(bump + pre + sql + post, failing) == FirstFailure(pre, failing)
  {
    assert Executed(bump + pre, failing) == bump + pre && FirstFailure(bump + pre, failing) == FirstFailure(pre, failing) by {
      ExecutedAppend(bump, pre, failing);
      PhaseEvents(pre, failing);
    }
    ExecutedAppend(bump + pre, sql, failing);
    ExecutedAppend(bump + pre + sql, post, failing);
    AppendAssoc(t0, bump, pre);
  }

  /** The SQL phase raises after the pre phase ran through: the post phase never starts. */
  lemma SqlRaises(t0: seq<Event>, bump: seq<Event>, pre: seq<Event>, sql: seq<Event>, post: seq<Event>,
                  failing: set<Path>)
    requires FirstFailure(bump, failing).None? && FirstFailure(pre, failing).None?
    requires FirstFailure(sql, failing).Some? && |sql| <= 1
    ensures t0 + bump + pre + sql == t0 + Executed(bump + pre + sql + post, failing)
    ensures FirstFailure(bump + pre + sql + post, failing) == FirstFailure(sql, failing)
  {
    assert FirstFailure(bump + pre, failing).None? by {
      ExecutedAppend(bump, pre, failing);
    }
    assert Executed(bump + pre + sql, failing) == bump + pre + sql
      && FirstFailure(bump + pre + sql, failing) == FirstFailure(sql, failing) by {
      ExecutedAppend(bump + pre, sql, failing);
      PhaseEvents(sql, failing);
    }
    ExecutedAppend(bump + pre + sql, post, failing);
    AppendAssoc(t0, bump, pre);
    AppendAssoc(t0, bump + pre, sql);
  }

  /** The first two phases ran through: the post phase happens, raising or not. */
  lemma PostRuns(t0: seq<Event>, bump: seq<Event>, pre: seq<Event>, sql: seq<Event>, post: seq<Event>,
                 failing: set<Path>)
    requires FirstFailure(bump, failing).None? && FirstFailure(pre, failing).None?
    requires FirstFailure(sql, failing).None? && |post| <= 1
    ensures t0 + bump + pre + sql + post == t0 + Executed(bump + pre + sql + post, failing)
    ensures FirstFailure(bump + pre + sql + post, failing) == FirstFailure(post, failing)
  {
    assert FirstFailure(bump + pre + sql, failing).None? by {
      ExecutedAppend(bump, pre, failing);
      ExecutedAppend(bump + pre, sql, failing);
    }
    assert Executed(bump + pre + sql + post, failing) == bump + pre + sql + post by {
      ExecutedAppend(bump + pre + sql, post, failing);
      PhaseEvents(post, failing);
    }
    ExecutedAppend(bump + pre + sql, post, failing);
    AppendAssoc(t0, bump, pre);
    AppendAssoc(t0, bump + pre, sql);
    AppendAssoc(t0, bump + pre + sql, post);
  }

  /** Applying a plan persists each step's target exactly once, in plan order. */
  lemma {:induction false} PlanReleases(plan: seq<Package>, files: set<Path>)
    ensures Releases(PlanEvents(plan, files)) == Targets(plan)
  {
    if plan != [] {
      var init, last := plan[..|plan| - 1], plan[|plan| - 1];
      assert Releases(PlanEvents(plan, files)) == Targets(init) + [last.conf.releaseTo] by {
        PlanReleases(init, files);
        ReleasesAppend(PlanEvents(init, files), StepEvents(last, files));
        StepReleasedFirst(last, files, {}, []);
      }
      assert Targets(plan) == Targets(init) + [last.conf.releaseTo] by {
        assert plan == init + [last];
      }
    }
  }

  /** When no script raises, every step runs in full and the stored release ends
      as the last step's target. */
  lemma CompletedRun(plan: seq<Package>, files: set<Path>, failing: set<Path>, current: Version)
    requires FirstFailure(PlanEvents(plan, files), failing).None? && plan != []
    ensures Executed(PlanEvents(plan, files), failing) == PlanEvents(plan, files)
    ensures LastRelease(Executed(PlanEvents(plan, files), failing), current) == plan[|plan| - 1].conf.releaseTo
  {
    var init, last := plan[..|plan| - 1], plan[|plan| - 1];
    var before, step := PlanEvents(init, files), StepEvents(last, files);
    ExecutedWhole(PlanEvents(plan, files), failing);
    assert FirstFailure(step, failing).None? by {
      ExecutedAppend(before, step, failing);
    }
    assert LastRelease(before + step, current) == last.conf.releaseTo by {
      ExecutedWhole(step, failing);
      LastReleaseAppend(before, step, current);
      StepReleasedFirst(last, files, failing, LastRelease(before, current));
    }
  }

  /** A step that runs through extends a failure-free prefix of the plan and leaves its target stored. */
  lemma StepCompletes(plan: seq<Package>, i: nat, files: set<Path>, failing: set<Path>, current: Version)
    requires i < |plan|
    requires FirstFailure(PlanEvents(plan[..i], files), failing).None?
    requires FirstFailure(StepEvents(plan[i], files), failing).None?
    ensures Executed(StepEvents(plan[i], files), failing) == StepEvents(plan[i], files)
    ensures PlanEvents(plan[..i + 1], files) == PlanEvents(plan[..i], files) + StepEvents(plan[i], files)
    ensures FirstFailure(PlanEvents(plan[..i + 1], files), failing).None?
    ensures LastRelease(PlanEvents(plan[..i + 1], files), current) == plan[i].conf.releaseTo
  {
    var before, step := PlanEvents(plan[..i], files), StepEvents(plan[i], files);
    assert PlanEvents(plan[..i + 1], files) == before + step by {
      assert plan[..i + 1][..i] == plan[..i];
    }
    ExecutedAppend(before, step, failing);
    ExecutedWhole(step, failing);
    LastReleaseAppend(before, step, current);
    StepReleasedFirst(plan[i], files, failing, LastRelease(before, current));
  }

  /** A stretch that raises after a failure-free one ends the run: nothing after it happens. */
  lemma RaisesWithin(before: seq<Event>, step: seq<Event>, after: seq<Event>, failing: set<Path>)
    requires FirstFailure(before, failing).None?
    requires FirstFailure(step, failing).Some?
    ensures Executed(before + step + after, failing) == before + Executed(step, failing)
    ensures FirstFailure(before + step + after, failing) == FirstFailure(step, failing)
  {
    ExecutedAppend(before, step, failing);
    ExecutedAppend(before + step, after, failing);
  }

  /** A step that raises after a failure-free prefix ends the whole plan there. */
  lemma StepRaises(plan: seq<Package>, i: nat, files: set<Path>, failing: set<Path>, current: Version)
    requires i < |plan|
    requires FirstFailure(PlanEvents(plan[..i], files), failing).None?
    requires FirstFailure(StepEvents(plan[i], files), failing).Some?
    ensures Executed(PlanEvents(plan, files), failing) ==
      PlanEvents(plan[..i], files) + Executed(StepEvents(plan[i], files), failing)
    ensures FirstFailure(PlanEvents(plan, files), failing) == FirstFailure(StepEvents(plan[i], files), failing)
    ensures RunOutcome(PlanEvents(plan, files), failing, ()) == RunOutcome(StepEvents(plan[i], files), failing, ())
    ensures LastRelease(Executed(PlanEvents(plan, files), failing), current) == plan[i].conf.releaseTo
  {
    var before, step := PlanEvents(plan[..i], files), StepEvents(plan[i], files);
    var after := PlanEvents(plan[i + 1..], files);
    assert PlanEvents(plan, files) == before + step + after by {
      assert plan[..i + 1][..i] == plan[..i];
      assert plan == plan[..i + 1] + plan[i + 1..];
      PlanEventsAppend(plan[..i + 1], plan[i + 1..], files);
    }
    assert Executed(before + step + after, failing) == before + Executed(step, failing)
      && FirstFailure(before + step + after, failing) == FirstFailure(step, failing) by {
      RaisesWithin(before, step, after, failing);
    }
    assert LastRelease(before + Executed(step, failing), current) == plan[i].conf.releaseTo by {
      LastReleaseAppend(before, Executed(step, failing), current);
      StepReleasedFirst(plan[i], files, failing, LastRelease(before, current));
    }
  }

  /** The run stops inside step `k`: the steps before it ran in full, step `k`
      ran up to its failing script, and no later step started. */
  ghost predicate StopsAt(plan: seq<Package>, files: set<Path>, failing: set<Path>, k: nat) {
    && k < |plan|
    && FirstFailure(PlanEvents(plan[..k], files), failing).None?
    && FirstFailure(StepEvents(plan[k], files), failing).Some?
    && FirstFailure(PlanEvents(plan, files), failing) == FirstFailure(StepEvents(plan[k], files), failing)
    && Executed(PlanEvents(plan, files), failing) ==
         PlanEvents(plan[..k], files) + Executed(StepEvents(plan[k], files), failing)
  }

  /** When a script raises, the run stops in one step, and the stored release is
      that step's target: the bump is not rolled back. */
  lemma {:induction false} FailedRun(plan: seq<Package>, files: set<Path>, failing: set<Path>, current: Version)
    requires FirstFailure(PlanEvents(plan, files), failing).Some?
    ensures exists k: nat ::
      StopsAt(plan, files, failing, k) &&
      LastRelease(Executed(PlanEvents(plan, files), failing), current) == plan[k].conf.releaseTo
  {
    var init, last := plan[..|plan| - 1], plan[|plan| - 1];
    var before := PlanEvents(init, files);
    assert PlanEvents(plan, files) == before + StepEvents(last, files);
    if FirstFailure(before, failing).Some? {
      assert Executed(PlanEvents(plan, files), failing) == Executed(before, failing)
        && FirstFailure(PlanEvents(plan, files), failing) == FirstFailure(before, failing) by {
        ExecutedAppend(before, StepEvents(last, files), failing);
      }
      FailedRun(init, files, failing, current);
      var k: nat :| StopsAt(init, files, failing, k) &&
        LastRelease(Executed(before, failing), current) == init[k].conf.releaseTo;
      assert init[..k] == plan[..k];
      assert StopsAt(plan, files, failing, k);
    } else {
      var k := |plan| - 1;
      assert plan[..k] == init;
      assert FirstFailure(StepEvents(last, files), failing).Some? by {
        ExecutedAppend(before, StepEvents(last, files), failing);
      }
      StepRaises(plan, k, files, failing, current);
      assert StopsAt(plan, files, failing, k);
    }
  }
}
