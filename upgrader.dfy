/** The engine that upgrades one installed module to the newest packages found
    under its UPGRADE/ directory. */
module ModuleUpgrader {
  import opened Versions
  import opened UpgradeTypes
  import opened PackageNames
  import opened Planning
  import opened Execution

  /** The `usort` of the plan by target release, in place. */
  method SortByReleaseTo(a: array<Package>)
    modifies a
    ensures NonDecreasing(a[..])
    ensures multiset(a[..]) == old(multiset(a[..]))
  {
    for i := 0 to a.Length
      invariant NonDecreasing(a[..i])
      invariant multiset(a[..]) == old(multiset(a[..]))
    {
      InsertInOrder(a, i);
    }
    assert a[..a.Length] == a[..];
  }

  /** Moves `a[i]` down into the ordered prefix `a[..i]`. */
  method InsertInOrder(a: array<Package>, i: nat)
    requires i < a.Length && NonDecreasing(a[..i])
    modifies a
    ensures NonDecreasing(a[..i + 1])
    ensures a[i + 1..] == old(a[i + 1..])
    ensures multiset(a[..]) == old(multiset(a[..]))
  {
    var j: nat := i;
    InsertingStart(a[..], i);
    while 0 < j && Compare(Key(a[j - 1]), Key(a[j])) > 0
      invariant Inserting(a[..], i, j)
      invariant a[i + 1..] == old(a[i + 1..])
      invariant multiset(a[..]) == old(multiset(a[..]))
    {
      ghost var s := a[..];
      InsertingStep(s, i, j);
      Swap(a, j - 1, j);
      assert a[..] == s[j - 1 := s[j]][j := s[j - 1]];
      j := j - 1;
    }
    InsertingDone(a[..], i, j);
  }

  /** While `s[j]` moves down: the first `i + 1` entries are in order except
      between `j - 1` and `j`, and the neighbours of `s[j]` are in order. */
  ghost predicate Inserting(s: seq<Package>, i: nat, j: nat) {
    && j <= i < |s|
    && (forall k :: 0 < k <= i && k != j ==> Compare(Key(s[k - 1]), Key(s[k])) <= 0)
    && (0 < j < i ==> Compare(Key(s[j - 1]), Key(s[j + 1])) <= 0)
  }

  /** An ordered prefix with `a[i]` not yet moved is the starting state. */
  lemma InsertingStart(s: seq<Package>, i: nat)
    requires i < |s| && NonDecreasing(s[..i])
    ensures Inserting(s, i, i)
  {
    forall k | 0 < k < i
      ensures Compare(Key(s[k - 1]), Key(s[k])) <= 0
    {
      assert s[..i][k - 1] == s[k - 1] && s[..i][k] == s[k];
    }
  }

  /** Swapping an out-of-order pair moves the hole one place down. */
  lemma InsertingStep(s: seq<Package>, i: nat, j: nat)
    requires Inserting(s, i, j) && 0 < j && Compare(Key(s[j - 1]), Key(s[j])) > 0
    ensures Inserting(s[j - 1 := s[j]][j := s[j - 1]], i, j - 1)
  {
    var t := s[j - 1 := s[j]][j := s[j - 1]];
    CompareAntisymmetric(Key(s[j - 1]), Key(s[j]));
    forall k | 0 < k <= i && k != j - 1
      ensures Compare(Key(t[k - 1]), Key(t[k])) <= 0
    {
      if k == j + 1 {
        assert t[k - 1] == s[j - 1] && t[k] == s[j + 1];
      } else if k != j {
        assert t[k - 1] == s[k - 1] && t[k] == s[k];
      }
    }
    if 0 < j - 1 {
      assert t[j - 2] == s[j - 2] && t[j] == s[j - 1];
    }
  }

  /** Once `s[j]` is no smaller than its left neighbour, the first `i + 1` entries are in order. */
  lemma InsertingDone(s: seq<Package>, i: nat, j: nat)
    requires Inserting(s, i, j) && (j == 0 || Compare(Key(s[j - 1]), Key(s[j])) <= 0)
    ensures NonDecreasing(s[..i + 1])
  {
    var t := s[..i + 1];
    forall k | 0 < k < |t|
      ensures Compare(Key(t[k - 1]), Key(t[k])) <= 0
    {
      assert t[k - 1] == s[k - 1] && t[k] == s[k];
    }
  }

  /** Exchanges `a[i]` and `a[j]`, leaving every other entry in place. */
  method Swap(a: array<Package>, i: nat, j: nat)
    requires i < j < a.Length
    modifies a
    ensures a[i] == old(a[j]) && a[j] == old(a[i])
    ensures forall k :: 0 <= k < a.Length && k != i && k != j ==> a[k] == old(a[k])
    ensures multiset(a[..]) == old(multiset(a[..]))
  {
    a[i], a[j] := a[j], a[i];
  }

  class Upgrader {
    const moduleName: string
    /** The id of the module's modules_informations row. */
    const moduleId: int
    /** Where the module is installed. */
    const modulePath: Path
    /** The descriptive fields the module's own conf.php gives. */
    const moduleConfiguration: ModuleInfo
    /** The files that exist on disk. */
    const files: set<Path>
    /** The scripts that raise when executed. */
    const failing: set<Path>
    /** The directories directly under UPGRADE/, in listing order. */
    const listing: seq<DirEntry>
    /** The module's stored row. */
    var row: ModuleRow
    /** The effects so far: row updates and script runs, in order. */
    var trace: seq<Event>

    constructor (moduleName: string, moduleId: int, modulePath: Path, moduleConfiguration: ModuleInfo,
                 files: set<Path>, failing: set<Path>, listing: seq<DirEntry>, row: ModuleRow)
      ensures this.moduleName == moduleName && this.moduleId == moduleId && this.modulePath == modulePath
      ensures this.moduleConfiguration == moduleConfiguration
      ensures this.files == files && this.failing == failing && this.listing == listing
      ensures this.row == row && this.trace == []
    {
      this.moduleName := moduleName;
      this.moduleId := moduleId;
      this.modulePath := modulePath;
      this.moduleConfiguration := moduleConfiguration;
      this.files := files;
      this.failing := failing;
      this.listing := listing;
      this.row := row;
      this.trace := [];
    }

    function BaseConfPath(): Path {
      modulePath + "/conf.php"
    }

    /** The discovery inputs, with `current` the installed release read before the loop. */
    function ScanFrom(current: Version): Scan {
      Scan(moduleName, UpgradesPath(modulePath), files, current)
    }

    /** Upgrades the module: refreshes its descriptive fields, then applies every
        applicable package in ascending order of target release. The flag is
        accepted and ignored. Aborts before any change when the module's own
        conf.php is missing; a failing script ends the run where it stands. */
    method Upgrade(onlyWithNextVersion: bool) returns (r: Outcome<int>)
      modifies this
      ensures BaseConfPath() !in files ==>
        r == Raised(ConfigurationNotFound) && row == old(row) && trace == old(trace)
      ensures BaseConfPath() in files ==>
        exists plan ::
          && IsPlan(plan, Index(Candidates(ScanFrom(old(row.modRelease)), listing)))
          && trace == old(trace) + [UpdateInfo(moduleConfiguration)] + Executed(PlanEvents(plan, files), failing)
          && row == ModuleRow(moduleConfiguration,
                              LastRelease(Executed(PlanEvents(plan, files), failing), old(row.modRelease)))
          && r == RunOutcome(PlanEvents(plan, files), failing, moduleId)
    {
      var configured := UpgradeModuleConfiguration();
      if configured.Raised? {
        return Raised(configured.error);
      }
      var installed := row;
      var versions := CollectVersions(installed.modRelease);
      var sorted := new Package[|versions|](i requires 0 <= i < |versions| => versions[i]);
      assert sorted[..] == versions;
      SortByReleaseTo(sorted);
      var plan := sorted[..];
      IndexContents(ScanFrom(installed.modRelease), listing);
      SortedIsPlan(plan, versions);
      // The caller's copy is updated step by step, as the by-reference array is,
      // but nothing reads it once the loop is over.
      var finalInformation, done := RunPlan(installed, plan);
      if done.Raised? {
        return Raised(done.error);
      }
      return Returned(moduleId);
    }

    /** The discovery loop: keeps each listed directory whose name matches, that
        holds a conf.php, and that upgrades from `current` or later, and indexes
        the kept packages by target release. */
    method CollectVersions(current: Version) returns (versions: seq<Package>)
      ensures versions == Index(Candidates(ScanFrom(current), listing))
    {
      var upgradesPath := UpgradesPath(modulePath);
      versions := [];
      for i := 0 to |listing|
        invariant versions == Index(Candidates(ScanFrom(current), listing[..i]))
      {
        assert listing[..i + 1][..i] == listing[..i];
        var upgradeName := listing[i].name;
        var upgradePath := upgradesPath + upgradeName;
        if !IsPackageName(moduleName, upgradeName) || ConfPath(upgradePath) !in files {
          continue;
        }
        var configuration := listing[i].conf;
        var compare := Compare(configuration.releaseFrom, current);
        if compare >= 0 {
          ghost var kept := Candidates(ScanFrom(current), listing[..i]);
          assert (kept + [Package(upgradePath, configuration)])[..|kept|] == kept;
          versions := Put(versions, Package(upgradePath, configuration));
        }
      }
      assert listing[..|listing|] == listing;
    }

    /** Applies the plan's steps in order; the first failure propagates and no later step starts. */
    method RunPlan(installed: ModuleRow, plan: seq<Package>) returns (installed': ModuleRow, r: Outcome<()>)
      modifies this
      ensures trace == old(trace) + Executed(PlanEvents(plan, files), failing)
      ensures row == old(row).(modRelease := LastRelease(Executed(PlanEvents(plan, files), failing), old(row.modRelease)))
      ensures r == RunOutcome(PlanEvents(plan, files), failing, ())
      ensures installed' == installed.(modRelease := LastRelease(Executed(PlanEvents(plan, files), failing), installed.modRelease))
    {
      installed' := installed;
      var i := 0;
      while i < |plan|
        invariant 0 <= i <= |plan|
        invariant FirstFailure(PlanEvents(plan[..i], files), failing).None?
        invariant trace == old(trace) + PlanEvents(plan[..i], files)
        invariant row == old(row).(modRelease := LastRelease(PlanEvents(plan[..i], files), old(row.modRelease)))
        invariant installed' == installed.(modRelease := LastRelease(PlanEvents(plan[..i], files), installed.modRelease))
      {
        var done;
        installed', done := RunStep(installed', plan, i, old(trace), old(row), installed);
        if done.Raised? {
          return installed', done;
        }
        i := i + 1;
      }
      assert plan[..i] == plan;
      ExecutedWhole(PlanEvents(plan, files), failing);
      r := Returned(());
    }

    /** Step `i` of the plan, once the steps before it ran through from `trace0`
        and `row0` (and the caller's copy from `installed0`): either the prefix
        grows by one step, or the whole plan ends here. */
    method RunStep(installed: ModuleRow, plan: seq<Package>, i: nat,
                   ghost trace0: seq<Event>, ghost row0: ModuleRow, ghost installed0: ModuleRow)
      returns (installed': ModuleRow, r: Outcome<()>)
      requires i < |plan|
      requires FirstFailure(PlanEvents(plan[..i], files), failing).None?
      requires trace == trace0 + PlanEvents(plan[..i], files)
      requires row == row0.(modRelease := LastRelease(PlanEvents(plan[..i], files), row0.modRelease))
      requires installed == installed0.(modRelease := LastRelease(PlanEvents(plan[..i], files), installed0.modRelease))
      modifies this
      ensures r.Returned? ==>
        && FirstFailure(PlanEvents(plan[..i + 1], files), failing).None?
        && trace == trace0 + PlanEvents(plan[..i + 1], files)
        && row == row0.(modRelease := LastRelease(PlanEvents(plan[..i + 1], files), row0.modRelease))
        && installed' == installed0.(modRelease := LastRelease(PlanEvents(plan[..i + 1], files), installed0.modRelease))
      ensures r.Raised? ==>
        && trace == trace0 + Executed(PlanEvents(plan, files), failing)
        && row == row0.(modRelease := LastRelease(Executed(PlanEvents(plan, files), failing), row0.modRelease))
        && installed' == installed0.(modRelease := LastRelease(Executed(PlanEvents(plan, files), failing), installed0.modRelease))
        && r == RunOutcome(PlanEvents(plan, files), failing, ())
    {
      ghost var before, step := PlanEvents(plan[..i], files), StepEvents(plan[i], files);
      installed', r := UpgradeProcess(installed, plan[i]);
      assert trace == trace0 + (before + Executed(step, failing)) by {
        assert trace0 + before + Executed(step, failing) == trace0 + (before + Executed(step, failing));
      }
      if r.Raised? {
        StepRaises(plan, i, files, failing, row0.modRelease);
        StepRaises(plan, i, files, failing, installed0.modRelease);
        assert before + Executed(step, failing) == Executed(PlanEvents(plan, files), failing);
      } else {
        StepCompletes(plan, i, files, failing, row0.modRelease);
        StepCompletes(plan, i, files, failing, installed0.modRelease);
        assert before + Executed(step, failing) == PlanEvents(plan[..i + 1], files);
      }
    }

    /** One step: persists the target release, then runs the pre PHP, SQL and post PHP scripts. */
    method UpgradeProcess(installed: ModuleRow, pkg: Package) returns (installed': ModuleRow, r: Outcome<()>)
      modifies this
      ensures installed' == installed.(modRelease := pkg.conf.releaseTo)
      ensures trace == old(trace) + Executed(StepEvents(pkg, files), failing)
      ensures row == old(row).(modRelease := pkg.conf.releaseTo)
      ensures r == RunOutcome(StepEvents(pkg, files), failing, ())
    {
      ghost var t0, bump := trace, [SetRelease(pkg.conf.releaseTo)];
      ghost var pre := PhpEvents(pkg.conf, pkg.path, true, files);
      ghost var sql := SqlEvents(pkg.conf, pkg.path, files);
      ghost var post := PhpEvents(pkg.conf, pkg.path, false, files);
      StepSplit(pkg, files);
      assert FirstFailure(bump, failing).None?;
      var id := UpgradeVersion(pkg.conf.releaseTo);
      installed' := installed.(modRelease := pkg.conf.releaseTo);
      var ranPre := UpgradePhpFiles(pkg.conf, pkg.path, true);
      if ranPre.Raised? {
        PreRaises(t0, bump, pre, sql, post, failing);
        return installed', Raised(ranPre.error);
      }
      var ranSql := UpgradeSqlFiles(pkg.conf, pkg.path);
      if ranSql.Raised? {
        SqlRaises(t0, bump, pre, sql, post, failing);
        return installed', Raised(ranSql.error);
      }
      var ranPost := UpgradePhpFiles(pkg.conf, pkg.path, false);
      PostRuns(t0, bump, pre, sql, post, failing);
      if ranPost.Raised? {
        return installed', Raised(ranPost.error);
      }
      r := Returned(());
    }

    /** Rewrites the ten descriptive fields of the module's row from its own
        conf.php, leaving the installed release alone; raises when that file is missing. */
    method UpgradeModuleConfiguration() returns (r: Outcome<int>)
      modifies this
      ensures BaseConfPath() !in files ==>
        r == Raised(ConfigurationNotFound) && row == old(row) && trace == old(trace)
      ensures BaseConfPath() in files ==>
        && r == Returned(moduleId)
        && row == ModuleRow(moduleConfiguration, old(row.modRelease))
        && trace == old(trace) + [UpdateInfo(moduleConfiguration)]
    {
      if BaseConfPath() !in files {
        return Raised(ConfigurationNotFound);
      }
      row := row.(info := moduleConfiguration);
      trace := trace + [UpdateInfo(moduleConfiguration)];
      return Returned(moduleId);
    }

    /** Persists `version` as the installed release. */
    method UpgradeVersion(version: Version) returns (id: int)
      modifies this
      ensures id == moduleId
      ensures row == old(row).(modRelease := version)
      ensures trace == old(trace) + [SetRelease(version)]
    {
      row := row.(modRelease := version);
      trace := trace + [SetRelease(version)];
      id := moduleId;
    }

    /** Runs the package's sql/upgrade.sql when its configuration enables SQL files
        and the file exists; returns whether it ran. */
    method UpgradeSqlFiles(conf: PackageConf, path: Path) returns (r: Outcome<bool>)
      modifies this
      ensures row == old(row)
      ensures trace == old(trace) + SqlEvents(conf, path, files)
      ensures r == RunOutcome(SqlEvents(conf, path, files), failing,
        Truthy(conf.sqlFiles) && SqlPath(path) in files)
    {
      var installed := false;
      var sqlFile := SqlPath(path);
      if Truthy(conf.sqlFiles) && sqlFile in files {
        PhaseEvents([RunSql(sqlFile)], failing);
        var ok := Execute(RunSql(sqlFile));
        if !ok {
          return Raised(ScriptFailed(sqlFile));
        }
        installed := true;
      }
      return Returned(installed);
    }

    /** Runs the package's php/upgrade.pre.php (`pre`) or php/upgrade.php when its
        configuration enables PHP files and the file exists; returns whether it ran. */
    method UpgradePhpFiles(conf: PackageConf, path: Path, pre: bool) returns (r: Outcome<bool>)
      modifies this
      ensures row == old(row)
      ensures trace == old(trace) + PhpEvents(conf, path, pre, files)
      ensures r == RunOutcome(PhpEvents(conf, path, pre, files), failing,
        Truthy(conf.phpFiles) && PhpPath(path, pre) in files)
    {
      var installed := false;
      var phpFile := PhpPath(path, pre);
      if Truthy(conf.phpFiles) && phpFile in files {
        PhaseEvents([RunPhp(phpFile)], failing);
        var ok := Execute(RunPhp(phpFile));
        if !ok {
          return Raised(ScriptFailed(phpFile));
        }
        installed := true;
      }
      return Returned(installed);
    }

    /** Hands a script to the executor: records that it ran and reports whether it
        completed (false: it raised). */
    method Execute(e: Event) returns (ok: bool)
      requires e.RunPhp? || e.RunSql?
      modifies this
      ensures ok == (e.script !in failing)
      ensures row == old(row) && trace == old(trace) + [e]
    {
      trace := trace + [e];
      ok := e.script !in failing;
    }
  }
}
