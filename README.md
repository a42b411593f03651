# Centreon module upgrader, modelled in Dafny

This project models the `Upgrader` class of Centreon's legacy module layer
(`src/CentreonLegacy/Core/Module/Upgrader.php`). The class upgrades one
installed module in four stages.

1. **Metadata sync.** It rewrites the ten descriptive columns of the module's
   `modules_informations` row from the module's own `conf.php`, and it aborts
   when that file is missing.
2. **Discovery.** It lists the directories directly under the module's
   `UPGRADE/` directory. It keeps those whose name starts with
   `<module>-X.Y.Z` and that hold a `conf.php`.
3. **Filter and plan.** It keeps a package when its `release_from` is not older
   than the installed `mod_release`, read once before the loop. It indexes the
   kept packages by `release_to`, so a later package replaces an earlier one with
   the same target. It then sorts the index by `release_to`.
4. **Step execution.** For each planned package in order, it first persists
   `mod_release = release_to`. It then runs the pre PHP script
   `php/upgrade.pre.php`, the SQL script `sql/upgrade.sql` and the post PHP
   script `php/upgrade.php`. Each script runs only when the package's
   `php_files` or `sql_files` flag is truthy and the file exists.

Nothing catches an exception. A failing script therefore ends the whole
upgrade where it stands, and the release bump of its step stays in place.

Layout:

- `versions.dfy` (module `Versions`): releases as `seq<nat>` and the comparison
  `version_compare` performs on numeric dotted releases.
- `upgrade_types.dfy` (module `UpgradeTypes`): configuration entries, packages,
  the module row, effects (`Event`), errors, and PHP truthiness of configuration
  strings.
- `package_names.dfy` (module `PackageNames`): the directory-name pattern
  `^<module>-(\d+\.\d+\.\d+)`.
- `planning.dfy` (module `Planning`): the specification functions for
  discovery, the index keyed by target release (PHP's ordered array), and the
  plan.
- `execution.dfy` (module `Execution`): the specification functions for what a
  plan does, as a sequence of effects that stops at the first failing script.
- `upgrader.dfy` (module `ModuleUpgrader`): the imperative model. It holds the
  in-place sort and the class `Upgrader`, whose `row` and `trace` fields the
  methods update.

Collaborators become inputs of the `Upgrader` object:

- `listing`: the Finder's directory listing, as names with the configuration
  each `conf.php` would load.
- `files`: the set of files that exist.
- `failing`: the scripts that raise when executed.
- `moduleConfiguration`, `modulePath` and `moduleId`: what the base class
  provides.

Effects are recorded in `trace` in the order they happen. A failing script's
own event is recorded, since it started, and nothing after it is.

The SQL and PHP gates read the flags from the **package's** configuration,
`$conf[$this->moduleName]['sql_files' | 'php_files']`
(`Upgrader.php:190`, `Upgrader.php:212`), not from the module's row,
whose `sql_files` and `php_files` columns only the metadata sync writes.

Releases are compared segment by segment, numerically. When one release is a
proper prefix of the other, the shorter one is the older ("1.2" before
"1.2.0"), since `version_compare` counts the longer one's leftover numeric
segment as newer.

## Model

| member | source | states |
|---|---|---|
| Versions.Compare | src/CentreonLegacy/Core/Module/Upgrader.php:73 | the comparison is three-valued and returns 0 exactly when the releases are equal |
| Versions.CompareFirstDifference | src/CentreonLegacy/Core/Module/Upgrader.php:73 | the first differing segment decides the order |
| Versions.ComparePrefix | src/CentreonLegacy/Core/Module/Upgrader.php:73 | a proper prefix is the older release |
| Versions.CompareAntisymmetric | src/CentreonLegacy/Core/Module/Upgrader.php:82-87 | swapping the arguments negates the result, so the sort comparator is consistent |
| Versions.CompareTransitive | src/CentreonLegacy/Core/Module/Upgrader.php:82-87 | "not newer than" is transitive |
| Versions.CompareStrictlyTransitive | src/CentreonLegacy/Core/Module/Upgrader.php:82-87 | "older than" is transitive |
| UpgradeTypes.TruthyIff | src/CentreonLegacy/Core/Module/Upgrader.php:190 | a configuration flag enables scripts exactly when it is neither "" nor "0" |
| PackageNames.DigitsFromSpec | src/CentreonLegacy/Core/Module/Upgrader.php:63 | the greedy `\d+` run consists of digits and stops at the first non-digit |
| PackageNames.DigitsFromExact | src/CentreonLegacy/Core/Module/Upgrader.php:63 | any run of digits ending at a non-digit is the greedy run |
| PackageNames.GreedyMatches | src/CentreonLegacy/Core/Module/Upgrader.php:63 | when the greedy reading accepts, three digit groups separated by dots start the string |
| PackageNames.MatchIsGreedy | src/CentreonLegacy/Core/Module/Upgrader.php:63 | any split into three dot-separated digit groups is found by the greedy reading |
| PackageNames.StartsWithReleaseIff | src/CentreonLegacy/Core/Module/Upgrader.php:63 | the release test holds exactly when some prefix is `\d+\.\d+\.\d+` (both directions) |
| PackageNames.PackageNameIff | src/CentreonLegacy/Core/Module/Upgrader.php:63 | a name passes exactly when it starts with `<module>-` followed by a release, with no end anchor |
| PackageNames.SuffixAccepted | src/CentreonLegacy/Core/Module/Upgrader.php:63 | "mod-1.20.3-rc1" passes for module "mod": text after the release is ignored |
| PackageNames.PrefixRejected | src/CentreonLegacy/Core/Module/Upgrader.php:63 | "xmod-1.2.3" fails for module "mod": the pattern is anchored at the start |
| PackageNames.TwoGroupsRejected | src/CentreonLegacy/Core/Module/Upgrader.php:63 | "mod-1.2" fails: three groups are required |
| Planning.CandidatesIff | src/CentreonLegacy/Core/Module/Upgrader.php:60-79 | a package is a candidate exactly when some listed entry matches the name, has a conf.php, upgrades from the installed release or later, and yields it |
| Planning.LastAcceptedSound | src/CentreonLegacy/Core/Module/Upgrader.php:75-78 | the package recorded for a target comes from the last kept entry with that target |
| Planning.LastAcceptedComplete | src/CentreonLegacy/Core/Module/Upgrader.php:75-78 | the last kept entry with a target is the one recorded for it |
| Planning.LastAcceptedCovers | src/CentreonLegacy/Core/Module/Upgrader.php:75-78 | every kept entry's target has a recorded package |
| Planning.PutLookup | src/CentreonLegacy/Core/Module/Upgrader.php:75-78 | after `$versions[k] = p`, key k maps to p and every other key keeps its value |
| Planning.PutDistinct | src/CentreonLegacy/Core/Module/Upgrader.php:75-78 | the assignment keeps keys unique and adds nothing but the new package |
| Planning.LookupDistinct | src/CentreonLegacy/Core/Module/Upgrader.php:75-78 | with unique keys, a package is present exactly when its key maps to it |
| Planning.IndexDistinct | src/CentreonLegacy/Core/Module/Upgrader.php:75-78 | the index holds at most one package per target release |
| Planning.IndexLookup | src/CentreonLegacy/Core/Module/Upgrader.php:60-80 | the index maps each target to the last kept package with that target |
| Planning.IndexContents | src/CentreonLegacy/Core/Module/Upgrader.php:60-80 | the index has unique targets and holds exactly the last kept package of each target |
| Planning.DistinctOccursOnce | src/CentreonLegacy/Core/Module/Upgrader.php:75-78 | with unique keys, no package occurs twice |
| Planning.PermutationDistinct | src/CentreonLegacy/Core/Module/Upgrader.php:82-87 | reordering keeps targets unique |
| Planning.NeighboursAscending | src/CentreonLegacy/Core/Module/Upgrader.php:82-87 | strictly ordered neighbours give a strictly ascending sequence |
| Planning.SortedIsPlan | src/CentreonLegacy/Core/Module/Upgrader.php:82-87 | a non-decreasing permutation of the index is strictly ascending by target, because targets are unique |
| Planning.AscendingSameHead | src/CentreonLegacy/Core/Module/Upgrader.php:82-87 | two ascending orderings of the same packages start with the same package |
| Planning.AscendingTail | src/CentreonLegacy/Core/Module/Upgrader.php:82-87 | the rest of an ascending plan is ascending |
| Planning.MultisetTails | src/CentreonLegacy/Core/Module/Upgrader.php:82-87 | removing a common first package keeps two orderings permutations of each other |
| Planning.PlanUnique | src/CentreonLegacy/Core/Module/Upgrader.php:82-87 | there is only one ascending order of the index, so the plan does not depend on the sort algorithm or its stability |
| Planning.PlanContents | src/CentreonLegacy/Core/Module/Upgrader.php:60-91 | the plan holds exactly the last kept package of each target, and every kept entry's target is planned |
| Execution.Targets | src/CentreonLegacy/Core/Module/Upgrader.php:89-91 | the targets of a plan, one per step in plan order |
| Execution.PlanEventsAppend | src/CentreonLegacy/Core/Module/Upgrader.php:89-91 | running two stretches of steps gives their effects one after the other |
| Execution.ExecutedPrefix | src/CentreonLegacy/Core/Module/Upgrader.php:89-110 | what happens is a prefix of what was planned |
| Execution.NoFailureIff | src/CentreonLegacy/Core/Module/Upgrader.php:89-110 | no failure is reported exactly when no planned script fails |
| Execution.ExecutedEndsAtFailure | src/CentreonLegacy/Core/Module/Upgrader.php:89-110 | a run that raises ends with the failing script, and no earlier script failed |
| Execution.ExecutedStops | src/CentreonLegacy/Core/Module/Upgrader.php:89-110 | the run is a prefix of the plan's effects: all of them when nothing raises, otherwise up to and including the first failing script |
| Execution.ExecutedAppend | src/CentreonLegacy/Core/Module/Upgrader.php:89-110 | after a stretch that raises, nothing of the next stretch happens; after one that does not, the next runs as if alone |
| Execution.LastReleaseAppend | src/CentreonLegacy/Core/Module/Upgrader.php:105-106 | the stored release after two stretches is found by replaying the second from the first's result |
| Execution.ReleasesAppend | src/CentreonLegacy/Core/Module/Upgrader.php:105 | the releases persisted by two stretches, in order |
| Execution.NoReleaseKeeps | src/CentreonLegacy/Core/Module/Upgrader.php:108-110 | script runs leave the stored release alone |
| Execution.PhaseEvents | src/CentreonLegacy/Core/Module/Upgrader.php:185-218 | a phase holds at most one script: it happens in full and raises exactly when that script fails |
| Execution.ExecutedWhole | src/CentreonLegacy/Core/Module/Upgrader.php:89-110 | when nothing raises, every planned effect happens |
| Execution.ExecutedNoRelease | src/CentreonLegacy/Core/Module/Upgrader.php:108-110 | the part of the script runs that happens persists no release |
| Execution.ScriptsNoRelease | src/CentreonLegacy/Core/Module/Upgrader.php:108-110 | a step's scripts persist no release |
| Execution.BumpFirst | src/CentreonLegacy/Core/Module/Upgrader.php:105-110 | a bump ahead of script runs happens first and remains the stored release |
| Execution.StepReleasedFirst | src/CentreonLegacy/Core/Module/Upgrader.php:103-111 | in a step, the target release is persisted before any script, exactly once, and stays stored however far the step gets |
| Execution.PreRaises | src/CentreonLegacy/Core/Module/Upgrader.php:108 | when the pre script raises, the SQL and post scripts never run |
| Execution.SqlRaises | src/CentreonLegacy/Core/Module/Upgrader.php:109 | when the SQL script raises, the post script never runs |
| Execution.PostRuns | src/CentreonLegacy/Core/Module/Upgrader.php:110 | once the pre PHP and SQL phases have run without raising, the post phase happens and its failure is the step's |
| Execution.PlanReleases | src/CentreonLegacy/Core/Module/Upgrader.php:89-91 | a plan persists each step's target exactly once, in plan order |
| Execution.CompletedRun | src/CentreonLegacy/Core/Module/Upgrader.php:89-91 | when nothing raises, every step runs in full and the stored release ends as the last step's target |
| Execution.StepCompletes | src/CentreonLegacy/Core/Module/Upgrader.php:89-91 | a step that runs through extends the failure-free prefix and leaves its target stored |
| Execution.RaisesWithin | src/CentreonLegacy/Core/Module/Upgrader.php:89-91 | once a stretch raises, nothing after it happens and its failure is the run's |
| Execution.StepRaises | src/CentreonLegacy/Core/Module/Upgrader.php:89-110 | a step that raises ends the plan: later steps never start, and the failing step's target stays stored |
| Execution.FailedRun | src/CentreonLegacy/Core/Module/Upgrader.php:89-110 | when some script raises, the run stops inside one step, and the stored release is that step's target (no rollback) |
| ModuleUpgrader.SortByReleaseTo | src/CentreonLegacy/Core/Module/Upgrader.php:82-87 | the in-place sort leaves the array non-decreasing by target and a permutation of its input |
| ModuleUpgrader.InsertInOrder | src/CentreonLegacy/Core/Module/Upgrader.php:82-87 | one insertion leaves the first `i + 1` entries in order, keeps every entry after `i` in place, and permutes the array |
| ModuleUpgrader.Upgrader.Upgrade | src/CentreonLegacy/Core/Module/Upgrader.php:46-94 | if the base conf.php is missing, it raises with nothing changed. Otherwise the trace is the metadata update followed by the executed part of some ascending plan of the index of kept packages. The row holds the new metadata and the last persisted target. It returns moduleId unless a script raised |
| ModuleUpgrader.Upgrader.CollectVersions | src/CentreonLegacy/Core/Module/Upgrader.php:52-80 | the discovery loop builds the index of kept packages, filtered against the release read before the loop |
| ModuleUpgrader.Upgrader.RunPlan | src/CentreonLegacy/Core/Module/Upgrader.php:89-91 | the step loop appends the executed prefix of the plan's effects, leaves the last persisted target in both the row and the caller's by-reference copy, and propagates the first failure |
| ModuleUpgrader.Upgrader.RunStep | src/CentreonLegacy/Core/Module/Upgrader.php:90 | one pass of the step loop either extends the failure-free prefix by one step or ends the whole plan with that step's failure |
| ModuleUpgrader.Upgrader.UpgradeProcess | src/CentreonLegacy/Core/Module/Upgrader.php:103-111 | one step sets the caller's copy and the row to the target release, then runs the pre PHP, SQL and post PHP phases, stopping at the first failure |
| ModuleUpgrader.Upgrader.UpgradeModuleConfiguration | src/CentreonLegacy/Core/Module/Upgrader.php:119-156 | raises with nothing changed when the base conf.php is missing; otherwise it replaces the ten descriptive fields, keeps mod_release, and returns moduleId |
| ModuleUpgrader.Upgrader.UpgradeVersion | src/CentreonLegacy/Core/Module/Upgrader.php:163-177 | persists the given release and nothing else, and returns moduleId |
| ModuleUpgrader.Upgrader.UpgradeSqlFiles | src/CentreonLegacy/Core/Module/Upgrader.php:185-196 | runs sql/upgrade.sql exactly when sql_files is truthy and the file exists, and returns whether it ran, unless the script raised |
| ModuleUpgrader.Upgrader.UpgradePhpFiles | src/CentreonLegacy/Core/Module/Upgrader.php:205-218 | runs php/upgrade.pre.php or php/upgrade.php exactly when php_files is truthy and the file exists, and returns whether it ran, unless the script raised |
| ModuleUpgrader.Upgrader.Execute | src/CentreonLegacy/Core/Module/Upgrader.php:191 | executing a script records it, and reports whether it ran without raising |

## Left out

- Database plumbing (`prepare`, `bindParam`, `execute`): the row is a record field and each UPDATE is an assignment to it. Database errors are not modelled.
- Symfony Finder and filesystem access: the listing is an input sequence of entries (in the Finder's order) and file existence is membership in an input set. A missing UPGRADE/ directory is not modelled: the listing is given, so a missing directory is treated as an empty one, and `Upgrade` then returns moduleId where the Finder may raise after the metadata update.
- `requireConfiguration`: each listed entry carries the configuration its `conf.php` would load. A `conf.php` that fails to load, or lacks the module's key, is not modelled.
- `executeSqlFile` and `executePhpFile`: a run is a trace event, and a failure is membership in the `failing` set. What the scripts do to the database is not modelled.
- File existence is fixed before the run starts: every gate consults the same `files` set, while the source checks existence when each helper is called, after the earlier scripts ran. A script that creates or removes a later script file (a pre PHP script writing `sql/upgrade.sql`, say) is not modelled.
- Full `version_compare` semantics (special tokens such as `alpha`, `RC`, `pl`, separator normalisation) and the parsing of release strings: releases are numeric segments. Two spellings of the same release ("1.2.0" and "1.02.0") are one key in the model, but two keys of PHP's array.
- The regular expression engine and the unescaped module name inside the pattern: a module name holding regex metacharacters would match differently from the literal prefix test modelled here.
- The base class `Module` (`getModulePath`, `informationObj`, `moduleConfiguration`) is not part of this model: its values are inputs, and `getInstalledInformation` is taken to read back the row field.
- ModuleUpgrader.Upgrader.Upgrade: the `onlyWithNextVersion` parameter is accepted and ignored, as in the source.
- ModuleUpgrader.SortByReleaseTo: `usort` is modelled as an insertion sort. PHP's own algorithm is not modelled; `Planning.PlanUnique` shows that the resulting order is the same, because targets are unique.
- PHP's casting of integer-like array keys: a `release_to` such as "3" becomes the integer key 3. PHP casts only canonical integer strings, so distinct strings stay distinct keys, and `usort` discards the keys anyway; the model keys by the release itself.
