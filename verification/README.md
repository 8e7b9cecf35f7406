# Pactile CLI: verified models of the updater, the release scripts and their merge rules

Pactile keeps a set of template files inside a user's project. Its CLI updates them in place, migrates old
layouts, edits the user's configuration and is itself published by a handful of release scripts. This project
models the parts of that program that can destroy a user's work or publish the wrong bytes, in Dafny 4.11, and
proves what they promise. `dafny verify dfyconfig.toml` checks everything.

## The parts

**Update engine.** `Workspace` is a project root: files (regular or symbolic links), directories and the hash
manifest, once as a value with one function per file-system call and once as the class `Root`, whose methods
follow those functions and may throw at any call when the disk is faulty. `Migrations`, `SafeDeletes` and
`Analysis` hold the planner's loops and the executor; `Update` puts the phases together as a specification and
`UpdateRun` is the command as a method: staging in a build root, one atomic commit that succeeds or throws, then
the deferred writes. The results are in `MigrationTheorems` (what becomes of each file and of each key of the manifest),
`UpdateConservation` (user files survive a skip-all run exactly when no directory rename puts them onto a written path or
buries them), `UpdateConvergence` (the second analysis after any run, path by path, and when it is settled), `UpdateCompletes`
(when a run without migrations gets to its end), `UpdateRun` (nothing changes but the backup when the run throws before the
commit, a prefix of the live work when it throws after), `UpdateStops` (what a later analysis makes of a run that threw
after the commit, and what has become of the user's files) and `UpdateHistory` (every stored hash is one of shipped content,
over any interleaving of completed and stopped runs, re-initialisations and user edits; `HashInit` is the manifest that an
installation starts from). `UpdateExample` and `UpdateUncovered` are projects on which the failing cases happen.

**Skip-list editor.** `SkipConfig` has the reader and the editor of `update.skip` as the two line machines they
are, `SkipConfigText` takes them to whole texts with either newline, and `SkipConfigTheorems` proves when they
agree: always while an item remains, and, when the list empties, exactly when no second list hides behind its header and no
item behind the `update:` line that goes with it.

**Versions and windows.** `Versions` has the comparator's two loops and the order they compute, a total preorder
on all texts; `SemVer` compares it with section 11 of SemVer 2.0.0; `Releases` has the release grammar and the
second, independent comparator; `ReleasePlan` has the two independent bump functions; `MigrationWindows` selects
and collects manifests, on top of the stable sort of `Sorting`.

**Release protocol.** `ReleaseArtifacts` prepares, seals and reopens the tarballs, `ReleaseTags` ties
distribution tags to channels, `Publish` runs the gates and the publish loop against a registry whose commands
may fail before or after their effect, and `PublishSafety` proves safety over any sequence of such runs.

**Merge rules.** `HookCommands`, `HooksScrubber` and `HooksTheorems` remove hook entries from settings files;
`McpConfig` and `CodexConfig` maintain the managed part of client configurations; `Ranking` aggregates paged
retrieval results; `Workspaces` expands workspace patterns and scans for sibling repositories; `PythonLiterals`
rewrites interpreter names.

`Wrappers`, `Text`, `Paths`, `Numerals`, `JsonObjects` and `Sorting` are shared vocabulary.

## What the proofs found

These are properties of the code as it is; each has a lemma with the failing inputs and, where one exists, the
exact condition.

- Nested directory renames with nested targets destroy files: the deeper rename runs first and the shallower one
  then replaces the target that it has just filled (`MigrationTheorems.NestedTargetsDestroy`,
  `NestedTargetsExample`). The deeper-first order protects nested sources only.
- A directory rename can carry a user's file onto a path that the analysis, made before, lists for writing; the
  template then overwrites it (`UpdateConservation.UserFilesKept`, `ClobberedByRenameDir`; `UpdateExample` has a
  whole run on which it happens).
- Symbolic links and files below directories that backups leave out are invisible to the scan that decides
  whether a target may be replaced, and are removed with it: among well-authored items a user file is lost in a skip-all
  run exactly if an automatic directory rename has it below its target and the scan does not see it, and then it is not
  in the backup either (`UpdateConservation.LostExactly`, `UserFilesKept`, `BuriedFilesAreDestroyed`).
- The files of a renamed generation directory survive the commit exactly if the generation walk reaches the new place.
  The boundary check accepts more places than the walk reaches: the user-data directories themselves, anything below an
  excluded file name such as `.pactile/.developer/y`, anything below a directory named like compiled Python
  (`UpdateConservation.RenamedDirectorySurvives`, `CanonicalPaths.OutsideTheWalk`, `UnreachedTargets`).
- A run that writes `config.yaml` can thereby drop `update.skip`; templates that were skipped then turn up in the next
  analysis (`UpdateConvergence.ForceRunSettles`, `OverwrittenConfigUncovers`; `UpdateUncovered.HiddenFileUncovered` has a
  whole run).
- The pruning of stale skip entries compares a file with its template up to line ends, the analysis compares bytes. When
  the skip list names an untracked copy that differs in line ends only, any run takes the copy off the list, a force run
  too, and the next analysis asks about it (`UpdateConvergence.StaleCopyTurnsUp`; `UpdateUncovered.CopyTurnsUp` has a
  whole run). Exactly when the next analysis is settled, and when it has the same conflicts, is in `SettledExactly` and
  `SameConflictsExactly`.
- A run that throws after the commit has already recorded the hashes of live templates that it has not written. New ones
  then count as deleted by the user and are not installed again; pristine ones that were to be updated count as modified
  by the user (`UpdateStops.MisjudgedExactly`; `StopBeforeWriting` shows that every run with deferred writes can stop so).
- Initialising the manifest adopts whatever lies below the workflow root and is not excluded: a user's file there counts
  as shipped and unmodified from then on (`HashInit.AdoptedExactly`).
- Emptying the skip list removes its header, and with it the only line that kept a second `skip:` list from being
  read (`SkipConfigTheorems.SecondListExample`). It can also remove the last `update:` line, and with it what kept an item
  from an earlier open list; the item has to be indented by white space other than blanks and tabs, which the reader accepts
  and the search for other keys does not (`RevivedEntryExample`). Nothing else goes wrong (`CommutesWhenEmptied`).
- `compareVersions` calls its order SemVer's, but reads a prerelease identifier such as `-5` as a number
  (`SemVer.NegativeIdsBreakIt`).
- `replacePythonCommandLiterals` is documented as idempotent; for the command `python` it is not
  (`PythonLiterals.Python33`).
- Applying two Codex blocks in a row gives what the second gives alone, for all blocks, exactly if the text that is kept
  has no start marker (`CodexConfig.LastBlockWinsExactly`). A second closed block in the text is cut at the second
  application instead of the new one; behind a marker that is never closed everything is lost
  (`CodexConfig.UnclosedMarkerLosesText`).
- Selecting capabilities in two steps can order `mcp.json` differently from selecting them at once
  (`McpConfig.OrderRemembersTheFirstSelection`; exactly when, in `SecondTextExactly`).
- A release that is prepared again after a partial publish can never get its own bytes onto the versions that are already
  there; a finished set has the bytes of its receipt exactly if every version that was there before had them
  (`PublishSafety.ResumeCompletes`).

Where comments and code differ, the model follows the code: `uninstall-scrubbers.ts` speaks of substring
containment, but matches the invoked script; `getConfigSectionsAddedBetween` says strictly between, but includes
the target version.

## Model

| member | source | states |
|---|---|---|
| Workspace.RenameKeys | packages/cli/src/commands/update.ts:1650-1670 | one pass over the manifest after a directory rename gives the map in which keys below the old place moved, stale keys of the replaced target are gone and the rest is as before |
| Workspace.CollectHashes | packages/cli/src/utils/template-hash.ts:152-166 | hashing a set of written files adds exactly the hash of each non-excluded path's content |
| Workspace.Root.CleanupEmptyDirs | packages/cli/src/commands/update.ts:1533-1565 | the recursive cleanup in place is the specification that `SafeDeletes.CleanupExact` describes |
| Workspace.Root.RenameDirHashes | packages/cli/src/commands/update.ts:1650-1670 | the manifest after a directory rename, in place |
| Workspace.Root.UpdateHashes | packages/cli/src/utils/template-hash.ts:152-166 | the manifest after recording written files, in place, files and directories untouched |
| Migrations.IsDirectorySafeToReplace | packages/cli/src/commands/update.ts:1177-1263 | the scan answers whether every scanned file below a directory is unmodified, and throws where the code throws |
| Migrations.ClassifyMigrations | packages/cli/src/commands/update.ts:1286-1378 | the four lists hold exactly the items of their class, in manifest order |
| Migrations.RunAuto | packages/cli/src/commands/update.ts:1613-1685 | one automatic item on disk: done as specified, or thrown for a reason the specification or the disk gives |
| Migrations.RunConfirmed | packages/cli/src/commands/update.ts:1689-1753 | one confirmed item with the user's answer, with the same alternatives |
| Migrations.ExecuteMigrations | packages/cli/src/commands/update.ts:1597-1759 | the whole loop over sorted automatic and confirmed items refines the fold of the item steps |
| Migrations.StepFollowsFate | packages/cli/src/commands/update.ts:1613-1685 | after one item the files are the image of the files before under the item's fate function, with the same bytes |
| MigrationTheorems.ExecutionFollowsFate | packages/cli/src/commands/update.ts:1597-1759 | for any list of items that runs to its end, the files afterwards are exactly the survivors at their fates |
| MigrationTheorems.StepHashes | packages/cli/src/commands/update.ts:1613-1685 | what an item does to the manifest does not depend on the files |
| MigrationTheorems.RenamedManifest | packages/cli/src/commands/update.ts:1634-1672 | after a directory rename between disjoint places no key is left below the old one, moved keys keep their hash, the target's stale keys are gone, all others are untouched |
| MigrationTheorems.ManifestFollowsFate | packages/cli/src/commands/update.ts:1597-1685 | over a whole list of items kept apart the manifest afterwards is exactly the keys at their fates, with their hashes |
| MigrationTheorems.SortedManifest | packages/cli/src/commands/update.ts:1573-1685 | after the deeper-first run of well-authored items no key is left below an old directory, a new directory has only the keys that its rename brought, each key moves with the deepest renamed directory above it and keeps its hash, and keys that no item concerns are untouched |
| MigrationTheorems.ExecutionKeepsHash | packages/cli/src/commands/update.ts:1573-1672 | over a whole list, a tracked file that survives keeps its stored hash under its new path |
| MigrationTheorems.StatusFollows | packages/cli/src/utils/template-hash.ts:219-259 | and so keeps its modified or unmodified status |
| MigrationTheorems.SortContents | packages/cli/src/commands/update.ts:1573-1588 | the execution order neither drops nor repeats an item |
| MigrationTheorems.SortedApart | packages/cli/src/commands/update.ts:1573-1588 | deeper-first order keeps items with nested sources and disjoint targets from disturbing one another |
| MigrationTheorems.FirstTouchDecides | packages/cli/src/commands/update.ts:1597-1759 | among items kept apart, the first that touches a file decides its fate |
| MigrationTheorems.ApartLoss | packages/cli/src/commands/update.ts:1597-1759 | among items kept apart, a file is lost only if some item destroys it where it was |
| MigrationTheorems.NestedTargetsDestroy | packages/cli/src/commands/update.ts:1573-1672 | with nested sources and nested targets every file of the deeper directory is destroyed |
| MigrationTheorems.NestedTargetsExample | packages/cli/src/commands/update.ts:1286-1378 | a project on which both renames are automatic, the run succeeds and the file is gone |
| SafeDeletes.CollectSafeFileDeletes | packages/cli/src/commands/update.ts:207-272 | each allow-listed deletion gets its verdict, in order |
| SafeDeletes.ExecuteSafeFileDeletes | packages/cli/src/commands/update.ts:322-347 | on a sound disk exactly the specified deletions happen; on any disk only files with allow-listed content go |
| SafeDeletes.DeleteAllExact | packages/cli/src/commands/update.ts:322-347 | exactly the judged files whose content is allow-listed at deletion time go, the others keep their content |
| SafeDeletes.RaceIsSafe | packages/cli/src/commands/update.ts:207-347 | whatever edits happen between judging and deleting, in any interleaving, the files are those of a world without deletions less allow-listed ones |
| SafeDeletes.RaceKeepsUserData | packages/cli/src/commands/update.ts:169-272 | in such a race protected files and files with other content survive with their bytes |
| SafeDeletes.CleanupExact | packages/cli/src/commands/update.ts:1533-1565 | only empty directories strictly below a managed root go, and the walk stops only at a root, an occupied or an unmanaged directory |
| Analysis.AnalyzeChanges | packages/cli/src/commands/update.ts:798-862 | the loop's five lists are the specification's, or it throws where a directory stands in a template's place |
| Analysis.SelectExact | packages/cli/src/commands/update.ts:798-862 | each list holds exactly the templates of its status |
| Analysis.CollectMissingTemplateHashes | packages/cli/src/commands/update.ts:867-883 | exactly the up-to-date files without a stored hash are collected |
| CanonicalPaths.DiscoveredIsCanonical | packages/cli/src/commands/update.ts:1858-1919 | what the generation walk finds is a generation path, prefix by prefix |
| CanonicalPaths.OutsideTheWalk | packages/cli/src/commands/update.ts:1891-1919 | exactly which generation paths the walk does not reach |
| CanonicalPaths.UnreachedTargets | packages/cli/src/commands/update.ts:1891-1919 | `.pactile/spec` and `.pactile/.developer/y` are generation paths that the walk does not reach |
| UpdateRun.StageWrites | packages/cli/src/commands/update.ts:1858-1890 | generation paths are written to the build root, all others come back as deferred writes in order |
| UpdateRun.StageTemplates | packages/cli/src/commands/update.ts:2756-2842 | the three staging loops write the new, the automatically updated and the resolved templates, each to its side |
| UpdateRun.ApplyDeferredLiveWrites | packages/cli/src/commands/update.ts:1879-1889 | the deferred writes reach the project in order, or the call throws after some of them |
| UpdateRun.BackupOnlyAdds | packages/cli/src/commands/update.ts:1097-1134 | the backup changes nothing else and holds a copy of every file it covers |
| UpdateRun.BuildCandidate | packages/cli/src/commands/update.ts:2709-2916 | the build root becomes the specified candidate; the project is not touched |
| UpdateRun.FinishLive | packages/cli/src/commands/update.ts:2917-3110 | after the commit the project gets the live part of the plan, all of it or, when something throws, a prefix of it down to single file-system calls |
| UpdateRun.RunUpdate | packages/cli/src/commands/update.ts:1994-3110 | whatever throws up to and including the commit, on whatever disk, nothing but the backup directory has changed; whatever throws later leaves the committed candidate with a prefix of the live work; a run that completes on a sound disk has exactly the specified effect |
| UpdateRun.SpecIsAnEnd | packages/cli/src/commands/update.ts:2709-3110 | the specified effect is one of the ends that the command's contract allows |
| UpdateCompletes.TemplateRunCompletes | packages/cli/src/commands/update.ts:2709-3110 | a run without migrations completes when no file stands above and nothing below the paths that it writes |
| UpdateConservation.UserFilesKept | packages/cli/src/commands/update.ts:1177-3103 | in a skip-all run, however the items overlap, a user file ends at its migrated place with its bytes if and only if no migration destroys it or puts it onto a path listed for writing; the user's config file may lose stale skip entries |
| UpdateConservation.LostExactly | packages/cli/src/commands/update.ts:1177-1378 | among well-authored items the migrations destroy a user file if and only if an automatic directory rename has it, unseen by the scan, below its target |
| UpdateConservation.ClobberedByRenameDir | packages/cli/src/commands/update.ts:2391-2800 | only a directory rename can do that |
| UpdateExample.UserFileOverwritten | packages/cli/src/commands/update.ts:2391-2800 | a project and a release that meet every condition of that theorem, whose skip-all run gets to its end and does not keep the user's file |
| UpdateConservation.BuriedFilesAreDestroyed | packages/cli/src/commands/update.ts:1177-2916 | after a completed run no file, not even in the backup, has the bytes that only such an unseen file had |
| UpdateConservation.RenamedDirectorySurvives | packages/cli/src/commands/update.ts:1891-1919 | files of a renamed generation directory are at the new place after the commit if and only if the walk reaches it; otherwise they are gone and the new place is as it was |
| UpdateConvergence.NextAnalysis | packages/cli/src/commands/update.ts:360-3103 | after any run without migrations, which templates the next analysis selects, and the status of each: handled ones by their status and the answer, hidden ones unchanged, an edited config file as edited |
| UpdateConvergence.SettledExactly | packages/cli/src/commands/update.ts:798-3103 | the next analysis is settled if and only if every conflict that it still selects was overwritten, there was nothing to do for every template that it newly selects, and a config file that lost entries equals the shipped one |
| UpdateConvergence.ForceRunSettles | packages/cli/src/commands/update.ts:2791-3103 | a force run settles its own templates; the next analysis is settled if and only if there was nothing to do for each template that has come out of hiding |
| UpdateConvergence.SameConflictsExactly | packages/cli/src/commands/update.ts:798-3103 | the next analysis has the same conflicts if and only if each was left as it is and is still selected, and no newly selected template or pruned config file has become one |
| UpdateConvergence.KeepingRunKeepsConflicts | packages/cli/src/commands/update.ts:2791-2842 | a skip-all or create-new run that leaves the skip list alone leaves exactly the same conflicts |
| UpdateConvergence.NewlySelectedExactly | packages/cli/src/commands/update.ts:360-564 | a template comes out of hiding if and only if the run writes the config file or every entry that covers it has become stale |
| UpdateConvergence.StaleCoversItself | packages/cli/src/commands/update.ts:440-471 | a stale entry covers no other shipped file than the one it names, and that one equals its template up to line ends |
| UpdateConvergence.StaleCopyTurnsUp | packages/cli/src/commands/update.ts:440-471 | with the config file and a copy that differs in line ends on the skip list, the copy is a conflict in the next analysis, whatever the flags |
| UpdateUncovered.CopyTurnsUp | packages/cli/src/commands/update.ts:440-471 | a project and a release on which that happens in a run that gets to its end |
| UpdateConvergence.OverwrittenConfigUncovers | packages/cli/src/commands/update.ts:360-2899 | when the run writes the config file, a hidden template that was neither up to date nor deleted makes the next analysis unsettled |
| UpdateUncovered.HiddenFileUncovered | packages/cli/src/commands/update.ts:360-2899 | a project and a release on which that happens in a run that gets to its end |
| UpdateConvergence.MissingHashesAreExcluded | packages/cli/src/utils/template-hash.ts:310-338 | after a run the up-to-date templates without a hash are exactly the unrecorded ones that are excluded from hashing |
| UpdateStops.StopHasEffects | packages/cli/src/commands/update.ts:2709-2992 | whatever a run without migrations leaves when it throws after the commit: each shipped path is as before or as written by the generation or by a prefix of the deferred writes, and the hashes are those of all of them |
| UpdateStops.StatusAfterStop | packages/cli/src/commands/update.ts:2871-2992 | after a run without migrations that threw past the commit: the next status of every template, by whether its deferred write has happened |
| UpdateStops.MisjudgedExactly | packages/cli/src/commands/update.ts:2871-2992 | a template that was not written is misjudged if and only if it is hashed and was new, or was to be updated from text that differs beyond line ends, or was a conflict with text that does not; the new ones count as deleted, with a hash for bytes never written |
| UpdateStops.StopBeforeWriting | packages/cli/src/commands/update.ts:1879-1889 | every run that would complete with deferred writes can stop before the first of them |
| UpdateStops.UserFilesSurviveStops | packages/cli/src/commands/update.ts:2909-3103 | when a skip-all run throws after the commit, on any disk, a user file that is neither buried nor moved onto a written path is at its old or its new place with its bytes |
| HashInit.InitializeHashes | packages/cli/src/utils/template-hash.ts:346-469 | the loops over recorded paths and over the walk give the specified manifest |
| HashInit.AdoptedExactly | packages/cli/src/utils/template-hash.ts:409-450 | after a fresh initialisation a file is tracked and unmodified if and only if it was hashed, whoever wrote it |
| HashInit.AdoptedIsMigrated | packages/cli/src/commands/update.ts:1286-1378 | so a migration deletes such a file without asking |
| UpdateHistory.InitializedIsTraced | packages/cli/src/utils/template-hash.ts:386-450 | an initialised manifest holds hashes of shipped content only, if and only if every file that is hashed holds such content and a merge keeps nothing else |
| UpdateHistory.RunKeepsTraced | packages/cli/src/commands/update.ts:2871-2899 | one run with any flags and answers, on any disk, completed or stopped after the commit, keeps every stored hash that of shipped content |
| UpdateHistory.FreshInstallIsTraced | packages/cli/src/utils/template-hash.ts:409-450 | an install whose initialisation finds only shipped templates starts in that state |
| UpdateHistory.HistoryIsTraced | packages/cli/src/commands/update.ts:1994-3110 | so does any interleaving of completed runs, stopped runs, re-initialisations that find shipped content, user edits and user deletions |
| UpdateHistory.AutoUpdateReplacesShipped | packages/cli/src/commands/update.ts:798-862 | from a fresh install on, an automatic update replaces only content that was shipped, up to line ends |
| UpdateHistory.UnmodifiedIsShipped | packages/cli/src/utils/template-hash.ts:219-259 | a file that counts as unmodified holds shipped content, for `AGENTS.md` in its managed block |
| SkipConfig.LoadSkipPaths | packages/cli/src/commands/update.ts:360-421 | the reader's loop over classified lines returns the reading |
| SkipConfig.RemoveSkipPaths | packages/cli/src/commands/update.ts:473-564 | the editor's loop keeps exactly the specified lines and reports exactly the read paths that are to go |
| SkipConfigText.RemoveUpdateSkipPathsFromConfig | packages/cli/src/commands/update.ts:473-564 | the same on the text, with its newlines and its last line |
| SkipConfigText.ReadAfterEdit | packages/cli/src/commands/update.ts:360-564 | splitting, editing, joining and splitting again loses nothing: reading the edited text is reading the kept lines |
| SkipConfigTheorems.CommutesWhileItemsRemain | packages/cli/src/commands/update.ts:360-564 | while an item remains, reading after an edit is the old reading less the removed paths, without any condition |
| SkipConfigTheorems.CommutesWhenEmptied | packages/cli/src/commands/update.ts:473-564 | when the list empties this holds, however lines are indented, if and only if no second list hides behind the removed header and no item of an earlier list behind the removed `update:` line |
| SkipConfigTheorems.CommutesWithOneHeader | packages/cli/src/commands/update.ts:473-564 | with one `skip:`-shaped line it always holds |
| SkipConfigTheorems.SecondEditIsIdle | packages/cli/src/commands/update.ts:473-564 | where it holds, the second removal of the same paths drops no line |
| SkipConfigTheorems.SecondListExample | packages/cli/src/commands/update.ts:473-564 | a config on which emptying the list revives another |
| SkipConfigTheorems.RevivedEntryExample | packages/cli/src/commands/update.ts:473-564 | a config on which emptying the list revives an item behind the removed `update:` line |
| SkipConfigText.EditCommutes | packages/cli/src/commands/update.ts:360-564 | for every text and every set of paths, exactly when reading the edited text gives the old list less those paths |
| SkipConfigText.SecondRemovalIsIdle | packages/cli/src/commands/update.ts:473-564 | a second removal leaves the text as it is |
| Versions.CompareVersions | packages/cli/src/utils/compare-versions.ts:11-83 | the comparator's loops compute the order: bases part by part with missing parts zero, then prereleases |
| Versions.OrderTransitive | packages/cli/src/utils/compare-versions.ts:11-83 | antisymmetry and transitivity for any three texts |
| Versions.CompareIsTotalPreorder | packages/cli/src/utils/compare-versions.ts:11-83 | the order is a total preorder on all texts |
| SemVer.FollowsSection11 | packages/cli/src/utils/compare-versions.ts:30-83 | on valid versions without build metadata and without negative-looking identifiers it is the precedence of section 11 of SemVer 2.0.0 |
| SemVer.NegativeIdsBreakIt | packages/cli/src/utils/compare-versions.ts:62-79 | every version with a negative-looking identifier is ordered wrongly against some version without |
| Releases.ParseRender | packages/cli/scripts/release-guard.js:73-91 | a rendered release reads back as itself |
| Releases.RenderParse | packages/cli/scripts/release-guard.js:3-91 | every text of the grammar is the rendering of what is read from it |
| Releases.ComparatorsAgree | packages/cli/scripts/release-guard.js:93-106 | on the whole release grammar both comparators give the same answer |
| ReleasePlan.PlannerMeans | packages/cli/scripts/release.js:44-84 | the planner's text for each type is the rendering of the intended successor |
| ReleasePlan.BumperMeans | packages/cli/scripts/bump-versions.js:66-119 | so is the bumper's |
| ReleasePlan.PlannerIsGuardedBumper | packages/cli/scripts/release.js:44-91 | for every current text and every type text the planner gives the bumper's result exactly when that is a release newer than the current one, and nothing otherwise |
| ReleasePlan.NamedRejections | packages/cli/scripts/release.js:44-91 | on a release the six types are refused only for promoting a stable version and for `beta` on a release candidate |
| ReleasePlan.PlannedIsNewer | packages/cli/scripts/release.js:85-90 | what the planner accepts is a release that the updater's comparator finds newer too |
| Sorting.SortIsStable | packages/cli/src/migrations/index.ts:82 | the sort keeps the order of ties |
| Sorting.HostSorts | packages/cli/src/migrations/index.ts:82 | any stable sort has the result of the model's sort |
| MigrationWindows.GetMigrationsForVersion | packages/cli/src/migrations/index.ts:75-101 | the loop collects the migrations of the window in version order |
| MigrationWindows.GetConfigSectionsAddedBetween | packages/cli/src/migrations/index.ts:163-184 | the same for config sections |
| MigrationWindows.GetMigrationMetadata | packages/cli/src/migrations/index.ts:190-247 | the loop accumulates changelog, guides and flags of the window |
| MigrationWindows.ApplicableExactly | packages/cli/src/migrations/index.ts:85-89 | a manifest is in the window exactly when it is after the installed version and not after the target |
| MigrationWindows.WindowsCompose | packages/cli/src/migrations/index.ts:75-101 | stopping at an intermediate version splits the window without gap or overlap |
| MigrationWindows.NoWayBack | packages/cli/src/migrations/index.ts:85-89 | staying or going back applies nothing |
| MigrationWindows.UpgradePathsAgree | packages/cli/src/migrations/index.ts:75-184 | along any rising path of versions the steps apply together exactly what the direct upgrade applies |
| MigrationWindows.MetadataComposes | packages/cli/src/migrations/index.ts:190-247 | texts compose in order, flags by disjunction |
| ReleaseArtifacts.AssertReleasePackageOrder | packages/cli/scripts/release-preflight.js:58-91 | an order is accepted if and only if it is a permutation of the graph's packages in which dependencies come first |
| ReleaseArtifacts.ReleaseOrderIsAccepted | packages/cli/scripts/release-preflight.js:51-120 | the release graph's own order is such an order |
| ReleaseArtifacts.ResolvedTagIsStable | packages/cli/scripts/release-preflight.js:138-166 | a resolved tag resolves to itself |
| ReleaseTags.TagsFollowChannels | packages/cli/scripts/release-preflight.js:122-166 | a prerelease can only be published under its channel, a stable release only as `latest` or `candidate` |
| ReleaseArtifacts.ArtifactDirectory.Prepare | packages/cli/scripts/release-validation.js:311-374 | succeeds exactly on an empty directory, an acceptable tag and packages that pass inspection; then directory and receipt are those of the sealed manifest |
| ReleaseArtifacts.ReadIsSealedOrFails | packages/cli/scripts/release-validation.js:383-529 | with the receipt, reading any directory gives the packed tarballs if manifest and tarballs are byte for byte as sealed, and fails otherwise |
| ReleaseArtifacts.PrepareThenRead | packages/cli/scripts/release-validation.js:311-529 | a prepared directory reads back exactly when no two packages with different bytes share a tarball name |
| Publish.CreatePublishPlan | packages/cli/scripts/release-preflight.js:305-325 | the plan publishes exactly the absent packages |
| Publish.PublishAll | packages/cli/scripts/publish-packages.js:346-376 | the loop adds what some prefix of the publishes adds, and all of it when it ends normally |
| Publish.RunPreparedPublish | packages/cli/scripts/publish-packages.js:245-378 | no contact with the registry before every check has passed; a rehearsal changes nothing; any other run is a prefix of the publish loop |
| PublishSafety.RunAddsSealed | packages/cli/scripts/publish-packages.js:346-376 | wherever a run stops, it only added absent versions with the bytes of its packages, none twice |
| PublishSafety.RunKeepsGood | packages/cli/scripts/publish-packages.js:346-376 | for any graph and any accepted order, wherever the run stops, the catalog stays closed under dependencies and has the set's bytes exactly if it had them before |
| PublishSafety.LateDependencyIsExposed | packages/cli/scripts/release-preflight.js:75-82 | with a dependency later in the order some crash leaves a dependent published without it |
| PublishSafety.AdmittedIsSealed | packages/cli/scripts/publish-packages.js:274-307 | a run that holds the receipt publishes the sealed set whatever it finds in the directory |
| PublishSafety.HistoryIsSafe | packages/cli/scripts/publish-packages.js:245-378 | over any history of crashing runs, of any versions, directories and receipts: every release stays closed under dependencies, existing versions keep their bytes, nothing is published twice, and each new version has the bytes that an admitted run carried |
| PublishSafety.ReceiptHistory | packages/cli/scripts/publish-packages.js:274-376 | a history with one receipt adds sealed bytes only; the set has them afterwards exactly if it had them before |
| PublishSafety.FinishedMeansAll | packages/cli/scripts/publish-packages.js:346-376 | a run that finishes leaves the whole set published |
| PublishSafety.ResumeCompletes | packages/cli/scripts/publish-packages.js:245-378 | after any history an admitted run that is not stopped completes the set; it then has the bytes of its receipt if and only if every version that was there before the run had them |
| HookCommands.ExtractInvokedScriptToken | packages/cli/src/utils/uninstall-scrubbers.ts:54-75 | the nested index loops find the specified token |
| HookCommands.ScriptAfterInterpreter | packages/cli/src/utils/uninstall-scrubbers.ts:20-75 | behind an interpreter and its flags the script is found, whatever the arguments are |
| HookCommands.CommandMatchesDeletedPath | packages/cli/src/utils/uninstall-scrubbers.ts:77-93 | a command matches exactly when its script is a deleted path or ends with one |
| HooksScrubber.ScrubHooks | packages/cli/src/utils/uninstall-scrubbers.ts:154-208 | deleting and replacing events of the object while walking over its keys gives the event-by-event result |
| HooksScrubber.ScrubHooksJson | packages/cli/src/utils/uninstall-scrubbers.ts:122-222 | the whole call, with its untouched cases; the file counts as empty exactly when no key is left |
| HooksTheorems.SurvivorsAreExact | packages/cli/src/utils/uninstall-scrubbers.ts:154-208 | in both modes the entries left of each event are precisely those that do not run a deleted script, in order |
| HooksTheorems.ScrubTouchesOnlyHooks | packages/cli/src/utils/uninstall-scrubbers.ts:201-222 | other keys stay in their order, and no empty event, matcher block or hooks object remains |
| HooksTheorems.ScrubIsIdempotent | packages/cli/src/utils/uninstall-scrubbers.ts:122-222 | a second scrubbing changes nothing |
| HooksTheorems.FullyEmptyExactly | packages/cli/src/utils/uninstall-scrubbers.ts:142-222 | the file may go exactly when it was empty or held nothing but entries of deleted scripts |
| McpConfig.UniqueMcpServers | packages/cli/src/utils/project-capabilities.ts:334-346 | the first server of each name among the selected capabilities in registry order |
| McpConfig.RenderMcpJson | packages/cli/src/utils/project-capabilities.ts:894-922 | the deleting and the setting loop give the merge |
| McpConfig.RenderedExactly | packages/cli/src/utils/project-capabilities.ts:894-922 | managed names have the selection's entry or none, all others what they had |
| McpConfig.ForeignEntriesStay | packages/cli/src/utils/project-capabilities.ts:908-919 | entries that are not managed stay in their order |
| McpConfig.LastSelectionWins | packages/cli/src/utils/project-capabilities.ts:894-922 | of two selections the later decides every entry |
| McpConfig.RenderIsIdempotent | packages/cli/src/utils/project-capabilities.ts:894-922 | the same selection again changes nothing, not even the order |
| McpConfig.OrderRemembersTheFirstSelection | packages/cli/src/utils/project-capabilities.ts:917-919 | two selections in a row can leave another order than the second alone |
| McpConfig.SecondTextExactly | packages/cli/src/utils/project-capabilities.ts:894-922 | two selections in a row leave the text of the second alone if and only if the orders of the names agree: new names of both selections first and arranged alike, and names that the first dropped and the second wants again at the end already |
| McpConfig.ForeignEntrySurvivesLoading | packages/cli/src/utils/project-capabilities.ts:849-922 | through loading and rendering an entry that is not managed survives exactly when it is an object with a string command |
| CodexConfig.LastBlockWins | packages/cli/src/utils/project-capabilities.ts:810-830 | when the kept text has no start marker, of two blocks put in a row the first leaves no trace |
| CodexConfig.LastBlockWinsExactly | packages/cli/src/utils/project-capabilities.ts:810-830 | for all pairs of rendered blocks the first leaves no trace, if and only if the kept text has no start marker |
| CodexConfig.OneBlockAtMost | packages/cli/src/utils/project-capabilities.ts:822-824 | a text with a single closed block meets that condition |
| CodexConfig.NoBlock | packages/cli/src/utils/project-capabilities.ts:822-824 | so does a text without one |
| CodexConfig.UnclosedMarkerLosesText | packages/cli/src/utils/project-capabilities.ts:822-830 | an unclosed start marker makes the second application lose everything from the marker on |
| Ranking.PagedCallerAggregation | packages/cli/src/utils/retrieval-result-ranking.ts:106-124 | the loops over sorted pages and their candidates give the ranking of each key's first candidate |
| Ranking.UniqueKeepsFirsts | packages/cli/src/utils/retrieval-result-ranking.ts:112-119 | the candidate kept for a key is its first |
| Ranking.UniqueKeys | packages/cli/src/utils/retrieval-result-ranking.ts:112-119 | one candidate for each key that occurs |
| Ranking.KeyIsExact | packages/cli/src/utils/retrieval-result-ranking.ts:116 | two candidates share a key exactly when they share normalised path and line |
| Ranking.PageOrderIsIrrelevant | packages/cli/src/utils/retrieval-result-ranking.ts:106-124 | with distinct page numbers the result is the same for every permutation of the pages |
| Ranking.SamePageNumberDecides | packages/cli/src/utils/retrieval-result-ranking.ts:112-119 | without, it is not |
| Ranking.RankIsTotalPreorder | packages/cli/src/utils/retrieval-result-ranking.ts:87-96 | the comparator is a total preorder |
| Ranking.CandidateOrderIsIrrelevant | packages/cli/src/utils/retrieval-result-ranking.ts:76-99 | the ranking of candidates with distinct keys does not depend on their order |
| Ranking.KeptPrecedeDropped | packages/cli/src/utils/retrieval-result-ranking.ts:81-124 | everything returned is ranked strictly before everything cut off, and nothing is lost or repeated |
| Workspaces.GlobListsMatchesOnce | packages/cli/src/utils/project-detector.ts:292-322 | the expansion lists every existing directory that matches segment by segment, once, and nothing else |
| Workspaces.ExpandWorkspaceGlobs | packages/cli/src/utils/project-detector.ts:265-286 | the loops give the included directories less the excluded ones |
| Workspaces.ExpansionExact | packages/cli/src/utils/project-detector.ts:265-286 | a directory is expanded exactly when some including pattern matches it and no excluding one does |
| Workspaces.ExclusionsStandAnywhere | packages/cli/src/utils/project-detector.ts:265-286 | the place of the exclusions among the patterns does not matter |
| Workspaces.ParsePolyrepo | packages/cli/src/utils/project-detector.ts:549-599 | the recursive scan that pushes into one list gives the specified list, or nothing below two repositories |
| Workspaces.ScanExact | packages/cli/src/utils/project-detector.ts:562-594 | exactly the repositories within the depth that lie in no other repository are found, each once |
| Workspaces.FoundIsPrefixFree | packages/cli/src/utils/project-detector.ts:583-590 | no repository that is found lies inside another |
| PythonLiterals.RewrittenLines | packages/cli/src/configurators/shared.ts:64-73 | shebang lines stay, in every other line each literal is replaced |
| PythonLiterals.IdempotentUnlessOverlapping | packages/cli/src/configurators/shared.ts:54-73 | for a one-line command, rewriting is idempotent on all contents if and only if the command is `python3` or cannot overlap it |
| PythonLiterals.ProbedCommands | packages/cli/src/configurators/shared.ts:14-51 | `py -3` meets that condition and `python` does not |
| PythonLiterals.Python33 | packages/cli/src/configurators/shared.ts:54-73 | `python33` needs two rewritings |

## Left out

- UpdateConservation.UserFilesKept: about skip-all runs; for a file that a rename moves onto the place of `config.yaml` one direction only. Items that lead out of the generation walk are the matter of `RenamedDirectorySurvives`.
- UpdateConvergence.NextAnalysis: about runs without migrations; with them `UpdateConservation` and `MigrationTheorems` say what happens.
- UpdateStops.MisjudgedExactly: the same; and a write that throws leaves the old content, not a truncated file.
- UpdateHistory.FreshInstallIsTraced: about an installation that finds only shipped files below `.pactile`; `InitializedIsTraced` says exactly when others are harmless.
- PythonLiterals.IdempotentUnlessOverlapping: for commands on one line and without `$`, which the host's `replaceAll` would expand.
- SemVer.FollowsSection11: numbers are unbounded, so rounding above 2^53 is not modelled, and texts are ordered by character, not by UTF-16 unit.
- PublishSafety.HistoryIsSafe: the four package names are distinct and the same in all runs, runs follow one another, and queries see the registry as it is.
- The JSON text of the hash manifest is not modelled; the manifest is a field of the project root.
- A symbolic link is modelled as a link to a file of its own outside the project; link cycles and shared link targets are not modelled.
- Collecting all files below a directory is modelled by its result, not by its walk.
- The lifecycle commit is one atomic step that succeeds or throws; its implementation is not part of this model.
- Times, prompts and answers, the installed version and the keys pruned from the manifest are parameters.
- Config sections that an upgrade appends, official retirement, cleanup of retired clients, artifact writes and trace renaming are side policies with no bearing on these results.
- Reports, banners, file modes and the gates on downgrades and breaking changes are left out.
- SHA-256 is an injective function of what is hashed; the text form of digests is not modelled.
- Packing, tarball inspection, Git queries and JSON printing and parsing are functions passed to the release model; that the artifact directory lies outside the repository is not modelled.
- Unicode normalisation and case folding of ranked paths is a function passed to the model; scores are exact reals and never NaN.
- Workspace file parsers, package names and types, and the merge of several workspace managers would only add easy members.
- Paths are lists of segments, without empty segments or backslashes.
