# drupal-distro `new` command, modelled in Dafny

This project models the `new` console command of drupal-distro
(`src/Drupal/Distro/Console/NewCommand.php`). The command scaffolds a Drupal
distribution from a template directory in these steps:

1. It resolves the arguments and options (profile, directory, profile name and
   description, site name, git URL, core version), using the `?:` defaults.
2. It checks that the template has a `<version>.x` directory and that the
   profile name only holds `[a-zA-Z0-9_]`.
3. It asks drupal.org for the latest release of the core branch.
4. It creates the target directories.
5. It copies the template files of the manifest, expanding the `{{ … }}`
   variables. The manifest has eleven fixed files, plus three profile stubs
   for version 7.
6. It renames `build-example.make` to `build-<profile>.make`.
7. It moves each stub `<branch>/example<ext>` up to `<profile><ext>` and
   removes the branch directory.
8. It hands the directory to git.

The modules:

- `Wrappers`: `Option` and `Result`.
- `Text`: PHP's `str_replace` on one search string (`ReplaceAll`), a
  find-based reference definition (`ReplaceByFind`), and `replaceVariables`
  as the left fold of the six passes in table order (`ReplaceVariables`).
- `Paths`: the path joins `$dir . '/' . $name`, the subtree relation, and the
  `preg_replace` that moves the stubs (`FirstStubMatch`, `StubTarget`).
- `Files`: the filesystem as a value (`Tree`) with one function per Symfony
  `Filesystem` call. The class `FileSystem` is the mutable handle the command
  works through; each of its methods is proved to produce the state that its
  function gives.
- `Manifest`: the list of copied files and the facts about it.
- `Settings`:
  - the command line, the default resolution and the two validations;
  - the errors and their messages;
  - the replacement table;
  - `getLatestDrupalVersion`, with the HTTP service as a class whose responses
    are fixed and whose requests are logged.
- `NewCommand`:
  - `copyFile`, `mkdir` and `execute` as methods over `FileSystem`;
  - the value-level functions that specify each stage (`CopyAll`,
    `PrepareWith`/`Prepare`, `RenameAll`, `Finish`);
  - the theorems about a whole run (`MaterialiseFresh`, `ManifestMaterialises`,
    `ListingOrderIrrelevant`, `AcceptedRun`).

`Execute` is proved against these functions. The listing order of the stub
directory is not fixed: it is whatever `FileSystem.ListFiles` returns. So the
postcondition of `Execute` says that some listing of the stub directory
exists for which the final state is the one `Finish` computes.
`ListingOrderIrrelevant` then shows that, into a target directory without
files, any two listings end in the same tree and the same result.

The pattern `<branch>/example(\.[a-z]+)$` (line 223) consumes `<branch>/`, so
each stub moves up to `<dir>/<profile><ext>` (line 216: "Move the profile
files"), and the branch directory is then removed (line 230).
`StubTargetMovesUp` states the move.

## Model

| member | source | states |
|---|---|---|
| Settings.Resolve | src/Drupal/Distro/Console/NewCommand.php:155-162 | the profile and `--no-repo` are taken as given, and the branch is always `<version>.x` of the resolved version (each option's own fallback is stated by `ResolveEachOption`) |
| Settings.ResolveEachOption | src/Drupal/Distro/Console/NewCommand.php:155-162 | each option, whatever the others are, is used as given when truthy and otherwise takes its fallback: `./<profile>`, the profile (name and description), the resolved profile name (site name), `http://git.drupal.org/project/<profile>.git`, `7`; the branch is `<version>.x` |
| Settings.ResolveDefaults | src/Drupal/Distro/Console/NewCommand.php:155-162 | with no option given, the directory is `./<profile>`; the names and description are the profile; the git URL is `http://git.drupal.org/project/<profile>.git`; the core version is `7` and the branch `7.x` |
| Settings.SiteNameFollowsProfileName | src/Drupal/Distro/Console/NewCommand.php:157-159 | an absent site name falls back to the resolved profile name, which is the given profile name if there is one, else the profile |
| Settings.EmptyAndZeroAreAbsent | src/Drupal/Distro/Console/NewCommand.php:156-161 | each option set to `""` or `"0"` resolves exactly as when it is absent (PHP `?:` truthiness) |
| Settings.Validate | src/Drupal/Distro/Console/NewCommand.php:164-170 | the run fails with `CoreVersionNotValid` iff the branch is not a template directory; with `ProfileNameNotValid` iff the branch exists and the profile holds a character outside `[a-zA-Z0-9_]`; otherwise it passes |
| Settings.Message | src/Drupal/Distro/Console/NewCommand.php:165-169 | the exception text of each of the command's own failures: `Core version not valid: <version>`, the profile-name message, `Invalid response: Latest Drupal release not found.` (line 306) and `File not found: <file>` (line 263) (definition) |
| Settings.ValidationMessage | src/Drupal/Distro/Console/NewCommand.php:164-170 | a rejection is one of the command's own exceptions, with message `Core version not valid: <version>` or the profile-name message |
| Settings.AcceptedProfileIsPlainName | src/Drupal/Distro/Console/NewCommand.php:168-170 | an accepted profile holds no `/`, `.`, `{` or `-` |
| Settings.ProfileCheckExamples | src/Drupal/Distro/Console/NewCommand.php:168-170 | the empty profile and `acme_Distro2` are accepted; `my-profile`, `my profile` and `my.profile` are rejected |
| Settings.Replacements | src/Drupal/Distro/Console/NewCommand.php:172-179 | the six pairs in declaration order: `{{ drupal.version }}`, `{{ git.url }}`, `{{ profile }}`, `{{ profile.name }}`, `{{ profile.description }}`, `{{ site.name }}`, each with its value (definition) |
| Settings.ExpandProfileAndVersion | src/Drupal/Distro/Console/NewCommand.php:172-179 | a template `a{{ profile }}b{{ drupal.version }}` without braces in its text, with a profile and a version that contain no brace either, expands to `a<profile>b<version>`; the other four passes leave it alone |
| Settings.ExpansionExample | src/Drupal/Distro/Console/NewCommand.php:172-179 | `name: {{ profile }}, v{{ drupal.version }}` with profile `acme` and version `8.1.0` expands to `name: acme, v8.1.0` |
| Settings.GitUrlExpandedAgain | src/Drupal/Distro/Console/NewCommand.php:172-179 | the passes run one after another, so a git URL of `{{ profile }}` put in by the second pass is expanded by the third |
| Settings.SiteNameVerbatim | src/Drupal/Distro/Console/NewCommand.php:172-179 | the site-name pass is last, so `{{ site.name }}` becomes the site name verbatim, whatever it holds |
| Settings.OtherTokenKept | src/Drupal/Distro/Console/NewCommand.php:278-283 | the pass for one variable leaves an occurrence of another variable in place |
| Settings.LatestVersion | src/Drupal/Distro/Console/NewCommand.php:305-309 | a failed request is an error; a document without a release fails with `ReleaseNotFound`; otherwise the result is the first release's version |
| Settings.UpdatesClient.Get | src/Drupal/Distro/Console/NewCommand.php:297-300 | one request is logged and its response is the service's answer for that URL |
| Settings.GetLatestDrupalVersion | src/Drupal/Distro/Console/NewCommand.php:294-310 | exactly one request, for `http://updates.drupal.org/release-history/drupal/<branch>`; the result is `LatestVersion` of its response |
| Text.ReplaceAll | src/Drupal/Distro/Console/NewCommand.php:282 | `str_replace` with one search string: every left-to-right, non-overlapping occurrence is replaced; an empty search string leaves the subject as it is (definition; its properties are the lemmas below) |
| Text.ReplaceAllIsReplaceByFind | src/Drupal/Distro/Console/NewCommand.php:282 | the character scan and the find-copy-replace definition of `str_replace` agree on every input |
| Text.ReplaceAllSkips | src/Drupal/Distro/Console/NewCommand.php:282 | a prefix with no occurrence starting in it is copied unchanged |
| Text.ReplaceAllAbsent | src/Drupal/Distro/Console/NewCommand.php:282 | a subject without the search string is returned unchanged |
| Text.ReplaceAllPlainPrefix | src/Drupal/Distro/Console/NewCommand.php:282 | text without the first character of the search string passes through |
| Text.ReplaceAllLeadingToken | src/Drupal/Distro/Console/NewCommand.php:282 | a leading occurrence becomes the replacement, and the scan continues after it |
| Text.ReplaceAllTokenOnly | src/Drupal/Distro/Console/NewCommand.php:282 | a subject that is exactly the search string becomes the replacement |
| Text.IndexOf | src/Drupal/Distro/Console/NewCommand.php:282 | finds an occurrence iff there is one, and then the leftmost |
| Text.ReplaceVariables | src/Drupal/Distro/Console/NewCommand.php:278-283 | `str_replace` with arrays: the pairs applied one after another in array order, each on the previous result (definition) |
| Text.ReplaceVariablesAbsent | src/Drupal/Distro/Console/NewCommand.php:278-283 | a subject containing none of the variables is returned unchanged |
| Text.ReplaceVariablesAppend | src/Drupal/Distro/Console/NewCommand.php:278-283 | expanding with a concatenated table is expanding with the first part, then the second |
| Manifest.Filenames | src/Drupal/Distro/Console/NewCommand.php:181-199 | the copy list of a core version (definition; `ManifestEntries` spells it out) |
| Manifest.ManifestEntries | src/Drupal/Distro/Console/NewCommand.php:181-199 | the eleven fixed paths in order, followed, iff the version is `7`, by exactly `7.x/example.info`, `7.x/example.install` and `7.x/example.profile` |
| Manifest.StubEntry | src/Drupal/Distro/Console/NewCommand.php:195-199 | the entries after the fixed paths exist only for version 7 and are `<branch>/example<ext>` in extension order |
| Manifest.ManifestDistinct | src/Drupal/Distro/Console/NewCommand.php:181-199 | no path is listed twice |
| Manifest.ManifestBranchEntries | src/Drupal/Distro/Console/NewCommand.php:181-199 | a listed path lies in the branch directory iff the version is 7 and it is one of the three stubs |
| Manifest.BaseFilesOutsideBranch | src/Drupal/Distro/Console/NewCommand.php:181-193 | no fixed path lies in `<version>.x`, whatever the version |
| Manifest.StubFilesInBranch | src/Drupal/Distro/Console/NewCommand.php:195-199 | each stub lies directly in the branch directory |
| Manifest.BuildNameIsNew | src/Drupal/Distro/Console/NewCommand.php:213-214 | `build-<profile>.make` is no other listed file; it equals `build-example.make` iff the profile is `example` |
| Manifest.StubNameIsNew | src/Drupal/Distro/Console/NewCommand.php:223-227 | a moved stub `<profile><ext>` takes the place of no fixed file and not of the renamed build file |
| Paths.StubTarget | src/Drupal/Distro/Console/NewCommand.php:223-226 | `preg_replace` of the stub pattern: the leftmost match, if any, is replaced by the profile and the captured extension (definition) |
| Paths.FirstStubMatch | src/Drupal/Distro/Console/NewCommand.php:223-226 | the start of the leftmost match of `<branch>/example(\.[a-z]+)$` at or after a position, if any, as PCRE searches; the match lies within the path |
| Paths.FirstStubMatchIsLeftmost | src/Drupal/Distro/Console/NewCommand.php:223-226 | the pattern search finds a match iff there is one, and then the leftmost |
| Paths.FirstStubMatchAt | src/Drupal/Distro/Console/NewCommand.php:223-226 | a match with no earlier one is the one found |
| Paths.StubTargetMovesUp | src/Drupal/Distro/Console/NewCommand.php:223-226 | `<dir>/<branch>/example<ext>` is rewritten to `<dir>/<profile><ext>` |
| Paths.StubTargetNoMatch | src/Drupal/Distro/Console/NewCommand.php:223-226 | a path without a match is returned unchanged |
| Paths.MovedUpLeavesBranch | src/Drupal/Distro/Console/NewCommand.php:223-230 | the moved stub is outside the branch directory that is removed afterwards |
| Paths.JoinInjective | src/Drupal/Distro/Console/NewCommand.php:267 | distinct names give distinct destination paths under the same directory |
| Files.WithDir | src/Drupal/Distro/Console/NewCommand.php:243-246 | `mkdir`: the directory and its ancestors are added, the files are untouched (definition) |
| Files.WithFile | src/Drupal/Distro/Console/NewCommand.php:267 | `dumpFile`: the file gets the content, replacing any old one, and its parent directories are added (definition) |
| Files.Moved | src/Drupal/Distro/Console/NewCommand.php:214 | `rename`: none when the origin is not a file, otherwise its content moves to the target (definition) |
| Files.WithDirIdempotent | src/Drupal/Distro/Console/NewCommand.php:202-205 | creating a directory a second time, as `execute` does for `test/features/bootstrap`, changes nothing |
| Files.MovedEffect | src/Drupal/Distro/Console/NewCommand.php:214 | a rename of a present file hands its content to the target, removes the origin and leaves every other file and the directories as they were |
| Files.Pruned | src/Drupal/Distro/Console/NewCommand.php:230 | after recursive removal exactly the files and directories outside the removed subtree remain, with their contents |
| Files.FileSystem.Mkdir | src/Drupal/Distro/Console/NewCommand.php:243-246 | the directory and all its ancestors exist afterwards; the files are untouched |
| Files.FileSystem.DumpFile | src/Drupal/Distro/Console/NewCommand.php:267 | the file holds the new content and its parent directories exist |
| Files.FileSystem.Rename | src/Drupal/Distro/Console/NewCommand.php:214 | succeeds iff the origin is a file, then moves it; on failure nothing changes |
| Files.FileSystem.Remove | src/Drupal/Distro/Console/NewCommand.php:230 | the new state is the pruned tree |
| Files.FileSystem.ListFiles | src/Drupal/Distro/Console/NewCommand.php:217-221 | returns every file below the directory exactly once, and nothing else |
| NewCommand.CopyOne | src/Drupal/Distro/Console/NewCommand.php:259-268 | `copyFile` on values: a missing template gives `FileNotFound`, otherwise the expansion is written at `<dir>/<f>` (definition) |
| NewCommand.CopyAll | src/Drupal/Distro/Console/NewCommand.php:207-209 | the copy loop on values: the files in order, stopping at the first failure (definition) |
| NewCommand.Scaffold | src/Drupal/Distro/Console/NewCommand.php:201-205 | the five `mkdir` calls in their order, the bootstrap directory twice (definition) |
| NewCommand.PrepareWith | src/Drupal/Distro/Console/NewCommand.php:201-214 | the directories, the copies and the build rename, stopping at the first failure (definition) |
| NewCommand.RenameAll | src/Drupal/Distro/Console/NewCommand.php:225-228 | the stub rename loop on values, stopping at the first failed rename (definition) |
| NewCommand.GitStep | src/Drupal/Distro/Console/NewCommand.php:232-237 | none with `--no-repo`, otherwise a repository in the target directory with remote `origin` at the git URL (definition) |
| NewCommand.Finish | src/Drupal/Distro/Console/NewCommand.php:225-237 | the stub renames over a listing, the removal of the branch directory, then the git step (definition) |
| NewCommand.StubMoves | src/Drupal/Distro/Console/NewCommand.php:223-227 | each listed entry is paired with its rewritten path, in listing order |
| NewCommand.Mkdir | src/Drupal/Distro/Console/NewCommand.php:243-246 | the new state is the old one with the directory created |
| NewCommand.CopyFile | src/Drupal/Distro/Console/NewCommand.php:259-268 | fails with `FileNotFound(f)` iff the template file is missing, and then writes nothing; otherwise writes its expansion at `<dir>/<f>` and changes nothing else |
| NewCommand.CopyFiles | src/Drupal/Distro/Console/NewCommand.php:207-209 | the copy loop ends in the state `CopyAll` gives, stopping at the first failure |
| NewCommand.CopyAllWrites | src/Drupal/Distro/Console/NewCommand.php:207-209 | with every template present, each listed file holds its expansion and no other file changes |
| NewCommand.CopyAllStopsAtMissing | src/Drupal/Distro/Console/NewCommand.php:207-209 | the loop aborts at the first missing file, after copying exactly the files before it |
| NewCommand.MissingTemplateNoRollback | src/Drupal/Distro/Console/NewCommand.php:207-209 | on a missing template the earlier copies stay written, and nothing else changes |
| NewCommand.RenameAllMoves | src/Drupal/Distro/Console/NewCommand.php:225-228 | renames with distinct present origins and fresh distinct targets all complete, and move exactly their files |
| NewCommand.MoveStubs | src/Drupal/Distro/Console/NewCommand.php:216-237 | for the listing taken, the stub loop, the removal and the git step end as `Finish` gives |
| NewCommand.Execute | src/Drupal/Distro/Console/NewCommand.php:152-238 | a rejected run fails with no request and no change; a failed lookup fails with no change; otherwise the filesystem goes through `Prepare` and, for some listing of the stub directory, `Finish` |
| NewCommand.CopiedTree | src/Drupal/Distro/Console/NewCommand.php:201-209 | after the directories and the copies, each file holds its expansion, nothing outside the target changes, and the test directories exist |
| NewCommand.BuildRenamed | src/Drupal/Distro/Console/NewCommand.php:211-214 | after the build rename each copy is at its staged path with its content, and nothing else is in the target directory |
| NewCommand.StubListing | src/Drupal/Distro/Console/NewCommand.php:217-221 | the stub directory's listing is exactly the copies of the listed files that lie in the branch |
| NewCommand.ListedEntry | src/Drupal/Distro/Console/NewCommand.php:223-227 | each listed entry is the copy of a stub, and the pattern sends it to that stub's final path |
| NewCommand.StagedOrMoved | src/Drupal/Distro/Console/NewCommand.php:211-228 | a copy is either at its final path already or one of the stubs the loop moves |
| NewCommand.StubMovesFit | src/Drupal/Distro/Console/NewCommand.php:223-228 | the stub renames have distinct origins in the branch directory and distinct targets outside it, and no target overwrites another copy |
| NewCommand.StubsMoved | src/Drupal/Distro/Console/NewCommand.php:225-228 | every stub rename succeeds, whatever the listing order; each copy ends at its final path, and nothing outside the target changes |
| NewCommand.StagedRun | src/Drupal/Distro/Console/NewCommand.php:201-214 | directories, copies and the build rename complete, and leave each copy at its staged path |
| NewCommand.FinishedRun | src/Drupal/Distro/Console/NewCommand.php:216-237 | from the staged tree the stub loop and the removal complete, and the git step is reached |
| NewCommand.MaterialiseFresh | src/Drupal/Distro/Console/NewCommand.php:201-237 | into a target without files, a fitting list materialises: each file is at its final path with its expansion, nothing else is in the target, the branch directory is gone and the git step is reached |
| NewCommand.BaseFinalPath | src/Drupal/Distro/Console/NewCommand.php:181-214 | a fixed file stays where it was copied, except the build file, which becomes `build-<profile>.make` |
| NewCommand.StubFinalPath | src/Drupal/Distro/Console/NewCommand.php:195-227 | a version-7 stub ends as `<profile><ext>`, outside the branch directory |
| NewCommand.ManifestFinalPath | src/Drupal/Distro/Console/NewCommand.php:181-230 | each listed file ends at its final name under the target directory, outside the branch directory |
| NewCommand.ManifestFinalNamesDistinct | src/Drupal/Distro/Console/NewCommand.php:181-227 | no two listed files end at the same name |
| NewCommand.FilenamesFit | src/Drupal/Distro/Console/NewCommand.php:181-230 | for an accepted profile the manifest materialises without collisions |
| NewCommand.FinalNamesWithoutBuildExample | src/Drupal/Distro/Console/NewCommand.php:211-214 | unless the profile is `example`, no file ends as `build-example.make` |
| NewCommand.MaterialiseNamed | src/Drupal/Distro/Console/NewCommand.php:181-237 | `MaterialiseFresh`, with the final paths given as names under the target directory |
| NewCommand.BuildFileFinalName | src/Drupal/Distro/Console/NewCommand.php:188-214 | the seventh entry is `build-example.make` and ends as `build-<profile>.make` |
| NewCommand.StubFinalNames | src/Drupal/Distro/Console/NewCommand.php:195-227 | for version 7 the last three files end as `<profile>.info`, `<profile>.install` and `<profile>.profile` |
| NewCommand.ManifestMaterialises | src/Drupal/Distro/Console/NewCommand.php:181-237 | the manifest, materialised into a target without files, ends with each file at its final name, expanded, and nothing else in the target; the outside is unchanged, and the directories are those of the staged tree minus the branch directory |
| NewCommand.ListingOrderIrrelevant | src/Drupal/Distro/Console/NewCommand.php:217-230 | into a target without files, any two listings of the stub directory end in the same tree and the same result |
| NewCommand.FinalTree | src/Drupal/Distro/Console/NewCommand.php:211-230 | a target holding exactly the final names holds the build file and, for version 7, the three profile files, and holds `build-example.make` only for the profile `example` |
| NewCommand.AcceptedRun | src/Drupal/Distro/Console/NewCommand.php:152-238 | after validation, with every template present and a target without files, for every listing order the run reaches the git step; `build-<profile>.make` and, for version 7, the three profile files are in the target; no file is left in the branch directory; no file outside the target is added, removed or changed |

## Left out

- The HTTP request, its XML parsing and the XPath query (lines 297-303) are replaced by a fixed function from URL to `Response`. Guzzle's own exceptions are folded into `RequestFailed`.
- The git steps `init`, `add`, `commit` and `remote` (lines 232-237) are not run. `Execute` returns the repository it would create, or none with `--no-repo`.
- The construction of `GitWrapper` (line 154) is left out, and so is its failure when no git binary is found.
- File permissions 0755 and 0644 and operating-system I/O errors are left out: `mkdir`, `dumpFile` and `remove` always succeed.
- Files.FileSystem.Rename and Files.Moved: a rename fails only when the origin is missing. It does not model Symfony's refusal when the target already exists. With that refusal, the build rename for the profile `example` (a rename onto itself) would fail.
- The recursive iterator also visits directories (`CHILD_FIRST`). `FileSystem.ListFiles` lists only files. The manifest never puts a subdirectory in the branch directory.
- The iterator is read as a snapshot taken before the renames, in any order. Interleaving the directory reads with the renames is not modelled.
- `'7' == $coreVersion` is PHP loose comparison. It is modelled as string equality, so, for example, `7.0` does not add the stubs here.
- The lazy getters and setters for the HTTP client and the filesystem (lines 47-84), the constructor's template path (line 39), `configure()` and `bin/drupal-distro.php` are wiring, not behaviour.
- Paths.Join, Paths.IsUnder and Paths.InSubtree compare paths as they are spelled. There is no normalising of `//`, a trailing `/`, `.` or `..`, and no symlinks. So "outside the target" in the run theorems means "not spelled under `<dir>/`": with the target `acme/`, an existing `acme/build.xml` counts as outside, although `dumpFile('acme//build.xml')` would overwrite it.
- NewCommand.MaterialiseFresh, NewCommand.ManifestMaterialises and NewCommand.AcceptedRun assume a target directory that holds no files yet. The command does not require this; with existing files the copies overwrite them, which `CopyAllWrites` states.
