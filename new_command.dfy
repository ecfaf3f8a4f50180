/**
 * `NewCommand::execute`: resolve the options, validate them, look up the
 * latest Drupal release, then materialise the distribution: create the
 * directories, copy every template file with its variables expanded, rename
 * the build file, move the profile stubs up out of the core-branch directory,
 * remove that directory, and hand the result to git.
 *
 * Each stage is given by a function on `Tree` values; the methods perform the
 * stages on a `FileSystem` and are proved to end in the state those functions
 * describe, and the lemmas say what the functions do.
 */
module NewCommand {
  import opened Wrappers
  import opened Text
  import opened Paths
  import opened Files
  import opened Manifest
  import opened Settings

  /** The template directory: its subdirectories and its files, by path relative to its root. */
  datatype Template = Template(dirs: set<string>, files: map<string, string>)

  /**
   * What the git step is asked for: a repository initialised in `dir`, all
   * files added and committed, and a remote `origin` at `remote`.
   */
  datatype Repository = Repository(dir: string, remote: string)

  /** Where a sequence of filesystem steps ends: completed, or stopped by an error with the changes made so far left in place. */
  datatype Outcome = Done(tree: Tree) | Aborted(tree: Tree, error: Error)

  /** `copyFile`: the template file must exist; its expansion is written under `dir` at the same relative path. */
  function CopyOne(t: Tree, tpl: Template, filename: string, dir: string, replacements: seq<(string, string)>): Outcome
  {
    if filename !in tpl.files then Aborted(t, FileNotFound(filename))
    else Done(WithFile(t, Join(dir, filename), ReplaceVariables(replacements, tpl.files[filename])))
  }

  /** The copy loop: the files in order, stopping at the first one that fails. */
  function CopyAll(t: Tree, tpl: Template, names: seq<string>, dir: string, replacements: seq<(string, string)>): Outcome
    decreases |names|
  {
    if names == [] then Done(t)
    else match CopyOne(t, tpl, names[0], dir, replacements)
      case Aborted(t', e) => Aborted(t', e)
      case Done(t') => CopyAll(t', tpl, names[1..], dir, replacements)
  }

  /** The destination paths of the copied files. */
  function Written(dir: string, names: seq<string>): set<string>
  {
    set k | 0 <= k < |names| :: Join(dir, names[k])
  }

  /** A sequence of renames, stopping at the first one whose origin is missing. */
  function RenameAll(t: Tree, moves: seq<(string, string)>): Outcome
    decreases |moves|
  {
    if moves == [] then Done(t)
    else match Moved(t, moves[0].0, moves[0].1)
      case None => Aborted(t, RenameFailed(moves[0].0, moves[0].1))
      case Some(t') => RenameAll(t', moves[1..])
  }

  function Origins(moves: seq<(string, string)>): set<string>
  {
    set k | 0 <= k < |moves| :: moves[k].0
  }

  function Targets(moves: seq<(string, string)>): set<string>
  {
    set k | 0 <= k < |moves| :: moves[k].1
  }

  /** Each listed entry paired with the path the stub pattern rewrites it to. */
  function StubMoves(order: seq<string>, branch: string, profile: string): (r: seq<(string, string)>)
    ensures |r| == |order|
    ensures forall i :: 0 <= i < |order| ==> r[i] == (order[i], StubTarget(order[i], branch, profile))
  {
    seq(|order|, i requires 0 <= i < |order| => (order[i], StubTarget(order[i], branch, profile)))
  }

  /** The five `mkdir` calls, in the order `execute` makes them. */
  function Scaffold(t: Tree, s: Settings): Tree
  {
    var t1 := WithDir(t, Join(s.dir, s.coreBranch));
    var t2 := WithDir(t1, Join(s.dir, BootstrapDir));
    var t3 := WithDir(t2, Join(s.dir, "test"));
    var t4 := WithDir(t3, Join(s.dir, "test/features"));
    WithDir(t4, Join(s.dir, BootstrapDir))
  }

  /** Directories, copies of `names` and the build-file rename: everything before the stub directory is listed. */
  function PrepareWith(t: Tree, tpl: Template, s: Settings, names: seq<string>, replacements: seq<(string, string)>): Outcome
  {
    match CopyAll(Scaffold(t, s), tpl, names, s.dir, replacements)
    case Aborted(t', e) => Aborted(t', e)
    case Done(t') =>
      var origin, target := Join(s.dir, BuildExample), Join(s.dir, BuildName(s.profile));
      match Moved(t', origin, target)
      case None => Aborted(t', RenameFailed(origin, target))
      case Some(t'') => Done(t'')
  }

  /** The same, for the files of the core version. */
  function Prepare(t: Tree, tpl: Template, s: Settings, replacements: seq<(string, string)>): Outcome
  {
    PrepareWith(t, tpl, s, Filenames(s.coreVersion), replacements)
  }

  /** The git step: skipped with `--no-repo`, otherwise a repository in the target directory with the remote URL. */
  function GitStep(s: Settings): Option<Repository>
  {
    if s.noRepo then None else Some(Repository(s.dir, s.gitUrl))
  }

  /** The stub moves over the listing `order`, the removal of the stub directory and the git step. */
  function Finish(t: Tree, s: Settings, order: seq<string>): (Tree, Result<Option<Repository>, Error>)
  {
    match RenameAll(t, StubMoves(order, s.coreBranch, s.profile))
    case Aborted(t', e) => (t', Failure(e))
    case Done(t') => (Pruned(t', Join(s.dir, s.coreBranch)), Success(GitStep(s)))
  }

  /** `NewCommand::mkdir`. */
  method Mkdir(fs: FileSystem, dir: string)
    modifies fs
    ensures fs.State() == WithDir(old(fs.State()), dir)
  {
    fs.Mkdir(dir);
  }

  /** `NewCommand::copyFile`: a missing template file is an error and writes nothing. */
  method CopyFile(fs: FileSystem, tpl: Template, filename: string, dir: string, replacements: seq<(string, string)>)
    returns (e: Option<Error>)
    modifies fs
    ensures e.None? <==> filename in tpl.files
    ensures e.Some? ==> e.value == FileNotFound(filename) && fs.State() == old(fs.State())
    ensures e.None? ==> fs.State() == WithFile(old(fs.State()), Join(dir, filename), ReplaceVariables(replacements, tpl.files[filename]))
  {
    if filename !in tpl.files {
      return Some(FileNotFound(filename));
    }
    var filedata := ReplaceVariables(replacements, tpl.files[filename]);
    fs.DumpFile(Join(dir, filename), filedata);
    e := None;
  }

  /**
   * `NewCommand::execute`. A failed validation stops the command before any
   * request or write; a failed release lookup stops it before any write; after
   * that the filesystem goes through `Prepare` and, for the order in which the
   * stub directory was listed, `Finish`, keeping whatever was done before an
   * error.
   */
  method Execute(fs: FileSystem, http: UpdatesClient, tpl: Template, input: Input)
    returns (r: Result<Option<Repository>, Error>)
    modifies fs, http
    ensures var s := Resolve(input); var invalid := Validate(tpl.dirs, s);
      invalid.Some? ==> r == Failure(invalid.value) && fs.State() == old(fs.State()) && http.requested == old(http.requested)
    ensures var s := Resolve(input);
      Validate(tpl.dirs, s).None? ==> http.requested == old(http.requested) + [ReleaseHistoryUrl(s.coreBranch)]
    ensures var s := Resolve(input); var url := ReleaseHistoryUrl(s.coreBranch); var latest := LatestVersion(http.feed(url), url);
      Validate(tpl.dirs, s).None? && latest.Failure? ==> r == Failure(latest.error) && fs.State() == old(fs.State())
    ensures var s := Resolve(input); var url := ReleaseHistoryUrl(s.coreBranch); var latest := LatestVersion(http.feed(url), url);
      Validate(tpl.dirs, s).None? && latest.Success? ==>
        var p := Prepare(old(fs.State()), tpl, s, Replacements(s, latest.value));
        && (p.Aborted? ==> fs.State() == p.tree && r == Failure(p.error))
        && (p.Done? ==> exists order :: IsListing(order, p.tree, Join(s.dir, s.coreBranch)) && Finish(p.tree, s, order) == (fs.State(), r))
  {
    var s := Resolve(input);
    var invalid := Validate(tpl.dirs, s);
    if invalid.Some? {
      return Failure(invalid.value);
    }
    var latest := GetLatestDrupalVersion(http, s.coreBranch);
    if latest.Failure? {
      return Failure(latest.error);
    }
    var replacements := Replacements(s, latest.value);

    var filenames := BaseFiles;
    if s.coreVersion == "7" {
      filenames := filenames + [s.coreBranch + StubStem + ".info"];
      filenames := filenames + [s.coreBranch + StubStem + ".install"];
      filenames := filenames + [s.coreBranch + StubStem + ".profile"];
    }
    assert filenames == Filenames(s.coreVersion);

    ghost var t0 := fs.State();
    Mkdir(fs, Join(s.dir, s.coreBranch));
    Mkdir(fs, Join(s.dir, BootstrapDir));
    Mkdir(fs, Join(s.dir, "test"));
    Mkdir(fs, Join(s.dir, "test/features"));
    Mkdir(fs, Join(s.dir, BootstrapDir));
    assert fs.State() == Scaffold(t0, s);

    var e := CopyFiles(fs, tpl, filenames, s.dir, replacements);
    if e.Some? {
      return Failure(e.value);
    }

    var buildOrigin, buildTarget := Join(s.dir, BuildExample), Join(s.dir, BuildName(s.profile));
    var renamed := fs.Rename(buildOrigin, buildTarget);
    if !renamed {
      return Failure(RenameFailed(buildOrigin, buildTarget));
    }
    r := MoveStubs(fs, s);
  }

  /** The copy loop of `execute`. */
  method CopyFiles(fs: FileSystem, tpl: Template, filenames: seq<string>, dir: string, replacements: seq<(string, string)>)
    returns (e: Option<Error>)
    modifies fs
    ensures CopyAll(old(fs.State()), tpl, filenames, dir, replacements)
         == if e.None? then Done(fs.State()) else Aborted(fs.State(), e.value)
  {
    var i := 0;
    while i < |filenames|
      invariant 0 <= i <= |filenames|
      invariant CopyAll(old(fs.State()), tpl, filenames, dir, replacements)
             == CopyAll(fs.State(), tpl, filenames[i..], dir, replacements)
    {
      assert filenames[i..][1..] == filenames[i + 1..];
      e := CopyFile(fs, tpl, filenames[i], dir, replacements);
      if e.Some? {
        return;
      }
      i := i + 1;
    }
    assert filenames[i..] == [];
    e := None;
  }

  /** The stub loop of `execute`, the removal of the stub directory and the git step. */
  method MoveStubs(fs: FileSystem, s: Settings) returns (r: Result<Option<Repository>, Error>)
    modifies fs
    ensures exists order :: IsListing(order, old(fs.State()), Join(s.dir, s.coreBranch))
                         && Finish(old(fs.State()), s, order) == (fs.State(), r)
  {
    var stubDir := Join(s.dir, s.coreBranch);
    var profileFiles := fs.ListFiles(stubDir);
    ghost var moves := StubMoves(profileFiles, s.coreBranch, s.profile);
    var j := 0;
    while j < |profileFiles|
      invariant 0 <= j <= |profileFiles|
      invariant RenameAll(old(fs.State()), moves) == RenameAll(fs.State(), moves[j..])
    {
      assert moves[j..][1..] == moves[j + 1..];
      var profileOrigin := profileFiles[j];
      var profileTarget := StubTarget(profileOrigin, s.coreBranch, s.profile);
      var ok := fs.Rename(profileOrigin, profileTarget);
      if !ok {
        r := Failure(RenameFailed(profileOrigin, profileTarget));
        assert Finish(old(fs.State()), s, profileFiles) == (fs.State(), r);
        return;
      }
      j := j + 1;
    }
    assert moves[j..] == [];
    fs.Remove(stubDir);
    r := Success(GitStep(s));
    assert Finish(old(fs.State()), s, profileFiles) == (fs.State(), r);
  }

  /** With every template file present the loop completes, each file holds its expansion, and nothing else changes. */
  lemma {:induction false} CopyAllWrites(t: Tree, tpl: Template, names: seq<string>, dir: string, replacements: seq<(string, string)>)
    requires forall k :: 0 <= k < |names| ==> names[k] in tpl.files
    ensures CopyAll(t, tpl, names, dir, replacements).Done?
    ensures var r := CopyAll(t, tpl, names, dir, replacements).tree;
      && (forall k :: 0 <= k < |names| ==>
            Join(dir, names[k]) in r.files && r.files[Join(dir, names[k])] == ReplaceVariables(replacements, tpl.files[names[k]]))
      && (forall p :: p !in Written(dir, names) ==> (p in r.files <==> p in t.files) && (p in t.files ==> r.files[p] == t.files[p]))
      && t.dirs <= r.dirs
    decreases |names|
  {
    if names != [] {
      var f := names[0];
      var t' := WithFile(t, Join(dir, f), ReplaceVariables(replacements, tpl.files[f]));
      var rest := names[1..];
      CopyAllWrites(t', tpl, rest, dir, replacements);
      var r := CopyAll(t, tpl, names, dir, replacements).tree;
      assert r == CopyAll(t', tpl, rest, dir, replacements).tree;
      forall k | 0 <= k < |names|
        ensures Join(dir, names[k]) in r.files && r.files[Join(dir, names[k])] == ReplaceVariables(replacements, tpl.files[names[k]])
      {
        if k > 0 {
          assert names[k] == rest[k - 1];
        } else if Join(dir, f) in Written(dir, rest) {
          var j :| 0 <= j < |rest| && Join(dir, rest[j]) == Join(dir, f);
          JoinInjective(dir, rest[j], f);
        }
      }
      forall j | 0 <= j < |rest| ensures Join(dir, rest[j]) in Written(dir, names)
      {
        assert rest[j] == names[j + 1];
      }
      assert Join(dir, names[0]) in Written(dir, names);
    }
  }

  /** The loop stops at the first missing template file, with the earlier copies done. */
  lemma {:induction false} CopyAllStopsAtMissing(t: Tree, tpl: Template, names: seq<string>, dir: string, replacements: seq<(string, string)>, k: nat)
    requires k < |names| && names[k] !in tpl.files
    requires forall j :: 0 <= j < k ==> names[j] in tpl.files
    ensures CopyAll(t, tpl, names[..k], dir, replacements).Done?
    ensures CopyAll(t, tpl, names, dir, replacements)
         == Aborted(CopyAll(t, tpl, names[..k], dir, replacements).tree, FileNotFound(names[k]))
    decreases k
  {
    if k > 0 {
      var f := names[0];
      var t' := WithFile(t, Join(dir, f), ReplaceVariables(replacements, tpl.files[f]));
      CopyAllStopsAtMissing(t', tpl, names[1..], dir, replacements, k - 1);
      assert names[..k][1..] == names[1..][..k - 1];
    }
  }

  /**
   * A missing template file aborts the command with `File not found`, and the
   * files copied before it stay written: there is no rollback.
   */
  lemma MissingTemplateNoRollback(t: Tree, tpl: Template, names: seq<string>, dir: string, replacements: seq<(string, string)>, k: nat)
    requires k < |names| && names[k] !in tpl.files
    requires forall j :: 0 <= j < k ==> names[j] in tpl.files
    ensures var r := CopyAll(t, tpl, names, dir, replacements);
      && r == Aborted(r.tree, FileNotFound(names[k]))
      && (forall j :: 0 <= j < k ==>
            Join(dir, names[j]) in r.tree.files && r.tree.files[Join(dir, names[j])] == ReplaceVariables(replacements, tpl.files[names[j]]))
      && (forall p :: p !in Written(dir, names[..k]) ==> (p in r.tree.files <==> p in t.files) && (p in t.files ==> r.tree.files[p] == t.files[p]))
  {
    CopyAllStopsAtMissing(t, tpl, names, dir, replacements, k);
    CopyAllWrites(t, tpl, names[..k], dir, replacements);
    forall j | 0 <= j < k ensures names[..k][j] == names[j] { }
  }

  /**
   * Renames with distinct origins, all present, and distinct targets, none of
   * them an origin: all complete, each target holds its origin's content, the
   * origins are gone and every other file is as it was.
   */
  lemma {:induction false} RenameAllMoves(t: Tree, moves: seq<(string, string)>)
    requires forall i, j :: 0 <= i < j < |moves| ==> moves[i].0 != moves[j].0 && moves[i].1 != moves[j].1
    requires forall i :: 0 <= i < |moves| ==> moves[i].0 in t.files
    requires forall i, j :: 0 <= i < |moves| && 0 <= j < |moves| ==> moves[i].1 != moves[j].0
    ensures RenameAll(t, moves).Done?
    ensures var r := RenameAll(t, moves).tree;
      && (forall i :: 0 <= i < |moves| ==> moves[i].1 in r.files && r.files[moves[i].1] == t.files[moves[i].0])
      && (forall i :: 0 <= i < |moves| ==> moves[i].0 !in r.files)
      && (forall p :: p !in Origins(moves) && p !in Targets(moves) ==>
            (p in r.files <==> p in t.files) && (p in t.files ==> r.files[p] == t.files[p]))
      && r.dirs == t.dirs
    decreases |moves|
  {
    if moves != [] {
      var (o, g) := moves[0];
      MovedEffect(t, o, g);
      var t' := Moved(t, o, g).value;
      var rest := moves[1..];
      forall i | 0 <= i < |rest| ensures rest[i].0 in t'.files
      {
        assert rest[i] == moves[i + 1];
      }
      RenameAllMoves(t', rest);
      var r := RenameAll(t, moves).tree;
      assert r == RenameAll(t', rest).tree;
      assert o !in Targets(rest) && g !in Origins(rest) && g !in Targets(rest) by {
        forall i | 0 <= i < |rest| ensures rest[i].1 != o && rest[i].0 != g && rest[i].1 != g
        {
          assert rest[i] == moves[i + 1];
        }
      }
      forall i | 0 <= i < |moves|
        ensures moves[i].1 in r.files && r.files[moves[i].1] == t.files[moves[i].0]
        ensures moves[i].0 !in r.files
      {
        if i > 0 {
          assert moves[i] == rest[i - 1];
        }
      }
      forall j | 0 <= j < |rest| ensures rest[j].0 in Origins(moves) && rest[j].1 in Targets(moves)
      {
        assert rest[j] == moves[j + 1];
      }
      assert moves[0].0 in Origins(moves) && moves[0].1 in Targets(moves);
    }
  }

  /** The copies after the directories are made: each listed file holds its expansion, nothing outside the target directory changes. */
  lemma CopiedTree(t0: Tree, tpl: Template, s: Settings, names: seq<string>, replacements: seq<(string, string)>)
    requires forall k :: 0 <= k < |names| ==> names[k] in tpl.files
    ensures CopyAll(Scaffold(t0, s), tpl, names, s.dir, replacements).Done?
    ensures var t := CopyAll(Scaffold(t0, s), tpl, names, s.dir, replacements).tree;
      && (forall k :: 0 <= k < |names| ==>
            Join(s.dir, names[k]) in t.files && t.files[Join(s.dir, names[k])] == ReplaceVariables(replacements, tpl.files[names[k]]))
      && (forall q :: q in t.files ==> q in t0.files || q in Written(s.dir, names))
      && (forall q :: !InSubtree(q, s.dir) ==> (q in t.files <==> q in t0.files) && (q in t0.files ==> t.files[q] == t0.files[q]))
      && Join(s.dir, "test") in t.dirs && Join(s.dir, "test/features") in t.dirs && Join(s.dir, BootstrapDir) in t.dirs
  {
    var t1 := Scaffold(t0, s);
    CopyAllWrites(t1, tpl, names, s.dir, replacements);
    forall q | q in Written(s.dir, names) ensures InSubtree(q, s.dir)
    {
      var k :| 0 <= k < |names| && q == Join(s.dir, names[k]);
      JoinIsUnder(s.dir, names[k]);
    }
    AncestorsArePrefixes(Join(s.dir, "test"));
    AncestorsArePrefixes(Join(s.dir, "test/features"));
    AncestorsArePrefixes(Join(s.dir, BootstrapDir));
  }

  /** Where the copy of the template file `f` is once `execute` has finished. */
  function FinalPath(s: Settings, f: string): string
  {
    if f == BuildExample then Join(s.dir, BuildName(s.profile))
    else if IsUnder(f, s.coreBranch) then StubTarget(Join(s.dir, f), s.coreBranch, s.profile)
    else Join(s.dir, f)
  }

  /** Where the copy of `f` is after the build rename, before the stub moves. */
  function StagedPath(s: Settings, f: string): string
  {
    if f == BuildExample then Join(s.dir, BuildName(s.profile)) else Join(s.dir, f)
  }

  /**
   * The conditions under which a list of template files materialises without
   * collisions: the build file is among them, no file is listed twice, no two
   * files end at the same place, none ends in the stub directory, and the
   * test directories are not in it either.
   */
  predicate NamesFit(s: Settings, names: seq<string>)
  {
    && BuildExample in names
    && Distinct(names)
    && (forall i, j :: 0 <= i < j < |names| ==> FinalPath(s, names[i]) != FinalPath(s, names[j]))
    && (forall i :: 0 <= i < |names| ==> !InSubtree(FinalPath(s, names[i]), Join(s.dir, s.coreBranch)))
    && (forall i :: 0 <= i < |names| ==> IsUnder(FinalPath(s, names[i]), s.dir))
    && !InSubtree("test", s.coreBranch) && !InSubtree("test/features", s.coreBranch) && !InSubtree(BootstrapDir, s.coreBranch)
  }

  /** After the build rename each file is at its staged path, and nothing else is in the target directory. */
  lemma BuildRenamed(t2: Tree, tpl: Template, s: Settings, names: seq<string>, replacements: seq<(string, string)>)
    requires NamesFit(s, names)
    requires forall k :: 0 <= k < |names| ==> names[k] in tpl.files
    requires forall k :: 0 <= k < |names| ==>
      Join(s.dir, names[k]) in t2.files && t2.files[Join(s.dir, names[k])] == ReplaceVariables(replacements, tpl.files[names[k]])
    requires forall q :: q in t2.files && InSubtree(q, s.dir) ==> q in Written(s.dir, names)
    ensures Join(s.dir, BuildExample) in t2.files
    ensures var t3 := Moved(t2, Join(s.dir, BuildExample), Join(s.dir, BuildName(s.profile))).value;
      && (forall k :: 0 <= k < |names| ==>
            StagedPath(s, names[k]) in t3.files && t3.files[StagedPath(s, names[k])] == ReplaceVariables(replacements, tpl.files[names[k]]))
      && (forall q :: q in t3.files && InSubtree(q, s.dir) ==> exists k :: 0 <= k < |names| && q == StagedPath(s, names[k]))
      && (forall q :: !InSubtree(q, s.dir) ==> (q in t3.files <==> q in t2.files) && (q in t2.files ==> t3.files[q] == t2.files[q]))
      && t3.dirs == t2.dirs
  {
    var dir, root := s.dir, Join(s.dir, s.coreBranch);
    var origin, target := Join(dir, BuildExample), Join(dir, BuildName(s.profile));
    var b :| 0 <= b < |names| && names[b] == BuildExample;
    MovedEffect(t2, origin, target);
    var t3 := Moved(t2, origin, target).value;
    assert FinalPath(s, names[b]) == target;
    assert !InSubtree(target, root);
    forall k | 0 <= k < |names|
      ensures StagedPath(s, names[k]) in t3.files && t3.files[StagedPath(s, names[k])] == ReplaceVariables(replacements, tpl.files[names[k]])
    {
      if k != b {
        var f := names[k];
        assert f != BuildExample;
        JoinInjective(dir, f, BuildExample);
        if IsUnder(f, s.coreBranch) {
          UnderJoin(dir, s.coreBranch, f);
        } else {
          assert FinalPath(s, f) == Join(dir, f);
          if k < b {
            assert FinalPath(s, names[k]) != FinalPath(s, names[b]);
          } else {
            assert FinalPath(s, names[b]) != FinalPath(s, names[k]);
          }
        }
      }
    }
    forall q | q in t3.files && InSubtree(q, dir)
      ensures exists k :: 0 <= k < |names| && q == StagedPath(s, names[k])
    {
      if q != target {
        var k :| 0 <= k < |names| && q == Join(dir, names[k]);
        assert names[k] != BuildExample;
        assert q == StagedPath(s, names[k]);
      } else {
        assert q == StagedPath(s, names[b]);
      }
    }
    JoinIsUnder(dir, BuildExample);
    JoinIsUnder(dir, BuildName(s.profile));
  }

  /** The copies of the listed files that lie in the core-branch directory, the ones the stub loop moves. */
  function StubCopies(s: Settings, names: seq<string>): set<string>
  {
    set k | 0 <= k < |names| && names[k] != BuildExample && IsUnder(names[k], s.coreBranch) :: Join(s.dir, names[k])
  }

  /** The listing of the stub directory is exactly the copies of the names that lie in the branch directory. */
  lemma StubListing(t3: Tree, s: Settings, names: seq<string>, order: seq<string>)
    requires NamesFit(s, names)
    requires forall k :: 0 <= k < |names| ==> StagedPath(s, names[k]) in t3.files
    requires forall q :: q in t3.files && InSubtree(q, s.dir) ==> exists k :: 0 <= k < |names| && q == StagedPath(s, names[k])
    requires IsListing(order, t3, Join(s.dir, s.coreBranch))
    ensures forall p :: p in order <==> p in StubCopies(s, names)
  {
    var dir, root := s.dir, Join(s.dir, s.coreBranch);
    forall q | q in order
      ensures q in StubCopies(s, names)
    {
      UnderJoinIsUnder(dir, s.coreBranch, q);
      var k :| 0 <= k < |names| && q == StagedPath(s, names[k]);
      assert !InSubtree(FinalPath(s, names[k]), root);
      UnderJoin(dir, s.coreBranch, names[k]);
    }
    forall q | q in StubCopies(s, names)
      ensures q in order
    {
      var k :| 0 <= k < |names| && names[k] != BuildExample && IsUnder(names[k], s.coreBranch) && q == Join(dir, names[k]);
      UnderJoin(dir, s.coreBranch, names[k]);
      assert q == StagedPath(s, names[k]);
    }
  }

  /** Each listed entry is the copy of a stub name, and the stub pattern sends it to that name's final path. */
  lemma ListedEntry(s: Settings, names: seq<string>, order: seq<string>, i: nat) returns (k: nat)
    requires forall p :: p in order <==> p in StubCopies(s, names)
    requires i < |order|
    ensures k < |names| && names[k] != BuildExample && IsUnder(names[k], s.coreBranch)
    ensures order[i] == Join(s.dir, names[k]) && StubTarget(order[i], s.coreBranch, s.profile) == FinalPath(s, names[k])
  {
    assert order[i] in order;
    k :| 0 <= k < |names| && names[k] != BuildExample && IsUnder(names[k], s.coreBranch) && order[i] == Join(s.dir, names[k]);
  }

  /** A copy that the stub loop does not move is already at its final path. */
  lemma StagedOrMoved(s: Settings, names: seq<string>, k: nat)
    requires k < |names|
    ensures StagedPath(s, names[k]) == FinalPath(s, names[k]) || StagedPath(s, names[k]) in StubCopies(s, names)
  {
    if names[k] != BuildExample && IsUnder(names[k], s.coreBranch) {
      assert StagedPath(s, names[k]) == Join(s.dir, names[k]);
    }
  }

  /**
   * The renames the stub loop makes over a listing of the stub directory:
   * distinct origins, all in the stub directory, and distinct targets, all
   * outside it; a copy that is not an origin is already at its final path,
   * and no target takes its place.
   */
  lemma StubMovesFit(s: Settings, names: seq<string>, order: seq<string>)
    requires NamesFit(s, names)
    requires Distinct(order) && forall p :: p in order <==> p in StubCopies(s, names)
    ensures var moves := StubMoves(order, s.coreBranch, s.profile);
      && (forall i, j :: 0 <= i < j < |moves| ==> moves[i].0 != moves[j].0 && moves[i].1 != moves[j].1)
      && (forall i :: 0 <= i < |moves| ==>
            IsUnder(moves[i].0, Join(s.dir, s.coreBranch)) && !InSubtree(moves[i].1, Join(s.dir, s.coreBranch)) && IsUnder(moves[i].1, s.dir))
      && Origins(moves) == StubCopies(s, names)
      && (forall k :: 0 <= k < |names| && StagedPath(s, names[k]) in Origins(moves) ==>
            exists i :: 0 <= i < |moves| && moves[i] == (StagedPath(s, names[k]), FinalPath(s, names[k])))
      && (forall k :: 0 <= k < |names| && StagedPath(s, names[k]) !in Origins(moves) ==>
            StagedPath(s, names[k]) == FinalPath(s, names[k]) && FinalPath(s, names[k]) !in Targets(moves))
  {
    var dir, root := s.dir, Join(s.dir, s.coreBranch);
    var moves := StubMoves(order, s.coreBranch, s.profile);
    forall i, j | 0 <= i < j < |moves|
      ensures moves[i].0 != moves[j].0 && moves[i].1 != moves[j].1
    {
      var ki := ListedEntry(s, names, order, i);
      var kj := ListedEntry(s, names, order, j);
      JoinInjective(dir, names[ki], names[kj]);
      if ki < kj {
        assert FinalPath(s, names[ki]) != FinalPath(s, names[kj]);
      } else {
        assert FinalPath(s, names[kj]) != FinalPath(s, names[ki]);
      }
    }
    forall i | 0 <= i < |moves|
      ensures IsUnder(moves[i].0, root) && !InSubtree(moves[i].1, root) && IsUnder(moves[i].1, dir)
    {
      var k := ListedEntry(s, names, order, i);
      UnderJoin(dir, s.coreBranch, names[k]);
    }
    assert Origins(moves) == StubCopies(s, names) by {
      forall p | p in Origins(moves) ensures p in StubCopies(s, names)
      {
        var i :| 0 <= i < |moves| && p == moves[i].0;
        assert order[i] in order;
      }
      forall p | p in StubCopies(s, names) ensures p in Origins(moves)
      {
        var i :| 0 <= i < |order| && order[i] == p;
        assert p == moves[i].0;
      }
    }
    forall k | 0 <= k < |names|
      ensures StagedPath(s, names[k]) in Origins(moves) ==>
        exists i :: 0 <= i < |moves| && moves[i] == (StagedPath(s, names[k]), FinalPath(s, names[k]))
      ensures StagedPath(s, names[k]) !in Origins(moves) ==>
        StagedPath(s, names[k]) == FinalPath(s, names[k]) && FinalPath(s, names[k]) !in Targets(moves)
    {
      StagedOrMoved(s, names, k);
      var q := StagedPath(s, names[k]);
      if q in StubCopies(s, names) {
        var i :| 0 <= i < |order| && order[i] == q;
        var k' := ListedEntry(s, names, order, i);
        JoinInjective(dir, names[k], names[k']);
        assert !InSubtree(FinalPath(s, names[k]), root);
        assert moves[i] == (q, FinalPath(s, names[k']));
      } else {
        forall i | 0 <= i < |moves| ensures moves[i].1 != q
        {
          var k' := ListedEntry(s, names, order, i);
          assert StagedPath(s, names[k']) in StubCopies(s, names);
          if k < k' {
            assert FinalPath(s, names[k]) != FinalPath(s, names[k']);
          } else {
            assert FinalPath(s, names[k']) != FinalPath(s, names[k]);
          }
        }
      }
    }
  }

  /**
   * The stub loop over a listing of the stub directory: every rename
   * succeeds, each copy ends at its final path, nothing else is left in the
   * target directory and nothing outside it changes.
   */
  lemma StubsMoved(t3: Tree, tpl: Template, s: Settings, names: seq<string>, replacements: seq<(string, string)>, order: seq<string>)
    requires NamesFit(s, names)
    requires forall k :: 0 <= k < |names| ==> names[k] in tpl.files
    requires forall k :: 0 <= k < |names| ==>
      StagedPath(s, names[k]) in t3.files && t3.files[StagedPath(s, names[k])] == ReplaceVariables(replacements, tpl.files[names[k]])
    requires forall q :: q in t3.files && InSubtree(q, s.dir) ==> exists k :: 0 <= k < |names| && q == StagedPath(s, names[k])
    requires IsListing(order, t3, Join(s.dir, s.coreBranch))
    ensures RenameAll(t3, StubMoves(order, s.coreBranch, s.profile)).Done?
    ensures var t4 := RenameAll(t3, StubMoves(order, s.coreBranch, s.profile)).tree;
      && (forall k :: 0 <= k < |names| ==>
            FinalPath(s, names[k]) in t4.files && t4.files[FinalPath(s, names[k])] == ReplaceVariables(replacements, tpl.files[names[k]]))
      && (forall q :: q in t4.files && InSubtree(q, s.dir) ==> exists k :: 0 <= k < |names| && q == FinalPath(s, names[k]))
      && (forall q :: !InSubtree(q, s.dir) ==> (q in t4.files <==> q in t3.files) && (q in t3.files ==> t4.files[q] == t3.files[q]))
      && t4.dirs == t3.dirs
  {
    var dir, root := s.dir, Join(s.dir, s.coreBranch);
    StubListing(t3, s, names, order);
    StubMovesFit(s, names, order);
    var moves := StubMoves(order, s.coreBranch, s.profile);
    forall i | 0 <= i < |moves| ensures moves[i].0 in t3.files
    {
      assert order[i] in order;
    }
    RenameAllMoves(t3, moves);
    var t4 := RenameAll(t3, moves).tree;
    forall q | q in Targets(moves)
      ensures exists k :: 0 <= k < |names| && q == FinalPath(s, names[k])
    {
      var i :| 0 <= i < |moves| && q == moves[i].1;
      var k := ListedEntry(s, names, order, i);
    }
    forall q | q in t4.files && InSubtree(q, dir)
      ensures exists k :: 0 <= k < |names| && q == FinalPath(s, names[k])
    {
      if q !in Targets(moves) {
        assert q !in Origins(moves);
        var k :| 0 <= k < |names| && q == StagedPath(s, names[k]);
      }
    }
    forall q | !InSubtree(q, dir)
      ensures q !in Origins(moves) && q !in Targets(moves)
    {
      forall i | 0 <= i < |moves| ensures moves[i].0 != q && moves[i].1 != q
      {
        UnderJoinIsUnder(dir, s.coreBranch, moves[i].0);
      }
    }
  }

  /**
   * Into a target directory that holds no files yet, a list of template files
   * that fits materialises completely: the git step is reached, each copy is
   * at its final path with its expansion, nothing else is in the target
   * directory, the stub directory is gone, the test directories exist and
   * nothing outside the target directory changes.
   */
  lemma MaterialiseFresh(t0: Tree, tpl: Template, s: Settings, names: seq<string>, replacements: seq<(string, string)>, order: seq<string>)
    requires NamesFit(s, names)
    requires forall k :: 0 <= k < |names| ==> names[k] in tpl.files
    requires forall q :: q in t0.files ==> !InSubtree(q, s.dir)
    requires IsListing(order, PrepareWith(t0, tpl, s, names, replacements).tree, Join(s.dir, s.coreBranch))
    ensures PrepareWith(t0, tpl, s, names, replacements).Done?
    ensures var f := Finish(PrepareWith(t0, tpl, s, names, replacements).tree, s, order); var t := f.0;
      && f.1 == Success(GitStep(s))
      && (forall k :: 0 <= k < |names| ==>
            FinalPath(s, names[k]) in t.files && t.files[FinalPath(s, names[k])] == ReplaceVariables(replacements, tpl.files[names[k]]))
      && (forall q :: q in t.files && InSubtree(q, s.dir) ==> exists k :: 0 <= k < |names| && q == FinalPath(s, names[k]))
      && (forall q :: !InSubtree(q, s.dir) ==> (q in t.files <==> q in t0.files) && (q in t0.files ==> t.files[q] == t0.files[q]))
      && (forall d :: d in t.dirs ==> !InSubtree(d, Join(s.dir, s.coreBranch)))
      && t.dirs == Pruned(PrepareWith(t0, tpl, s, names, replacements).tree, Join(s.dir, s.coreBranch)).dirs
      && Join(s.dir, "test") in t.dirs && Join(s.dir, "test/features") in t.dirs && Join(s.dir, BootstrapDir) in t.dirs
  {
    StagedRun(t0, tpl, s, names, replacements);
    FinishedRun(PrepareWith(t0, tpl, s, names, replacements).tree, t0, tpl, s, names, replacements, order);
  }

  /**
   * Before the stub directory is listed: each copy is at its staged path,
   * nothing else is in the target directory, nothing outside it has changed,
   * and the test directories exist.
   */
  lemma StagedRun(t0: Tree, tpl: Template, s: Settings, names: seq<string>, replacements: seq<(string, string)>)
    requires NamesFit(s, names)
    requires forall k :: 0 <= k < |names| ==> names[k] in tpl.files
    requires forall q :: q in t0.files ==> !InSubtree(q, s.dir)
    ensures PrepareWith(t0, tpl, s, names, replacements).Done?
    ensures var t3 := PrepareWith(t0, tpl, s, names, replacements).tree;
      && (forall k :: 0 <= k < |names| ==>
            StagedPath(s, names[k]) in t3.files && t3.files[StagedPath(s, names[k])] == ReplaceVariables(replacements, tpl.files[names[k]]))
      && (forall q :: q in t3.files && InSubtree(q, s.dir) ==> exists k :: 0 <= k < |names| && q == StagedPath(s, names[k]))
      && (forall q :: !InSubtree(q, s.dir) ==> (q in t3.files <==> q in t0.files) && (q in t0.files ==> t3.files[q] == t0.files[q]))
      && Join(s.dir, "test") in t3.dirs && Join(s.dir, "test/features") in t3.dirs && Join(s.dir, BootstrapDir) in t3.dirs
  {
    var dir := s.dir;
    CopiedTree(t0, tpl, s, names, replacements);
    var t2 := CopyAll(Scaffold(t0, s), tpl, names, dir, replacements).tree;
    BuildRenamed(t2, tpl, s, names, replacements);
    var t3 := Moved(t2, Join(dir, BuildExample), Join(dir, BuildName(s.profile))).value;
    assert PrepareWith(t0, tpl, s, names, replacements) == Done(t3);
  }

  /** From the staged tree, the stub loop, the removal of the stub directory and the git step end as `MaterialiseFresh` states. */
  lemma FinishedRun(t3: Tree, t0: Tree, tpl: Template, s: Settings, names: seq<string>, replacements: seq<(string, string)>, order: seq<string>)
    requires NamesFit(s, names)
    requires forall k :: 0 <= k < |names| ==> names[k] in tpl.files
    requires forall k :: 0 <= k < |names| ==>
      StagedPath(s, names[k]) in t3.files && t3.files[StagedPath(s, names[k])] == ReplaceVariables(replacements, tpl.files[names[k]])
    requires forall q :: q in t3.files && InSubtree(q, s.dir) ==> exists k :: 0 <= k < |names| && q == StagedPath(s, names[k])
    requires forall q :: !InSubtree(q, s.dir) ==> (q in t3.files <==> q in t0.files) && (q in t0.files ==> t3.files[q] == t0.files[q])
    requires Join(s.dir, "test") in t3.dirs && Join(s.dir, "test/features") in t3.dirs && Join(s.dir, BootstrapDir) in t3.dirs
    requires IsListing(order, t3, Join(s.dir, s.coreBranch))
    ensures var f := Finish(t3, s, order); var t := f.0;
      && f.1 == Success(GitStep(s))
      && (forall k :: 0 <= k < |names| ==>
            FinalPath(s, names[k]) in t.files && t.files[FinalPath(s, names[k])] == ReplaceVariables(replacements, tpl.files[names[k]]))
      && (forall q :: q in t.files && InSubtree(q, s.dir) ==> exists k :: 0 <= k < |names| && q == FinalPath(s, names[k]))
      && (forall q :: !InSubtree(q, s.dir) ==> (q in t.files <==> q in t0.files) && (q in t0.files ==> t.files[q] == t0.files[q]))
      && (forall d :: d in t.dirs ==> !InSubtree(d, Join(s.dir, s.coreBranch)))
      && t.dirs == Pruned(t3, Join(s.dir, s.coreBranch)).dirs
      && Join(s.dir, "test") in t.dirs && Join(s.dir, "test/features") in t.dirs && Join(s.dir, BootstrapDir) in t.dirs
  {
    var dir, root := s.dir, Join(s.dir, s.coreBranch);
    StubsMoved(t3, tpl, s, names, replacements, order);
    forall q | InSubtree(q, root) ensures InSubtree(q, dir)
    {
      UnderJoinIsUnder(dir, s.coreBranch, q);
    }
    UnderJoin(dir, s.coreBranch, "test");
    UnderJoin(dir, s.coreBranch, "test/features");
    UnderJoin(dir, s.coreBranch, BootstrapDir);
  }

  /**
   * Where the `k`-th file of the core version's list ends, relative to the
   * target directory: the fixed files where they were copied, the build file
   * under its profile name, the stubs as `<profile><ext>`.
   */
  function ManifestFinalName(s: Settings, k: nat): string
    requires k < |Filenames(s.coreVersion)|
  {
    if k < |BaseFiles| then (if BaseFiles[k] == BuildExample then BuildName(s.profile) else BaseFiles[k])
    else s.profile + StubExtensions[k - |BaseFiles|]
  }

  /** Each file of the list ends at its final name under the target directory, and that name is outside the stub directory. */
  lemma ManifestFinalPath(s: Settings, k: nat)
    requires !HasForbiddenChar(s.profile) && s.coreBranch == CoreBranch(s.coreVersion)
    requires k < |Filenames(s.coreVersion)|
    ensures FinalPath(s, Filenames(s.coreVersion)[k]) == Join(s.dir, ManifestFinalName(s, k))
    ensures !InSubtree(ManifestFinalName(s, k), s.coreBranch)
  {
    if k < |BaseFiles| {
      BaseFinalPath(s, k);
    } else {
      StubFinalPath(s, k);
    }
  }

  /** A fixed file stays where it was copied, except the build file, which takes the profile's name. */
  lemma BaseFinalPath(s: Settings, k: nat)
    requires !HasForbiddenChar(s.profile) && s.coreBranch == CoreBranch(s.coreVersion)
    requires k < |BaseFiles|
    ensures k < |Filenames(s.coreVersion)|
    ensures FinalPath(s, Filenames(s.coreVersion)[k]) == Join(s.dir, ManifestFinalName(s, k))
    ensures !InSubtree(ManifestFinalName(s, k), s.coreBranch)
  {
    var f := BaseFiles[k];
    assert Filenames(s.coreVersion)[k] == f;
    BaseFilesOutsideBranch(s.coreVersion);
    assert f in BaseFiles;
    if f == BuildExample {
      AcceptedProfileIsPlainName(s.profile);
      var b := BuildName(s.profile);
      assert b[|b| - 1] == 'e' && '/' !in b;
      PlainNameNotInBranch(b, s.coreVersion);
      assert ManifestFinalName(s, k) == b;
    } else {
      assert ManifestFinalName(s, k) == f;
    }
  }

  /** A version-7 stub is moved up to `<profile><ext>`, outside the stub directory. */
  lemma StubFinalPath(s: Settings, k: nat)
    requires !HasForbiddenChar(s.profile) && s.coreBranch == CoreBranch(s.coreVersion)
    requires |BaseFiles| <= k < |Filenames(s.coreVersion)|
    ensures FinalPath(s, Filenames(s.coreVersion)[k]) == Join(s.dir, ManifestFinalName(s, k))
    ensures !InSubtree(ManifestFinalName(s, k), s.coreBranch)
  {
    StubEntry(s.coreVersion, k);
    var f := Filenames(s.coreVersion)[k];
    var ext := StubExtensions[k - |BaseFiles|];
    AcceptedProfileIsPlainName(s.profile);
    StubExtensionsShape();
    StubFilesInBranch(s.coreBranch);
    assert f in StubFiles(s.coreBranch);
    CharSeparates('/', f, BuildExample);
    StubTargetMovesUp(s.dir, s.coreBranch, s.profile, ext);
    var b := s.coreBranch;
    assert b[|b| - 1] == 'x';
    EndingSeparates(s.profile, ext, b, 1);
    MovedUpLeavesBranch(s.dir, s.coreBranch, s.profile, ext);
    UnderJoin(s.dir, s.coreBranch, s.profile + ext);
  }

  /** No two files of the list end at the same name. */
  lemma ManifestFinalNamesDistinct(s: Settings, i: nat, j: nat)
    requires !HasForbiddenChar(s.profile)
    requires i < j < |Filenames(s.coreVersion)|
    ensures ManifestFinalName(s, i) != ManifestFinalName(s, j)
  {
    AcceptedProfileIsPlainName(s.profile);
    ManifestDistinct(s.coreVersion);
    ManifestEntries(s.coreVersion);
    var names := Filenames(s.coreVersion);
    BuildNameIsNew(s.profile, s.coreVersion);
    StubExtensionsShape();
    if j < |BaseFiles| {
      assert names[i] == BaseFiles[i] && names[j] == BaseFiles[j];
      assert names[i] in names && names[j] in names;
    } else if i < |BaseFiles| {
      var ext := StubExtensions[j - |BaseFiles|];
      StubNameIsNew(s.profile, ext);
      assert BaseFiles[i] in BaseFiles;
    } else {
      var e1, e2 := StubExtensions[i - |BaseFiles|], StubExtensions[j - |BaseFiles|];
      assert e1 != e2;
      assert ManifestFinalName(s, i)[|s.profile|..] == e1;
      assert ManifestFinalName(s, j)[|s.profile|..] == e2;
    }
  }

  /** The files of an accepted core version and profile fit: they materialise without collisions. */
  lemma FilenamesFit(s: Settings)
    requires !HasForbiddenChar(s.profile) && s.coreBranch == CoreBranch(s.coreVersion)
    ensures NamesFit(s, Filenames(s.coreVersion))
  {
    var names := Filenames(s.coreVersion);
    ManifestEntries(s.coreVersion);
    ManifestDistinct(s.coreVersion);
    assert names[6] == BuildExample;
    forall i, j | 0 <= i < j < |names|
      ensures FinalPath(s, names[i]) != FinalPath(s, names[j])
    {
      ManifestFinalPath(s, i);
      ManifestFinalPath(s, j);
      ManifestFinalNamesDistinct(s, i, j);
      JoinInjective(s.dir, ManifestFinalName(s, i), ManifestFinalName(s, j));
    }
    forall i | 0 <= i < |names|
      ensures !InSubtree(FinalPath(s, names[i]), Join(s.dir, s.coreBranch))
      ensures IsUnder(FinalPath(s, names[i]), s.dir)
    {
      ManifestFinalPath(s, i);
      UnderJoin(s.dir, s.coreBranch, ManifestFinalName(s, i));
      JoinIsUnder(s.dir, ManifestFinalName(s, i));
    }
    NameWithoutXNotInBranch("test", s.coreVersion);
    NameWithoutXNotInBranch("test/features", s.coreVersion);
    NameWithoutXNotInBranch(BootstrapDir, s.coreVersion);
  }

  /** Only the profile `example` keeps a file named `build-example.make`. */
  lemma FinalNamesWithoutBuildExample(s: Settings, k: nat)
    requires !HasForbiddenChar(s.profile)
    requires k < |Filenames(s.coreVersion)| && s.profile != "example"
    ensures ManifestFinalName(s, k) != BuildExample
  {
    var names := Filenames(s.coreVersion);
    ManifestEntries(s.coreVersion);
    BuildNameIsNew(s.profile, s.coreVersion);
    if k >= |BaseFiles| {
      AcceptedProfileIsPlainName(s.profile);
      StubExtensionsShape();
      StubNameIsNew(s.profile, StubExtensions[k - |BaseFiles|]);
      assert BaseFiles[6] in BaseFiles;
    } else if k != 6 {
      ManifestDistinct(s.coreVersion);
      assert names[k] != names[6];
    }
  }

  /** `MaterialiseFresh`, with the final paths given as names under the target directory. */
  lemma MaterialiseNamed(t0: Tree, tpl: Template, s: Settings, names: seq<string>, finals: seq<string>,
                         reps: seq<(string, string)>, order: seq<string>)
    requires NamesFit(s, names)
    requires |finals| == |names| && forall k :: 0 <= k < |names| ==> FinalPath(s, names[k]) == Join(s.dir, finals[k])
    requires forall k :: 0 <= k < |names| ==> names[k] in tpl.files
    requires forall q :: q in t0.files ==> !InSubtree(q, s.dir)
    requires IsListing(order, PrepareWith(t0, tpl, s, names, reps).tree, Join(s.dir, s.coreBranch))
    ensures PrepareWith(t0, tpl, s, names, reps).Done?
    ensures var f := Finish(PrepareWith(t0, tpl, s, names, reps).tree, s, order); var t := f.0;
      && f.1 == Success(GitStep(s))
      && (forall k :: 0 <= k < |names| ==>
            Join(s.dir, finals[k]) in t.files && t.files[Join(s.dir, finals[k])] == ReplaceVariables(reps, tpl.files[names[k]]))
      && (forall q :: q in t.files && InSubtree(q, s.dir) ==> exists k :: 0 <= k < |names| && q == Join(s.dir, finals[k]))
      && (forall q :: !InSubtree(q, s.dir) ==> (q in t.files <==> q in t0.files) && (q in t0.files ==> t.files[q] == t0.files[q]))
      && (forall q :: q in t.files ==> !InSubtree(q, Join(s.dir, s.coreBranch)))
      && (forall d :: d in t.dirs ==> !InSubtree(d, Join(s.dir, s.coreBranch)))
      && t.dirs == Pruned(PrepareWith(t0, tpl, s, names, reps).tree, Join(s.dir, s.coreBranch)).dirs
  {
    MaterialiseFresh(t0, tpl, s, names, reps, order);
  }

  /** The final names of the core version's files, in list order. */
  function FinalNames(s: Settings): (r: seq<string>)
    ensures |r| == |Filenames(s.coreVersion)|
  {
    seq(|Filenames(s.coreVersion)|, k requires 0 <= k < |Filenames(s.coreVersion)| => ManifestFinalName(s, k))
  }

  /**
   * The build file is the seventh of the list and ends as `build-<profile>.make`;
   * unless the profile is `example`, no file ends as `build-example.make`.
   */
  lemma BuildFileFinalName(s: Settings)
    requires !HasForbiddenChar(s.profile)
    ensures Filenames(s.coreVersion)[6] == BuildExample && FinalNames(s)[6] == BuildName(s.profile)
    ensures s.profile != "example" ==> forall k :: 0 <= k < |FinalNames(s)| ==> FinalNames(s)[k] != BuildExample
  {
    ManifestEntries(s.coreVersion);
    forall k | 0 <= k < |FinalNames(s)| && s.profile != "example"
      ensures FinalNames(s)[k] != BuildExample
    {
      FinalNamesWithoutBuildExample(s, k);
    }
  }

  /** For version 7 the three stubs are the last files of the list and end as `<profile>.info`, `<profile>.install` and `<profile>.profile`. */
  lemma StubFinalNames(s: Settings)
    ensures s.coreVersion == "7" ==>
      && |FinalNames(s)| == 14
      && FinalNames(s)[11] == s.profile + ".info"
      && FinalNames(s)[12] == s.profile + ".install"
      && FinalNames(s)[13] == s.profile + ".profile"
  {
    ManifestEntries(s.coreVersion);
  }

  /**
   * The list of the core version, materialised into a target directory that
   * holds no files: the git step is reached; each file of the list is at its
   * final name with its variables expanded and nothing else is in the target
   * directory; the stub directory is gone; nothing outside the target
   * directory changes.
   */
  lemma ManifestMaterialises(t0: Tree, tpl: Template, s: Settings, reps: seq<(string, string)>, order: seq<string>)
    requires !HasForbiddenChar(s.profile) && s.coreBranch == CoreBranch(s.coreVersion)
    requires forall f :: f in Filenames(s.coreVersion) ==> f in tpl.files
    requires forall q :: q in t0.files ==> !InSubtree(q, s.dir)
    requires IsListing(order, Prepare(t0, tpl, s, reps).tree, Join(s.dir, s.coreBranch))
    ensures Prepare(t0, tpl, s, reps).Done?
    ensures var names, finals := Filenames(s.coreVersion), FinalNames(s);
      var f := Finish(Prepare(t0, tpl, s, reps).tree, s, order); var t := f.0;
      && f.1 == Success(GitStep(s))
      && (forall k :: 0 <= k < |names| ==>
            Join(s.dir, finals[k]) in t.files && t.files[Join(s.dir, finals[k])] == ReplaceVariables(reps, tpl.files[names[k]]))
      && (forall q :: q in t.files && InSubtree(q, s.dir) ==> exists k :: 0 <= k < |names| && q == Join(s.dir, finals[k]))
      && (forall q :: !InSubtree(q, s.dir) ==> (q in t.files <==> q in t0.files) && (q in t0.files ==> t.files[q] == t0.files[q]))
      && (forall q :: q in t.files ==> !InSubtree(q, Join(s.dir, s.coreBranch)))
      && (forall d :: d in t.dirs ==> !InSubtree(d, Join(s.dir, s.coreBranch)))
      && t.dirs == Pruned(Prepare(t0, tpl, s, reps).tree, Join(s.dir, s.coreBranch)).dirs
  {
    var names, finals := Filenames(s.coreVersion), FinalNames(s);
    FilenamesFit(s);
    forall k | 0 <= k < |names|
      ensures names[k] in tpl.files && FinalPath(s, names[k]) == Join(s.dir, finals[k])
    {
      assert names[k] in names;
      ManifestFinalPath(s, k);
    }
    MaterialiseNamed(t0, tpl, s, names, finals, reps, order);
  }

  /**
   * The order in which the stub directory is listed does not matter: into a
   * target directory that holds no files, any two listings end in the same
   * tree and the same result.
   */
  lemma ListingOrderIrrelevant(t0: Tree, tpl: Template, s: Settings, reps: seq<(string, string)>, o1: seq<string>, o2: seq<string>)
    requires !HasForbiddenChar(s.profile) && s.coreBranch == CoreBranch(s.coreVersion)
    requires forall f :: f in Filenames(s.coreVersion) ==> f in tpl.files
    requires forall q :: q in t0.files ==> !InSubtree(q, s.dir)
    requires IsListing(o1, Prepare(t0, tpl, s, reps).tree, Join(s.dir, s.coreBranch))
    requires IsListing(o2, Prepare(t0, tpl, s, reps).tree, Join(s.dir, s.coreBranch))
    ensures Finish(Prepare(t0, tpl, s, reps).tree, s, o1) == Finish(Prepare(t0, tpl, s, reps).tree, s, o2)
  {
    ManifestMaterialises(t0, tpl, s, reps, o1);
    ManifestMaterialises(t0, tpl, s, reps, o2);
    var p := Prepare(t0, tpl, s, reps).tree;
    SameFinalTree(Finish(p, s, o1).0, Finish(p, s, o2).0, t0, tpl, s.dir, Filenames(s.coreVersion), FinalNames(s), reps);
  }

  /** Two trees with the same directories, the same final files in `dir` and the same outside are equal. */
  lemma SameFinalTree(t1: Tree, t2: Tree, t0: Tree, tpl: Template, dir: string, names: seq<string>, finals: seq<string>, reps: seq<(string, string)>)
    requires |finals| == |names| && forall k :: 0 <= k < |names| ==> names[k] in tpl.files
    requires forall k :: 0 <= k < |names| ==>
      Join(dir, finals[k]) in t1.files && t1.files[Join(dir, finals[k])] == ReplaceVariables(reps, tpl.files[names[k]])
    requires forall k :: 0 <= k < |names| ==>
      Join(dir, finals[k]) in t2.files && t2.files[Join(dir, finals[k])] == ReplaceVariables(reps, tpl.files[names[k]])
    requires forall q :: q in t1.files && InSubtree(q, dir) ==> exists k :: 0 <= k < |names| && q == Join(dir, finals[k])
    requires forall q :: q in t2.files && InSubtree(q, dir) ==> exists k :: 0 <= k < |names| && q == Join(dir, finals[k])
    requires forall q :: !InSubtree(q, dir) ==> (q in t1.files <==> q in t0.files) && (q in t0.files ==> t1.files[q] == t0.files[q])
    requires forall q :: !InSubtree(q, dir) ==> (q in t2.files <==> q in t0.files) && (q in t0.files ==> t2.files[q] == t0.files[q])
    requires t1.dirs == t2.dirs
    ensures t1 == t2
  {
    forall q | q in t1.files
      ensures q in t2.files && t1.files[q] == t2.files[q]
    {
      if InSubtree(q, dir) {
        var k :| 0 <= k < |names| && q == Join(dir, finals[k]);
      }
    }
    forall q | q in t2.files
      ensures q in t1.files
    {
      if InSubtree(q, dir) {
        var k :| 0 <= k < |names| && q == Join(dir, finals[k]);
      }
    }
    assert t1.files == t2.files;
  }

  /**
   * `execute` after validation has passed, with every template file present
   * and a target directory holding no files: whatever order the stub directory
   * is listed in, the git step is reached, `build-<profile>.make` and, for
   * version 7, `<profile>.info`, `<profile>.install` and `<profile>.profile`
   * are in the target directory, `build-example.make` is gone unless the
   * profile is `example`, nothing is left in the stub directory, and nothing
   * outside the target directory changes. (`Resolve` always gives the branch
   * of the core version.)
   */
  lemma AcceptedRun(t0: Tree, tpl: Template, s: Settings, version: string, order: seq<string>)
    requires Validate(tpl.dirs, s).None? && s.coreBranch == CoreBranch(s.coreVersion)
    requires forall f :: f in Filenames(s.coreVersion) ==> f in tpl.files
    requires forall q :: q in t0.files ==> !InSubtree(q, s.dir)
    requires IsListing(order, Prepare(t0, tpl, s, Replacements(s, version)).tree, Join(s.dir, s.coreBranch))
    ensures var reps := Replacements(s, version);
      var f := Finish(Prepare(t0, tpl, s, reps).tree, s, order); var t := f.0;
      && Prepare(t0, tpl, s, reps).Done?
      && f.1 == Success(GitStep(s))
      && Join(s.dir, BuildName(s.profile)) in t.files
      && (s.profile != "example" ==> Join(s.dir, BuildExample) !in t.files)
      && (s.coreVersion == "7" ==>
            && Join(s.dir, s.profile + ".info") in t.files
            && Join(s.dir, s.profile + ".install") in t.files
            && Join(s.dir, s.profile + ".profile") in t.files)
      && (forall q :: q in t.files ==> !InSubtree(q, Join(s.dir, s.coreBranch)))
      && (forall q :: !InSubtree(q, s.dir) ==> (q in t.files <==> q in t0.files) && (q in t0.files ==> t.files[q] == t0.files[q]))
  {
    var reps := Replacements(s, version);
    assert !HasForbiddenChar(s.profile);
    ManifestMaterialises(t0, tpl, s, reps, order);
    FinalTree(Finish(Prepare(t0, tpl, s, reps).tree, s, order).0, s);
  }

  /**
   * A tree whose files in the target directory are exactly the final names
   * of the list holds the renamed build file and the moved stubs, and holds
   * `build-example.make` only for the profile `example`.
   */
  lemma FinalTree(t: Tree, s: Settings)
    requires !HasForbiddenChar(s.profile)
    requires forall k :: 0 <= k < |FinalNames(s)| ==> Join(s.dir, FinalNames(s)[k]) in t.files
    requires forall q :: q in t.files && InSubtree(q, s.dir) ==> exists k :: 0 <= k < |FinalNames(s)| && q == Join(s.dir, FinalNames(s)[k])
    ensures Join(s.dir, BuildName(s.profile)) in t.files
    ensures s.profile != "example" ==> Join(s.dir, BuildExample) !in t.files
    ensures s.coreVersion == "7" ==>
      && Join(s.dir, s.profile + ".info") in t.files
      && Join(s.dir, s.profile + ".install") in t.files
      && Join(s.dir, s.profile + ".profile") in t.files
  {
    var finals := FinalNames(s);
    BuildFileFinalName(s);
    JoinIsUnder(s.dir, BuildExample);
    forall k | 0 <= k < |finals|
      ensures s.profile != "example" ==> Join(s.dir, finals[k]) != Join(s.dir, BuildExample)
    {
      JoinInjective(s.dir, finals[k], BuildExample);
    }
    StubFinalNames(s);
  }
}
