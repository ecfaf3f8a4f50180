/**
 * The list of template files `NewCommand::execute` copies: eleven fixed paths,
 * followed by the three profile stubs of the core branch when the core version
 * is 7.
 */
module Manifest {
  import opened Paths
  import opened Files
  import opened Settings

  const BuildExample := "build-example.make"

  /** The deepest directory the command creates besides the core branch. */
  const BootstrapDir := "test/features/bootstrap"
  const FeatureContext := "FeatureContext.php"

  /** The fixed paths, in the order they are copied. */
  const BaseFiles: seq<string> := [
    ".editorconfig",
    ".gitignore",
    ".travis.yml",
    "build.xml",
    "build.properties.dist",
    "behat.yml",
    BuildExample,
    Join(BootstrapDir, FeatureContext),
    "test/features/test.feature",
    "drupal-org-core.make",
    "drupal-org.make"
  ]

  const StubExtensions: seq<string> := [".info", ".install", ".profile"]

  /** `<branch>/example.info`, `<branch>/example.install`, `<branch>/example.profile`. */
  function StubFiles(branch: string): seq<string>
  {
    [branch + StubStem + StubExtensions[0], branch + StubStem + StubExtensions[1], branch + StubStem + StubExtensions[2]]
  }

  /** The paths copied for a core version, in copy order. */
  function Filenames(coreVersion: string): seq<string>
  {
    BaseFiles + if coreVersion == "7" then StubFiles(CoreBranch(coreVersion)) else []
  }

  /** Eleven fixed paths, plus exactly the three version-7 stubs, appended in order, iff the version is 7. */
  lemma ManifestEntries(coreVersion: string)
    ensures coreVersion != "7" ==> Filenames(coreVersion) == BaseFiles && |BaseFiles| == 11
    ensures coreVersion == "7" ==> Filenames(coreVersion) == BaseFiles + ["7.x/example.info", "7.x/example.install", "7.x/example.profile"]
  {
    assert CoreBranch("7") + StubStem + StubExtensions[0] == "7.x/example.info";
    assert CoreBranch("7") + StubStem + StubExtensions[1] == "7.x/example.install";
    assert CoreBranch("7") + StubStem + StubExtensions[2] == "7.x/example.profile";
  }

  /** The entries after the fixed paths are the stubs of the version-7 branch, in extension order. */
  lemma StubEntry(coreVersion: string, k: nat)
    requires |BaseFiles| <= k < |Filenames(coreVersion)|
    ensures coreVersion == "7" && k - |BaseFiles| < |StubExtensions|
    ensures Filenames(coreVersion)[k] == CoreBranch(coreVersion) + StubStem + StubExtensions[k - |BaseFiles|]
  {
  }

  lemma StubExtensionsAreExtensions()
    ensures forall k :: 0 <= k < |StubExtensions| ==> IsExtension(StubExtensions[k])
  {
    assert IsExtension(".info");
    assert IsExtension(".install");
    assert IsExtension(".profile");
  }

  /** A plain file name that does not end in `x` cannot be `<v>.x` or lie below it. */
  lemma PlainNameNotInBranch(f: string, coreVersion: string)
    requires '/' !in f && |f| > 0 && f[|f| - 1] != 'x'
    ensures !InSubtree(f, CoreBranch(coreVersion))
  {
    var b := CoreBranch(coreVersion);
    assert b[|b| - 1] == 'x';
    if |b| < |f| {
      assert f[|b|] in f;
    }
  }

  /** A name without an `x` cannot be `<v>.x` or lie below it. */
  lemma NameWithoutXNotInBranch(f: string, coreVersion: string)
    requires 'x' !in f
    ensures !InSubtree(f, CoreBranch(coreVersion))
  {
    var b := CoreBranch(coreVersion);
    assert b[|b| - 1] == 'x';
    if |b| <= |f| {
      assert f[|b| - 1] in f;
    }
  }

  /** `a/c` with no `x` in `a` and no `/` in `c` has no `x/` in it, so it is not `<v>.x` or below it. */
  lemma JoinedNameNotInBranch(a: string, c: string, coreVersion: string)
    requires 'x' !in a && '/' !in c && |c| > 0 && c[|c| - 1] != 'x'
    ensures !InSubtree(Join(a, c), CoreBranch(coreVersion))
  {
    var b := CoreBranch(coreVersion);
    var h := Join(a, c);
    var i := |b| - 1;
    assert b[i] == 'x';
    assert h[|h| - 1] == c[|c| - 1];
    if i + 1 < |h| {
      assert !(h[i] == 'x' && h[i + 1] == '/') by {
        if i < |a| {
          assert h[i] == a[i] && a[i] in a;
        } else if i > |a| {
          assert h[i + 1] == c[i - |a|] && c[i - |a|] in c;
        }
      }
    }
  }

  /** None of the fixed paths lies in the core-branch directory, whatever the core version. */
  lemma BaseFilesOutsideBranch(coreVersion: string)
    ensures forall f :: f in BaseFiles ==> !InSubtree(f, CoreBranch(coreVersion))
  {
    DotFilesOutsideBranch(coreVersion);
    BuildFilesOutsideBranch(coreVersion);
    forall f | f in BaseFiles
      ensures !InSubtree(f, CoreBranch(coreVersion))
    {
      var k :| 0 <= k < |BaseFiles| && BaseFiles[k] == f;
    }
  }

  /** The fixed paths without `x/` in them lie outside the core-branch directory. */
  lemma DotFilesOutsideBranch(coreVersion: string)
    ensures !InSubtree(".editorconfig", CoreBranch(coreVersion))
    ensures !InSubtree(".gitignore", CoreBranch(coreVersion))
    ensures !InSubtree(".travis.yml", CoreBranch(coreVersion))
    ensures !InSubtree(Join(BootstrapDir, FeatureContext), CoreBranch(coreVersion))
    ensures !InSubtree("test/features/test.feature", CoreBranch(coreVersion))
  {
    PlainNameNotInBranch(".editorconfig", coreVersion);
    PlainNameNotInBranch(".gitignore", coreVersion);
    PlainNameNotInBranch(".travis.yml", coreVersion);
    JoinedNameNotInBranch(BootstrapDir, FeatureContext, coreVersion);
    NameWithoutXNotInBranch("test/features/test.feature", coreVersion);
  }

  /** The fixed plain names that do not end in `x` lie outside the core-branch directory. */
  lemma BuildFilesOutsideBranch(coreVersion: string)
    ensures !InSubtree("build.xml", CoreBranch(coreVersion))
    ensures !InSubtree("build.properties.dist", CoreBranch(coreVersion))
    ensures !InSubtree("behat.yml", CoreBranch(coreVersion))
    ensures !InSubtree(BuildExample, CoreBranch(coreVersion))
    ensures !InSubtree("drupal-org-core.make", CoreBranch(coreVersion))
    ensures !InSubtree("drupal-org.make", CoreBranch(coreVersion))
  {
    PlainNameNotInBranch("build.xml", coreVersion);
    PlainNameNotInBranch("build.properties.dist", coreVersion);
    PlainNameNotInBranch("behat.yml", coreVersion);
    PlainNameNotInBranch(BuildExample, coreVersion);
    PlainNameNotInBranch("drupal-org-core.make", coreVersion);
    PlainNameNotInBranch("drupal-org.make", coreVersion);
  }

  /** Each stub path lies directly in the core-branch directory. */
  lemma StubFilesInBranch(branch: string)
    ensures forall f :: f in StubFiles(branch) ==> IsUnder(f, branch)
  {
    forall k | 0 <= k < 3
      ensures IsUnder(StubFiles(branch)[k], branch)
    {
      assert StubFiles(branch)[k][..|branch| + 1] == branch + "/";
    }
  }

  /** No path is copied twice. */
  lemma {:induction false} ManifestDistinct(coreVersion: string)
    ensures Distinct(Filenames(coreVersion))
  {
    ManifestEntries(coreVersion);
  }

  /** The copied paths in the core-branch directory are exactly the three stubs, and only for version 7. */
  lemma ManifestBranchEntries(coreVersion: string)
    ensures forall f :: f in Filenames(coreVersion) ==>
      (IsUnder(f, CoreBranch(coreVersion)) <==> coreVersion == "7" && f in StubFiles(CoreBranch(coreVersion)))
  {
    BaseFilesOutsideBranch(coreVersion);
    StubFilesInBranch(CoreBranch(coreVersion));
  }

  /** The name `build-example.make` is renamed to: `'build-' . $profile . '.make'`. */
  function BuildName(profile: string): string
  {
    "build-" + profile + ".make"
  }

  /** Two names differ when one holds a character the other lacks. */
  lemma CharSeparates(c: char, a: string, b: string)
    requires c in a && c !in b
    ensures a != b
  {
  }

  /** Two names differ when their `k`-th characters from the end differ. */
  lemma EndingSeparates(p: string, ext: string, f: string, k: nat)
    requires 0 < k <= |ext| && k <= |f| && f[|f| - k] != ext[|ext| - k]
    ensures p + ext != f
  {
  }

  /** The renamed build file takes the place of no other copied file, and is the original name only for profile `example`. */
  lemma BuildNameIsNew(profile: string, coreVersion: string)
    ensures forall f :: f in Filenames(coreVersion) && f != BuildExample ==> f != BuildName(profile)
    ensures BuildName(profile) == BuildExample <==> profile == "example"
  {
    BuildNameNotFixed(profile);
    BuildNameNotStub(profile, CoreBranch(coreVersion));
    var b := BuildName(profile);
    if b == BuildExample {
      assert profile == b[6..|b| - 5];
      assert BuildExample[6..13] == "example";
    }
    assert BuildName("example") == BuildExample;
  }

  lemma BuildNameNotFixed(profile: string)
    ensures forall f :: f in BaseFiles && f != BuildExample ==> f != BuildName(profile)
  {
    var b := BuildName(profile);
    assert b[0] == 'b' && b[5] == '-';
    CharSeparates('-', b, ".editorconfig");
    CharSeparates('-', b, ".gitignore");
    CharSeparates('-', b, ".travis.yml");
    CharSeparates('-', b, "build.xml");
    CharSeparates('-', b, "build.properties.dist");
    CharSeparates('-', b, "behat.yml");
    CharSeparates('-', b, Join(BootstrapDir, FeatureContext));
    CharSeparates('-', b, "test/features/test.feature");
    CharSeparates('b', b, "drupal-org-core.make");
    CharSeparates('b', b, "drupal-org.make");
  }

  lemma BuildNameNotStub(profile: string, branch: string)
    ensures forall f :: f in StubFiles(branch) ==> f != BuildName(profile)
  {
    var b := BuildName(profile);
    assert b[|b| - 2] == 'k';
    EndingSeparates(branch + StubStem, StubExtensions[0], b, 2);
    EndingSeparates(branch + StubStem, StubExtensions[1], b, 2);
    EndingSeparates(branch + StubStem, StubExtensions[2], b, 2);
  }

  /**
   * A moved stub `<profile><ext>` takes the place of no fixed file and not of
   * the renamed build file, when the profile holds no `/` and no `-`.
   */
  lemma StubNameIsNew(profile: string, ext: string)
    requires '/' !in profile && '-' !in profile && '/' !in ext && '-' !in ext
    requires |ext| >= 2 && ext[|ext| - 2] in "fl"
    ensures forall f :: f in BaseFiles ==> profile + ext != f
    ensures profile + ext != BuildName(profile)
  {
    var n := profile + ext;
    EndingSeparates(profile, ext, ".editorconfig", 2);
    EndingSeparates(profile, ext, ".gitignore", 2);
    EndingSeparates(profile, ext, ".travis.yml", 2);
    EndingSeparates(profile, ext, "build.xml", 2);
    EndingSeparates(profile, ext, "build.properties.dist", 2);
    EndingSeparates(profile, ext, "behat.yml", 2);
    CharSeparates('-', BuildExample, n);
    CharSeparates('/', Join(BootstrapDir, FeatureContext), n);
    CharSeparates('/', "test/features/test.feature", n);
    CharSeparates('-', "drupal-org-core.make", n);
    CharSeparates('-', "drupal-org.make", n);
    assert BuildName(profile)[5] == '-';
    CharSeparates('-', BuildName(profile), n);
  }

  /** The three stub extensions are distinct, and each ends as `StubNameIsNew` needs. */
  lemma StubExtensionsShape()
    ensures forall j, k :: 0 <= j < k < |StubExtensions| ==> StubExtensions[j] != StubExtensions[k]
    ensures forall k :: 0 <= k < |StubExtensions| ==>
      var e := StubExtensions[k]; IsExtension(e) && '/' !in e && '-' !in e && e[|e| - 2] in "fl" && e[|e| - 1] != 'x'
  {
    StubExtensionsAreExtensions();
    assert ".install"[7] != ".profile"[7];
  }
}
