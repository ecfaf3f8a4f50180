/**
 * Path strings as `NewCommand` builds them (`$dir . '/' . $name`), the
 * subtree relation used by recursive listing and removal, and the regular
 * expression that moves the profile stub files out of the core-branch directory.
 */
module Paths {
  import opened Wrappers
  import opened Text

  /** The path `$dir . '/' . $name`. */
  function Join(dir: string, name: string): string
  {
    dir + "/" + name
  }

  /** `p` lies strictly below the directory `root`. */
  predicate IsUnder(p: string, root: string)
  {
    OccursAt(p, root + "/", 0)
  }

  /** `p` is `root` itself or lies below it. */
  predicate InSubtree(p: string, root: string)
  {
    p == root || IsUnder(p, root)
  }

  /** A name with no directory separator. */
  predicate IsPlainName(name: string)
  {
    '/' !in name
  }

  /** `p` and every directory above it (each prefix of `p` that ends just before a '/'). */
  function Ancestors(p: string): set<string>
  {
    {p} + set i | 0 < i < |p| && p[i] == '/' :: p[..i]
  }

  /** `p` is its own first ancestor, and each ancestor is a prefix of `p`. */
  lemma AncestorsArePrefixes(p: string)
    ensures p in Ancestors(p)
    ensures forall a :: a in Ancestors(p) ==> OccursAt(p, a, 0)
  {
    forall a | a in Ancestors(p) ensures OccursAt(p, a, 0)
    {
      if a != p {
        var i :| 0 < i < |p| && p[i] == '/' && a == p[..i];
      }
    }
  }

  /** The directories above `p`, without `p` itself. */
  function ProperAncestors(p: string): set<string>
  {
    set i | 0 < i < |p| && p[i] == '/' :: p[..i]
  }

  lemma JoinInjective(dir: string, a: string, b: string)
    ensures Join(dir, a) == Join(dir, b) <==> a == b
  {
    if Join(dir, a) == Join(dir, b) {
      assert a == Join(dir, a)[|dir| + 1..];
    }
  }

  /** Below `dir/a` means below `dir` with a relative path below `a`. */
  lemma UnderJoin(dir: string, a: string, b: string)
    ensures IsUnder(Join(dir, b), Join(dir, a)) <==> IsUnder(b, a)
    ensures Join(dir, b) == Join(dir, a) <==> b == a
  {
    JoinInjective(dir, a, b);
    var p, r := Join(dir, b), Join(dir, a) + "/";
    if |r| <= |p| {
      assert p[..|r|] == dir + "/" + b[..|a| + 1];
      assert r == dir + "/" + (a + "/");
      if p[..|r|] == r {
        assert b[..|a| + 1] == (dir + "/" + b[..|a| + 1])[|dir| + 1..];
      }
    }
  }

  /** `dir/a` lies below `dir`. */
  lemma JoinIsUnder(dir: string, a: string)
    ensures IsUnder(Join(dir, a), dir)
  {
    assert Join(dir, a)[..|dir| + 1] == dir + "/";
  }

  /** Whatever lies below `dir/a` lies below `dir`. */
  lemma UnderJoinIsUnder(dir: string, a: string, p: string)
    requires InSubtree(p, Join(dir, a))
    ensures IsUnder(p, dir)
  {
    assert p[..|dir| + 1] == Join(dir, a)[..|dir| + 1];
  }

  /** `.` followed by one or more lower-case ASCII letters: the group `(\.[a-z]+)`. */
  predicate IsExtension(e: string)
  {
    |e| >= 2 && e[0] == '.' && forall k :: 1 <= k < |e| ==> 'a' <= e[k] <= 'z'
  }

  /**
   * The text after `<branch>/example` satisfies `(\.[a-z]+)$`; without the D
   * modifier `$` also matches just before a final newline.
   */
  predicate IsExtensionTail(tail: string)
  {
    IsExtension(tail) || (|tail| > 0 && tail[|tail| - 1] == '\n' && IsExtension(tail[..|tail| - 1]))
  }

  const StubStem := "/example"

  /** The pattern `<branch>/example(\.[a-z]+)$` matches `path` starting at index `i`. */
  predicate StubMatchAt(path: string, branch: string, i: int)
  {
    0 <= i && i + |branch| + |StubStem| <= |path|
    && path[i..i + |branch| + |StubStem|] == branch + StubStem
    && IsExtensionTail(path[i + |branch| + |StubStem|..])
  }

  /** Leftmost start of a match at or after `from`, as PCRE searches. */
  function FirstStubMatch(path: string, branch: string, from: nat): (r: Option<nat>)
    requires from <= |path|
    ensures r.Some? ==> from <= r.value && r.value + |branch| + |StubStem| <= |path|
    decreases |path| - from
  {
    if StubMatchAt(path, branch, from) then Some(from)
    else if from == |path| then None
    else FirstStubMatch(path, branch, from + 1)
  }

  /** The search finds a match exactly when there is one, and then the leftmost. */
  lemma {:induction false} FirstStubMatchIsLeftmost(path: string, branch: string, from: nat)
    requires from <= |path|
    ensures var r := FirstStubMatch(path, branch, from);
      && (r.Some? ==> from <= r.value && StubMatchAt(path, branch, r.value))
      && (r.Some? ==> forall j :: from <= j < r.value ==> !StubMatchAt(path, branch, j))
      && (r.None? ==> forall j :: from <= j ==> !StubMatchAt(path, branch, j))
    decreases |path| - from
  {
    if !StubMatchAt(path, branch, from) && from < |path| {
      FirstStubMatchIsLeftmost(path, branch, from + 1);
    }
  }

  /** A match at `i` with none between `from` and `i` is the one the search finds. */
  lemma {:induction false} FirstStubMatchAt(path: string, branch: string, from: nat, i: nat)
    requires from <= i <= |path| && StubMatchAt(path, branch, i)
    requires forall j :: from <= j < i ==> !StubMatchAt(path, branch, j)
    ensures FirstStubMatch(path, branch, from) == Some(i)
    decreases i - from
  {
    if from < i {
      FirstStubMatchAt(path, branch, from + 1, i);
    }
  }

  /**
   * `preg_replace('@<branch>/example(\.[a-z]+)$@', $profile . '\1', $path)`:
   * the whole match is replaced by the profile name and the extension, so the
   * file leaves the branch directory; a path without a match is returned as is.
   */
  function StubTarget(path: string, branch: string, profile: string): string
  {
    match FirstStubMatch(path, branch, 0)
    case None => path
    case Some(i) => path[..i] + profile + path[i + |branch| + |StubStem|..]
  }

  /** A text with a dot after its first character and before its last is no extension tail. */
  lemma DotInsideNotTail(tail: string, d: nat)
    requires 1 <= d < |tail| - 1 && tail[d] == '.'
    ensures !IsExtensionTail(tail)
  {
    assert tail[..|tail| - 1][d] == '.';
  }

  /** `<dir>/<branch>/example<ext>` is moved to `<dir>/<profile><ext>`, one level up. */
  lemma {:induction false} StubTargetMovesUp(dir: string, branch: string, profile: string, ext: string)
    requires IsExtension(ext)
    ensures StubTarget(Join(dir, branch + StubStem + ext), branch, profile) == Join(dir, profile + ext)
  {
    var path := Join(dir, branch + StubStem + ext);
    var i0 := |dir| + 1;
    var k := i0 + |branch| + |StubStem|;
    assert path[i0..k] == branch + StubStem;
    assert path[k..] == ext;
    assert StubMatchAt(path, branch, i0);
    forall j | 0 <= j < i0
      ensures !StubMatchAt(path, branch, j)
    {
      if j + |branch| + |StubStem| <= |path| {
        var tail := path[j + |branch| + |StubStem|..];
        assert tail[i0 - j] == path[k] == ext[0];
        DotInsideNotTail(tail, i0 - j);
      }
    }
    FirstStubMatchAt(path, branch, 0, i0);
    assert path[..i0] == dir + "/";
  }

  /** A path that does not end in `<branch>/example<ext>` is left where it is. */
  lemma StubTargetNoMatch(path: string, branch: string, profile: string)
    requires forall j :: 0 <= j <= |path| ==> !StubMatchAt(path, branch, j)
    ensures StubTarget(path, branch, profile) == path
  {
    FirstStubMatchIsLeftmost(path, branch, 0);
  }

  /** The moved file is not below the branch directory when the profile name has no separator. */
  lemma MovedUpLeavesBranch(dir: string, branch: string, profile: string, ext: string)
    requires IsExtension(ext) && IsPlainName(profile) && profile + ext != branch
    ensures !InSubtree(Join(dir, profile + ext), Join(dir, branch))
  {
    UnderJoin(dir, branch, profile + ext);
    var n := profile + ext;
    if |branch| < |n| {
      assert n[|branch|] != '/' by {
        if |branch| < |profile| {
          assert n[|branch|] == profile[|branch|];
        } else {
          assert n[|branch|] == ext[|branch| - |profile|];
        }
      }
    }
  }
}
