/**
 * Literal substring replacement as performed by PHP's `str_replace`, and the
 * template-variable expansion `NewCommand::replaceVariables` builds on it.
 */
module Text {
  import opened Wrappers

  /** `tok` occurs in `s` starting at index `j`. */
  predicate OccursAt(s: string, tok: string, j: int)
  {
    0 <= j && j + |tok| <= |s| && s[j..j + |tok|] == tok
  }

  /** `tok` occurs somewhere in `s`. */
  predicate Contains(s: string, tok: string)
  {
    exists j | 0 <= j <= |s| :: OccursAt(s, tok, j)
  }

  /**
   * Replace every left-to-right, non-overlapping occurrence of `tok` in `s` by
   * `val`, scanning one character at a time. An empty search string leaves the
   * subject unchanged, as PHP skips it.
   */
  function ReplaceAll(s: string, tok: string, val: string): string
    decreases |s|
  {
    if |tok| == 0 || |s| < |tok| then s
    else if s[..|tok|] == tok then val + ReplaceAll(s[|tok|..], tok, val)
    else [s[0]] + ReplaceAll(s[1..], tok, val)
  }

  /** Index of the leftmost occurrence of `tok` in `s` at or after `from`. */
  function IndexFrom(s: string, tok: string, from: nat): (r: Option<nat>)
    requires from <= |s|
    ensures r.Some? ==> from <= r.value && OccursAt(s, tok, r.value)
    ensures r.Some? ==> forall j :: from <= j < r.value ==> !OccursAt(s, tok, j)
    ensures r.None? ==> forall j :: from <= j ==> !OccursAt(s, tok, j)
    decreases |s| - from
  {
    if from + |tok| > |s| then None
    else if s[from..from + |tok|] == tok then Some(from)
    else IndexFrom(s, tok, from + 1)
  }

  /** Index of the leftmost occurrence of `tok` in `s`, as PHP's string search finds it. */
  function IndexOf(s: string, tok: string): (r: Option<nat>)
    ensures r.Some? <==> Contains(s, tok)
    ensures r.Some? ==> OccursAt(s, tok, r.value) && forall j :: 0 <= j < r.value ==> !OccursAt(s, tok, j)
  {
    IndexFrom(s, tok, 0)
  }

  /**
   * Reference definition of the same replacement, in the way PHP's
   * implementation proceeds: find the next occurrence, copy what precedes it,
   * emit the replacement, continue after the occurrence.
   */
  function ReplaceByFind(s: string, tok: string, val: string): string
    decreases |s|
  {
    if |tok| == 0 then s
    else match IndexOf(s, tok)
      case None => s
      case Some(i) => s[..i] + val + ReplaceByFind(s[i + |tok|..], tok, val)
  }

  /** An occurrence in the tail of `s` is an occurrence in `s`, one position further on. */
  lemma OccursInTail(s: string, tok: string, j: int)
    requires |s| > 0 && 0 <= j
    ensures OccursAt(s[1..], tok, j) <==> OccursAt(s, tok, j + 1)
  {
    if 0 <= j && j + |tok| <= |s| - 1 {
      assert s[1..][j..j + |tok|] == s[j + 1..j + 1 + |tok|];
    }
  }

  /** A subject that does not start with the search string keeps its first character. */
  lemma ReplaceAllStep(s: string, tok: string, val: string)
    requires 0 < |tok| <= |s| && !OccursAt(s, tok, 0)
    ensures ReplaceAll(s, tok, val) == [s[0]] + ReplaceAll(s[1..], tok, val)
  {
  }

  /** Concatenation associates. */
  lemma AppendAssociates(a: string, b: string, c: string)
    ensures a + (b + c) == (a + b) + c
  {
  }

  /** Concatenation of four strings associates. */
  lemma AppendAssociates4(a: string, b: string, c: string, d: string)
    ensures a + b + c + d == a + (b + (c + d))
  {
  }

  /** Slicing the tail of `s` is slicing `s` one position further on. */
  lemma TailSlices(s: string, i: nat)
    requires 0 < i <= |s|
    ensures s[1..][i - 1..] == s[i..] && [s[0]] + s[1..][..i - 1] == s[..i]
  {
  }

  /** No occurrence before `i` in `s` means none before `i - 1` in its tail. */
  lemma NoneInTail(s: string, tok: string, i: nat)
    requires 0 < i <= |s|
    requires forall j :: 0 <= j < i ==> !OccursAt(s, tok, j)
    ensures forall j :: 0 <= j < i - 1 ==> !OccursAt(s[1..], tok, j)
  {
    forall j | 0 <= j < i - 1
      ensures !OccursAt(s[1..], tok, j)
    {
      OccursInTail(s, tok, j);
    }
  }

  /** When no occurrence of `tok` starts before index `i`, the first `i` characters are copied verbatim. */
  lemma {:induction false} ReplaceAllSkips(s: string, tok: string, val: string, i: nat)
    requires i <= |s|
    requires forall j :: 0 <= j < i ==> !OccursAt(s, tok, j)
    ensures ReplaceAll(s, tok, val) == s[..i] + ReplaceAll(s[i..], tok, val)
    decreases i
  {
    if i == 0 {
      assert s[..0] + s[0..] == s;
    } else if |tok| == 0 || |s| < |tok| {
      assert s[..i] + s[i..] == s;
    } else {
      var t := s[1..];
      NoneInTail(s, tok, i);
      ReplaceAllSkips(t, tok, val, i - 1);
      ReplaceAllStep(s, tok, val);
      TailSlices(s, i);
      AppendAssociates([s[0]], t[..i - 1], ReplaceAll(s[i..], tok, val));
    }
  }

  /** A subject in which the search string does not occur is returned unchanged. */
  lemma ReplaceAllAbsent(s: string, tok: string, val: string)
    requires !Contains(s, tok)
    ensures ReplaceAll(s, tok, val) == s
  {
    ReplaceAllSkips(s, tok, val, |s|);
    assert s[..|s|] == s;
  }

  /** The character scan and the find-based definition agree on every input. */
  lemma {:induction false} ReplaceAllIsReplaceByFind(s: string, tok: string, val: string)
    ensures ReplaceAll(s, tok, val) == ReplaceByFind(s, tok, val)
    decreases |s|
  {
    if |tok| > 0 {
      match IndexOf(s, tok)
      case None =>
        ReplaceAllAbsent(s, tok, val);
      case Some(i) =>
        ReplaceAllSkips(s, tok, val, i);
        var rest := s[i..];
        assert rest[..|tok|] == tok;
        assert rest[|tok|..] == s[i + |tok|..];
        ReplaceAllIsReplaceByFind(s[i + |tok|..], tok, val);
    }
  }

  /** A prefix that holds no first character of the search string passes through untouched. */
  lemma ReplaceAllPlainPrefix(p: string, s: string, tok: string, val: string)
    requires |tok| > 0 && tok[0] !in p
    ensures ReplaceAll(p + s, tok, val) == p + ReplaceAll(s, tok, val)
  {
    var ps := p + s;
    forall j | 0 <= j < |p|
      ensures !OccursAt(ps, tok, j)
    {
      assert ps[j] == p[j] && p[j] in p;
      if j + |tok| <= |ps| {
        assert ps[j..j + |tok|][0] == ps[j];
      }
    }
    ReplaceAllSkips(ps, tok, val, |p|);
    assert ps[..|p|] == p;
    assert ps[|p|..] == s;
  }

  /** A subject that starts with the search string starts with the replacement afterwards. */
  lemma ReplaceAllLeadingToken(s: string, tok: string, val: string)
    requires |tok| > 0
    ensures ReplaceAll(tok + s, tok, val) == val + ReplaceAll(s, tok, val)
  {
    assert (tok + s)[..|tok|] == tok;
    assert (tok + s)[|tok|..] == s;
  }

  /** A subject that is exactly the search string becomes the replacement. */
  lemma ReplaceAllTokenOnly(tok: string, val: string)
    requires |tok| > 0
    ensures ReplaceAll(tok, tok, val) == val
  {
    ReplaceAllLeadingToken("", tok, val);
    assert tok + "" == tok && val + "" == val;
  }

  /**
   * `NewCommand::replaceVariables`: `str_replace` with arrays of search and
   * replace strings applies the pairs one after another, in array order, each
   * pass working on the result of the previous one.
   */
  function ReplaceVariables(replacements: seq<(string, string)>, subject: string): string
    decreases |replacements|
  {
    if replacements == [] then subject
    else ReplaceVariables(replacements[1..], ReplaceAll(subject, replacements[0].0, replacements[0].1))
  }

  /** A subject holding none of the tokens is returned unchanged. */
  lemma {:induction false} ReplaceVariablesAbsent(replacements: seq<(string, string)>, subject: string)
    requires forall k :: 0 <= k < |replacements| ==> !Contains(subject, replacements[k].0)
    ensures ReplaceVariables(replacements, subject) == subject
    decreases |replacements|
  {
    if replacements != [] {
      ReplaceAllAbsent(subject, replacements[0].0, replacements[0].1);
      forall k | 0 <= k < |replacements[1..]| ensures !Contains(subject, replacements[1..][k].0) {
        assert replacements[1..][k] == replacements[k + 1];
      }
      ReplaceVariablesAbsent(replacements[1..], subject);
    }
  }

  /** Expanding with a concatenation of replacement lists is expanding with one, then the other. */
  lemma {:induction false} ReplaceVariablesAppend(r1: seq<(string, string)>, r2: seq<(string, string)>, subject: string)
    ensures ReplaceVariables(r1 + r2, subject) == ReplaceVariables(r2, ReplaceVariables(r1, subject))
    decreases |r1|
  {
    if r1 == [] {
      assert r1 + r2 == r2;
    } else {
      assert (r1 + r2)[0] == r1[0];
      assert (r1 + r2)[1..] == r1[1..] + r2;
      ReplaceVariablesAppend(r1[1..], r2, ReplaceAll(subject, r1[0].0, r1[0].1));
    }
  }
}
