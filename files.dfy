/**
 * The filesystem the command writes to, as Symfony's `Filesystem` presents it:
 * a map from file path to content and a set of directory paths. The value
 * functions give each operation's effect; the class `FileSystem` is the
 * mutable handle the command works through.
 */
module Files {
  import opened Wrappers
  import opened Paths

  datatype Tree = Tree(files: map<string, string>, dirs: set<string>)

  /** `mkdir`: the directory and every missing ancestor exist afterwards; an existing one is not an error. */
  function WithDir(t: Tree, p: string): Tree
  {
    Tree(t.files, t.dirs + Ancestors(p))
  }

  /** `dumpFile`: the parent directories are created, then the file is written, replacing any old content. */
  function WithFile(t: Tree, p: string, content: string): Tree
  {
    Tree(t.files[p := content], t.dirs + ProperAncestors(p))
  }

  /** `rename`: fails when `origin` is not a file; otherwise its content moves to `target`. */
  function Moved(t: Tree, origin: string, target: string): Option<Tree>
  {
    if origin !in t.files then None
    else Some(Tree((t.files - {origin})[target := t.files[origin]], t.dirs))
  }

  /** Recursive `remove`: `root` and everything below it disappear. */
  function Pruned(t: Tree, root: string): (r: Tree)
    ensures forall p :: p in r.files <==> p in t.files && !InSubtree(p, root)
    ensures forall p :: p in r.files ==> r.files[p] == t.files[p]
    ensures forall d :: d in r.dirs <==> d in t.dirs && !InSubtree(d, root)
  {
    Tree(map p | p in t.files && !InSubtree(p, root) :: t.files[p], set d | d in t.dirs && !InSubtree(d, root))
  }

  predicate Distinct(s: seq<string>)
  {
    forall i, j :: 0 <= i < j < |s| ==> s[i] != s[j]
  }

  /** `order` lists every file below `root`, each once, in some order. */
  ghost predicate IsListing(order: seq<string>, t: Tree, root: string)
  {
    Distinct(order) && forall p :: p in order <==> p in t.files && IsUnder(p, root)
  }

  /** Creating a directory that already exists changes nothing. */
  lemma WithDirIdempotent(t: Tree, p: string)
    ensures WithDir(WithDir(t, p), p) == WithDir(t, p)
  {
  }

  /** Moving a file hands its content to the target and leaves every other file as it was. */
  lemma MovedEffect(t: Tree, origin: string, target: string)
    requires origin in t.files
    ensures Moved(t, origin, target).Some?
    ensures var r := Moved(t, origin, target).value;
      && target in r.files && r.files[target] == t.files[origin]
      && (origin != target ==> origin !in r.files)
      && r.dirs == t.dirs
      && forall p :: p != origin && p != target ==> (p in r.files <==> p in t.files) && (p in r.files ==> r.files[p] == t.files[p])
  {
  }

  /** The handle through which the command changes the filesystem. */
  class FileSystem {
    var files: map<string, string>
    var dirs: set<string>

    function State(): Tree
      reads this
    {
      Tree(files, dirs)
    }

    constructor (t: Tree)
      ensures State() == t
    {
      files := t.files;
      dirs := t.dirs;
    }

    method Mkdir(p: string)
      modifies this
      ensures State() == WithDir(old(State()), p)
    {
      dirs := dirs + Ancestors(p);
    }

    method DumpFile(p: string, content: string)
      modifies this
      ensures State() == WithFile(old(State()), p, content)
    {
      dirs := dirs + ProperAncestors(p);
      files := files[p := content];
    }

    method Rename(origin: string, target: string) returns (ok: bool)
      modifies this
      ensures ok <==> origin in old(files)
      ensures ok ==> State() == Moved(old(State()), origin, target).value
      ensures !ok ==> State() == old(State())
    {
      ok := origin in files;
      if ok {
        var content := files[origin];
        files := (files - {origin})[target := content];
      }
    }

    method Remove(root: string)
      modifies this
      ensures State() == Pruned(old(State()), root)
    {
      files := map p | p in files && !InSubtree(p, root) :: files[p];
      dirs := set d | d in dirs && !InSubtree(d, root);
    }

    /**
     * The files a recursive directory iterator visits below `root`. The order
     * depends on the underlying filesystem, so any order may come back.
     */
    method ListFiles(root: string) returns (order: seq<string>)
      ensures IsListing(order, State(), root)
    {
      var pending := set p | p in files && IsUnder(p, root);
      order := [];
      while pending != {}
        invariant pending <= files.Keys
        invariant Distinct(order)
        invariant forall p :: p in order ==> p !in pending
        invariant forall p :: p in order || p in pending <==> p in files && IsUnder(p, root)
        decreases pending
      {
        var p :| p in pending;
        order := order + [p];
        pending := pending - {p};
      }
    }
  }
}
