/** The local directory under the configured root: the root-relative paths that
    `list_file` reports, and the file tree that `read_file`, `write_file`,
    `del_file` and `clear_empty_folder` act on. */
module Files {
  import opened Common

  // ---------------------------------------------------------------------------
  // list_file: root-relative paths computed from an os.walk listing
  // ---------------------------------------------------------------------------

  predicate IsSep(c: char)
  {
    c == '/' || c == '\\'
  }

  /** Python `s[k:]` for k >= 0: empty once k passes the end. */
  function Drop(s: string, k: nat): (r: string)
    ensures |r| == if k <= |s| then |s| - k else 0
  {
    if k <= |s| then s[k..] else ""
  }

  /** Python `s.replace('\\', '/')`. */
  function Slashed(s: string): (r: string)
    ensures |r| == |s|
    ensures forall i :: 0 <= i < |s| ==> r[i] == (if s[i] == '\\' then '/' else s[i])
  {
    seq(|s|, i requires 0 <= i < |s| => if s[i] == '\\' then '/' else s[i])
  }

  /** The directory `list_file` walks: `root_dir` with ONE trailing separator
      removed. An empty `root_dir` makes `root[-1]` raise IndexError. */
  function WalkRoot(rootDir: string): Option<string>
  {
    if rootDir == "" then None
    else if IsSep(rootDir[|rootDir| - 1]) then Some(rootDir[..|rootDir| - 1])
    else Some(rootDir)
  }

  /** The path `list_file` appends for file `name` found in `dirpath`:
      `(dirpath.replace('\\', '/') + '/' + name)[root_len:]`. */
  function ListedPath(dirpath: string, name: string, rootLen: nat): string
  {
    Drop(Slashed(dirpath) + "/" + name, rootLen)
  }

  /** One triple produced by `os.walk`: a directory path (the walk root joined
      with the sub-directory), its sub-directory names and its file names. */
  datatype WalkStep = WalkStep(dirpath: string, dirnames: seq<string>, filenames: seq<string>)

  function PathsOf(dirpath: string, names: seq<string>, rootLen: nat): (r: seq<string>)
    ensures |r| == |names|
    ensures forall i :: 0 <= i < |names| ==> r[i] == ListedPath(dirpath, names[i], rootLen)
  {
    seq(|names|, i requires 0 <= i < |names| => ListedPath(dirpath, names[i], rootLen))
  }

  /** Everything `list_file` collects from a walk, in walk order. */
  function Listed(walk: seq<WalkStep>, rootLen: nat): seq<string>
  {
    if walk == [] then []
    else Listed(walk[..|walk| - 1], rootLen) + PathsOf(walk[|walk| - 1].dirpath, walk[|walk| - 1].filenames, rootLen)
  }

  /** The number of files (not directories) in a walk. */
  function FileCount(walk: seq<WalkStep>): nat
  {
    if walk == [] then 0 else FileCount(walk[..|walk| - 1]) + |walk[|walk| - 1].filenames|
  }

  /** `FileManager.list_file`, given what `os.walk(WalkRoot(rootDir))` yields. */
  method ListFile(rootDir: string, walk: seq<WalkStep>) returns (r: Option<seq<string>>)
    ensures r.None? <==> rootDir == ""
    ensures r.Some? ==> r.value == Listed(walk, |rootDir| + 1)
  {
    var root := WalkRoot(rootDir);
    if root.None? {
      return None;
    }
    var rootLen := |rootDir| + 1;
    var filesList: seq<string> := [];
    var i := 0;
    while i < |walk|
      invariant 0 <= i <= |walk|
      invariant filesList == Listed(walk[..i], rootLen)
    {
      var step := walk[i];
      if step.filenames != [] {
        var j := 0;
        while j < |step.filenames|
          invariant 0 <= j <= |step.filenames|
          invariant filesList == Listed(walk[..i], rootLen) + PathsOf(step.dirpath, step.filenames[..j], rootLen)
        {
          filesList := filesList + [ListedPath(step.dirpath, step.filenames[j], rootLen)];
          j := j + 1;
        }
        assert step.filenames[..j] == step.filenames;
      }
      assert walk[..i + 1][..i] == walk[..i];
      i := i + 1;
    }
    assert walk[..i] == walk;
    r := Some(filesList);
  }

  /** `list_file` reports one path per walked FILE: directories never appear. */
  lemma {:induction false} ListedCount(walk: seq<WalkStep>, rootLen: nat)
    ensures |Listed(walk, rootLen)| == FileCount(walk)
  {
    if walk != [] {
      ListedCount(walk[..|walk| - 1], rootLen);
    }
  }

  /** Every listed path is the listed form of some walked file. */
  lemma {:induction false} ListedSound(walk: seq<WalkStep>, rootLen: nat, p: string)
    requires p in Listed(walk, rootLen)
    ensures exists k, i :: (0 <= k < |walk| && 0 <= i < |walk[k].filenames| &&
      p == ListedPath(walk[k].dirpath, walk[k].filenames[i], rootLen))
  {
    var init := walk[..|walk| - 1];
    var last := walk[|walk| - 1];
    if p in Listed(init, rootLen) {
      ListedSound(init, rootLen, p);
      var k, i :| 0 <= k < |init| && 0 <= i < |init[k].filenames| &&
        p == ListedPath(init[k].dirpath, init[k].filenames[i], rootLen);
      assert walk[k] == init[k];
    } else {
      var i :| 0 <= i < |last.filenames| && PathsOf(last.dirpath, last.filenames, rootLen)[i] == p;
      assert walk[|walk| - 1] == last;
    }
  }

  /** Every walked file is listed. */
  lemma {:induction false} ListedComplete(walk: seq<WalkStep>, rootLen: nat, k: nat, i: nat)
    requires k < |walk| && i < |walk[k].filenames|
    ensures ListedPath(walk[k].dirpath, walk[k].filenames[i], rootLen) in Listed(walk, rootLen)
  {
    var init := walk[..|walk| - 1];
    var last := walk[|walk| - 1];
    if k < |walk| - 1 {
      assert init[k] == walk[k];
      ListedComplete(init, rootLen, k, i);
    } else {
      assert PathsOf(last.dirpath, last.filenames, rootLen)[i] == ListedPath(walk[k].dirpath, walk[k].filenames[i], rootLen);
    }
  }

  /** A path is listed exactly when it is the listed form of some walked file. */
  lemma ListedMembers(walk: seq<WalkStep>, rootLen: nat, p: string)
    ensures p in Listed(walk, rootLen) <==>
      exists k, i :: 0 <= k < |walk| && 0 <= i < |walk[k].filenames| &&
        p == ListedPath(walk[k].dirpath, walk[k].filenames[i], rootLen)
  {
    if p in Listed(walk, rootLen) {
      ListedSound(walk, rootLen, p);
    }
    if exists k, i :: 0 <= k < |walk| && 0 <= i < |walk[k].filenames| &&
                      p == ListedPath(walk[k].dirpath, walk[k].filenames[i], rootLen)
    {
      var k, i :| 0 <= k < |walk| && 0 <= i < |walk[k].filenames| &&
        p == ListedPath(walk[k].dirpath, walk[k].filenames[i], rootLen);
      ListedComplete(walk, rootLen, k, i);
    }
  }

  /** Without a trailing separator on `root_dir`, the listed path of a file
      found in `root + sub` is its path relative to the root: the name itself
      at the top, `sub` (without its leading separator, backslashes turned
      into slashes) joined with the name below. */
  lemma RootRelative(root: string, sub: string, name: string)
    requires root != "" && !IsSep(root[|root| - 1])
    requires sub == "" || IsSep(sub[0])
    ensures WalkRoot(root) == Some(root)
    ensures ListedPath(root + sub, name, |root| + 1) ==
      if sub == "" then name else Slashed(sub[1..]) + "/" + name
  {
    var whole := Slashed(root + sub) + "/" + name;
    if sub == "" {
      assert whole[|root| + 1..] == name;
    } else {
      assert whole[|root| + 1..] == Slashed(sub[1..]) + "/" + name;
    }
  }

  /** With a trailing separator on `root_dir` the walk root loses it but
      `root_len` does not: every listed path is the root-relative path with its
      first character cut off. */
  lemma TrailingSeparatorCutsOneChar(root: string, sep: char, dirpath: string, name: string)
    requires IsSep(sep)
    ensures WalkRoot(root + [sep]) == Some(root)
    ensures ListedPath(dirpath, name, |root + [sep]| + 1) == Drop(ListedPath(dirpath, name, |root| + 1), 1)
  {
    assert (root + [sep])[..|root|] == root;
    var whole := Slashed(dirpath) + "/" + name;
    if |root| + 2 <= |whole| {
      assert whole[|root| + 1..][1..] == whole[|root| + 2..];
    }
  }

  // ---------------------------------------------------------------------------
  // The file tree under the root
  // ---------------------------------------------------------------------------

  /** Index of the last '/' in `p`, or -1. */
  function LastSlash(p: string): (i: int)
    ensures -1 <= i < |p|
    ensures i >= 0 ==> p[i] == '/'
    ensures forall j :: i < j < |p| ==> p[j] != '/'
  {
    if p == [] then -1
    else if p[|p| - 1] == '/' then |p| - 1
    else LastSlash(p[..|p| - 1])
  }

  /** `os.path.dirname` of a root-relative path; the root itself is "". */
  function Parent(p: string): (q: string)
    ensures p != "" ==> |q| < |p|
  {
    var i := LastSlash(p);
    if i < 0 then "" else p[..i]
  }

  /** The directories `os.makedirs(os.path.dirname(path))` ensures exist
      for `path`, root included. */
  function Ancestors(p: string): set<string>
    decreases |p|
  {
    if p == "" then {} else {Parent(p)} + Ancestors(Parent(p))
  }

  /** The tree under the root: root-relative file paths with their bytes, and
      the directories that exist ("" is the root). */
  datatype Tree = Tree(files: map<string, Bytes>, dirs: set<string>)

  /** A well-formed tree: the root exists, is not a file, and every file and
      directory has all its ancestor directories. */
  ghost predicate WellFormed(t: Tree)
  {
    && "" in t.dirs
    && "" !in t.files
    && (forall f :: f in t.files ==> Ancestors(f) <= t.dirs)
    && (forall d :: d in t.dirs ==> Ancestors(d) <= t.dirs)
  }

  /** The tree after `write_file(name, data)`. */
  function Written(t: Tree, name: string, data: Bytes): Tree
  {
    Tree(t.files[name := data], t.dirs + Ancestors(name))
  }

  /** The tree after `del_file(name)`: a file is removed, anything else is left. */
  function Deleted(t: Tree, name: string): Tree
  {
    Tree(t.files - {name}, t.dirs)
  }

  /** What `os.walk` lists for `d` is empty: no sub-directory, no file. */
  predicate IsEmptyDir(t: Tree, d: string)
  {
    && (forall c :: c in t.dirs && c != "" ==> Parent(c) != d)
    && (forall f :: f in t.files ==> Parent(f) != d)
  }

  /** The directories `clear_empty_folder` removes. The bottom-up walk lists a
      directory BEFORE it visits (and maybe removes) its children, so only
      directories that were already empty go; the root never does. */
  function Removable(t: Tree): (r: set<string>)
    ensures "" !in r && r <= t.dirs
  {
    set d | d in t.dirs && d != "" && IsEmptyDir(t, d)
  }

  function Cleared(t: Tree): Tree
  {
    Tree(t.files, t.dirs - Removable(t))
  }

  lemma {:induction false} AncestorsTransitive(p: string, a: string)
    requires a in Ancestors(p)
    ensures Ancestors(a) <= Ancestors(p)
    decreases |p|
  {
    if a != Parent(p) {
      AncestorsTransitive(Parent(p), a);
    }
  }

  /** Every ancestor of `p` is the parent of `p` or of another ancestor of `p`. */
  lemma {:induction false} AncestorHasChild(p: string, a: string)
    requires a in Ancestors(p)
    ensures (p != "" && Parent(p) == a) || exists c :: c in Ancestors(p) && c != "" && Parent(c) == a
    decreases |p|
  {
    if a != Parent(p) {
      var q := Parent(p);
      AncestorHasChild(q, a);
      if q != "" && Parent(q) == a {
        assert q in Ancestors(p);
      } else {
        var c :| c in Ancestors(q) && c != "" && Parent(c) == a;
        assert c in Ancestors(p);
      }
    }
  }

  /** Writing keeps a tree well formed and reads back what was written. */
  lemma WrittenWellFormed(t: Tree, name: string, data: Bytes)
    requires WellFormed(t) && name != ""
    ensures WellFormed(Written(t, name, data))
    ensures Written(t, name, data).files[name] == data
  {
    var w := Written(t, name, data);
    assert "" in Ancestors(name) by { RootIsAncestor(name); }
    forall d | d in w.dirs ensures Ancestors(d) <= w.dirs {
      if d in Ancestors(name) {
        AncestorsTransitive(name, d);
      }
    }
  }

  lemma DeletedWellFormed(t: Tree, name: string)
    requires WellFormed(t)
    ensures WellFormed(Deleted(t, name))
  {
  }

  lemma NothingToDelete(t: Tree, name: string)
    requires name !in t.files
    ensures Deleted(t, name) == t
  {
    assert t.files - {name} == t.files;
  }

  lemma {:induction false} RootIsAncestor(p: string)
    requires p != ""
    ensures "" in Ancestors(p)
    decreases |p|
  {
    if Parent(p) != "" {
      RootIsAncestor(Parent(p));
    }
  }

  /** `clear_empty_folder` keeps the root and every directory some file or
      directory still needs. */
  lemma ClearedWellFormed(t: Tree)
    requires WellFormed(t)
    ensures WellFormed(Cleared(t))
  {
    var c := Cleared(t);
    forall x, a | (x in t.files || x in c.dirs) && a in Ancestors(x)
      ensures a in c.dirs
    {
      if a in Removable(t) {
        AncestorHasChild(x, a);
        assert false;
      }
    }
  }

  /** The documentation says a folder is empty when none of its sub-folders
      holds a file; the walk does less. Here `a` holds only the empty `a/b`:
      `a/b` is removed but `a` survives. */
  lemma ParentOfEmptyChildSurvives()
    ensures var t := Tree(map[], {"", "a", "a/b"});
      WellFormed(t) && Cleared(t).dirs == {"", "a"}
  {
    var t := Tree(map[], {"", "a", "a/b"});
    assert LastSlash("a") == -1;
    assert LastSlash("a/b") == 1;
    assert Parent("a") == "" && Parent("a/b") == "a";
    assert Ancestors("a") == {""};
    assert Ancestors("a/b") == {"a", ""};
    assert !IsEmptyDir(t, "a");
    assert IsEmptyDir(t, "a/b");
    assert Removable(t) == {"a/b"};
  }

  /** `FileManager`: the local directory as a mutable file tree. */
  class FileManager {
    var files: map<string, Bytes>
    var dirs: set<string>

    ghost predicate Valid()
      reads this
    {
      WellFormed(Tree(files, dirs))
    }

    function Snapshot(): Tree
      reads this
    {
      Tree(files, dirs)
    }

    constructor (files: map<string, Bytes>, dirs: set<string>)
      requires WellFormed(Tree(files, dirs))
      ensures Valid() && this.files == files && this.dirs == dirs
    {
      this.files := files;
      this.dirs := dirs;
    }

    /** `read_file`: opening a missing file raises, so the name must be a file. */
    method ReadFile(name: string) returns (data: Bytes)
      requires name in files
      ensures data == files[name]
    {
      data := files[name];
    }

    /** `write_file`: creates the missing parent directories, then overwrites. */
    method WriteFile(name: string, data: Bytes)
      requires Valid() && name != ""
      modifies this
      ensures Valid()
      ensures Snapshot() == Written(old(Snapshot()), name, data)
      ensures files[name] == data
    {
      WrittenWellFormed(Snapshot(), name, data);
      dirs := dirs + Ancestors(name);
      files := files[name := data];
    }

    /** `del_file`: removes `name` when it is a file; a no-op otherwise. */
    method DelFile(name: string)
      requires Valid()
      modifies this
      ensures Valid()
      ensures Snapshot() == Deleted(old(Snapshot()), name)
      ensures name !in files
    {
      if name in files {
        DeletedWellFormed(Snapshot(), name);
        files := files - {name};
      } else {
        NothingToDelete(Snapshot(), name);
      }
    }

    /** `clear_empty_folder`: every directory of the walk except the root is
        removed when its listing had neither sub-directories nor files. */
    method ClearEmptyFolder()
      requires Valid()
      modifies this
      ensures Valid()
      ensures Snapshot() == Cleared(old(Snapshot()))
      ensures "" in dirs
    {
      var listed := Snapshot();
      var walk := dirs;
      while walk != {}
        invariant walk <= listed.dirs
        invariant files == listed.files
        invariant dirs == listed.dirs - (Removable(listed) - walk)
        decreases walk
      {
        var d :| d in walk;
        if d != "" && IsEmptyDir(listed, d) {
          dirs := dirs - {d};
        }
        walk := walk - {d};
      }
      ClearedWellFormed(listed);
    }
  }
}
