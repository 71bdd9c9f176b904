/**
 A path is a sequence of segments; the host filesystem is an abstract pair of
 "exists" and "is a directory" facts about paths. `Split` cuts a path at its
 longest existing prefix: the left part exists on disk, the right part is the
 virtual remainder that lives inside an archive or a mail container.
 */
module VirtualPaths {
  import opened Wrappers

  type Segment = string

  /** A canonical path, one segment per directory level. */
  type Path = seq<Segment>

  /** The host filesystem: which paths exist, and which of them are directories. */
  datatype FileSystem = FileSystem(files: set<Path>, dirs: set<Path>) {

    predicate Exists(p: Path) {
      p in files || p in dirs
    }

    /** Like `File.isDirectory`: false for a path that does not exist. */
    predicate IsDir(p: Path) {
      p in dirs
    }
  }

  /** An existing left part and a virtual right part of one path. */
  datatype PathParts = PathParts(left: Path, right: Path)

  /** No prefix of `path` longer than `k` segments exists. */
  ghost predicate NoneExistAbove(fs: FileSystem, path: Path, k: nat)
    requires k <= |path|
  {
    forall j :: k < j <= |path| ==> !fs.Exists(path[..j])
  }

  /** The first `k` segments of `path` are its longest existing prefix. */
  ghost predicate LongestExistingPrefix(fs: FileSystem, path: Path, k: nat) {
    && 1 <= k <= |path|
    && fs.Exists(path[..k])
    && NoneExistAbove(fs, path, k)
  }

  /** Not even the first segment of `path` exists. */
  ghost predicate NoExistingPrefix(fs: FileSystem, path: Path) {
    NoneExistAbove(fs, path, 0)
  }

  /** Scans the prefixes of `path` from `k` segments down towards the root. */
  function SplitFrom(fs: FileSystem, path: Path, k: nat): (r: Option<PathParts>)
    requires k <= |path|
    requires NoneExistAbove(fs, path, k)
    ensures r.Some? ==> r.value.left + r.value.right == path
    ensures r.Some? ==> LongestExistingPrefix(fs, path, |r.value.left|)
    ensures r.Some? ==> r.value.left == path[..|r.value.left|]
    ensures r.None? ==> NoExistingPrefix(fs, path)
    decreases k
  {
    if k == 0 then None
    else if fs.Exists(path[..k]) then Some(PathParts(path[..k], path[k..]))
    else SplitFrom(fs, path, k - 1)
  }

  /**
   Splits `path` at its longest existing prefix, as `Path.splitAtExistingFile`
   does; `None` when no non-empty prefix exists at all.
   */
  function Split(fs: FileSystem, path: Path): (r: Option<PathParts>)
    ensures r.Some? ==> r.value.left + r.value.right == path
    ensures r.Some? ==> LongestExistingPrefix(fs, path, |r.value.left|)
    ensures r.Some? ==> (r.value.right == [] <==> fs.Exists(path))
    ensures r.None? <==> NoExistingPrefix(fs, path)
    ensures r.None? ==> !(|path| > 0 && fs.Exists(path))
  {
    assert path[..|path|] == path;
    SplitFrom(fs, path, |path|)
  }

  /** The longest existing prefix of a path is unique. */
  lemma LongestExistingPrefixUnique(fs: FileSystem, path: Path, k: nat, k': nat)
    requires LongestExistingPrefix(fs, path, k)
    requires LongestExistingPrefix(fs, path, k')
    ensures k == k'
  {
  }

  /**
   `Util.getParentFile`: the path without its last segment. The empty path
   stands for the missing parent of a filesystem root.
   */
  function ParentOf(p: Path): (q: Path)
    ensures |p| > 0 ==> q + [p[|p| - 1]] == p
    ensures |p| == 0 ==> q == []
  {
    if |p| == 0 then [] else p[..|p| - 1]
  }
}
