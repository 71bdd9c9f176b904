/**
 The "open parent" context-menu action: for each selected result, find the
 folder or container to show (`getParent`), hand it to the launcher or record
 the result as missing, then launch.
 */
module OpenParent {
  import opened VirtualPaths
  import opened Documents
  import opened Launcher

  /**
   The host collaborators `getParent` consults: the filesystem, and
   `Util.hasExtension(name, "pst")` on a file name.
   */
  datatype Host = Host(fs: FileSystem, isPstName: Segment -> bool)

  /** `getParent` either yields the file to open or throws FileNotFoundException. */
  datatype Lookup = Found(file: Path) | NotFound

  /** The path does not exist in full; its longest existing prefix has `k` segments. */
  ghost predicate VirtualBoundary(fs: FileSystem, path: Path, k: nat) {
    LongestExistingPrefix(fs, path, k) && k < |path|
  }

  /**
   The parent target of a result path: the containing folder of an existing
   file, the folder holding the mailbox of a PST item, the archive itself for
   an archive entry; missing when the existing prefix is a directory.
   */
  function GetParent(h: Host, path: Path): (r: Lookup)
    ensures |path| > 0 && h.fs.Exists(path) ==> r == Found(ParentOf(path))
    ensures NoExistingPrefix(h.fs, path) ==> r == NotFound
    ensures |path| == 0 ==> r == NotFound
    ensures forall k: nat | VirtualBoundary(h.fs, path, k) ::
              h.fs.IsDir(path[..k]) ==> r == NotFound
    ensures forall k: nat | VirtualBoundary(h.fs, path, k) ::
              !h.fs.IsDir(path[..k]) && h.isPstName(path[k - 1]) ==> r == Found(path[..k - 1])
    ensures forall k: nat | VirtualBoundary(h.fs, path, k) ::
              !h.fs.IsDir(path[..k]) && !h.isPstName(path[k - 1]) ==> r == Found(path[..k])
  {
    match Split(h.fs, path)
    case None => NotFound
    case Some(parts) =>
      if parts.right == [] then
        Found(ParentOf(path))
      else
        var leftFile := parts.left;
        if h.fs.IsDir(leftFile) then
          NotFound
        else if h.isPstName(leftFile[|leftFile| - 1]) then
          assert ParentOf(leftFile) == path[..|leftFile| - 1];
          Found(ParentOf(leftFile))
        else
          Found(leftFile)
  }

  /** Whatever `getParent` finds lies strictly above the requested path. */
  lemma ParentTargetIsAncestor(h: Host, path: Path)
    ensures GetParent(h, path).Found? ==>
              var t := GetParent(h, path).file; |t| < |path| && t == path[..|t|]
  {
    match Split(h.fs, path)
    case None =>
    case Some(parts) =>
      var k := |parts.left|;
      if parts.right != [] {
        assert VirtualBoundary(h.fs, path, k);
      }
  }

  /**
   `getParent` reports a missing target exactly when no prefix of the path
   exists, or the path does not exist and its longest existing prefix is a
   directory.
   */
  lemma NotFoundIff(h: Host, path: Path)
    ensures GetParent(h, path) == NotFound <==>
              || NoExistingPrefix(h.fs, path)
              || (exists k: nat :: VirtualBoundary(h.fs, path, k) && h.fs.IsDir(path[..k]))
  {
    match Split(h.fs, path)
    case None =>
    case Some(parts) =>
      var k := |parts.left|;
      assert LongestExistingPrefix(h.fs, path, k);
      assert !NoExistingPrefix(h.fs, path) by {
        assert h.fs.Exists(path[..k]);
      }
      forall k' | VirtualBoundary(h.fs, path, k')
        ensures k' == k
      {
        LongestExistingPrefixUnique(h.fs, path, k, k');
      }
      if GetParent(h, path) == NotFound {
        assert VirtualBoundary(h.fs, path, k) && h.fs.IsDir(path[..k]);
      }
  }

  /** What the launcher is told about one selected result. */
  function ParentEvent(h: Host, doc: Document): Event {
    match GetParent(h, doc.path)
    case Found(f) => AddFile(f)
    case NotFound => AddMissing(doc.path)
  }

  /** The loop of `open_parent.run`: one launcher call per selected result. */
  function ParentEvents(h: Host, docs: seq<Document>): (es: seq<Event>)
    ensures |es| == |docs|
    ensures forall i :: 0 <= i < |docs| ==> es[i] == ParentEvent(h, docs[i])
  {
    if |docs| == 0 then []
    else [ParentEvent(h, docs[0])] + ParentEvents(h, docs[1..])
  }

  /**
   `open_parent.run`: a result whose parent cannot be found is recorded as
   missing and the loop goes on; `launch()` is always called once, at the end;
   nothing is disposed and no error is shown.
   */
  function OpenParents(h: Host, docs: seq<Document>, launchSucceeds: bool, hideOnOpen: bool): (es: seq<Event>)
    ensures |es| == |docs| + (if launchSucceeds && hideOnOpen then 2 else 1)
    ensures forall i :: 0 <= i < |docs| ==>
              es[i] == (if GetParent(h, docs[i].path).Found?
                        then AddFile(GetParent(h, docs[i].path).file)
                        else AddMissing(docs[i].path))
    ensures es[|docs|] == Launch
    ensures HideInTray in es <==> launchSucceeds && hideOnOpen
    ensures forall e :: e in es ==> !e.Dispose? && !e.ShowError?
  {
    ParentEvents(h, docs) + LaunchAndHide(launchSucceeds, hideOnOpen)
  }
}
