/**
 The observable effects of one launch action, recorded as a trace: the calls
 made on the multi-file launcher, the error dialog, the hide-in-tray event and
 the disposal of file resources.
 */
module Launcher {
  import opened VirtualPaths

  /** A file resource; equal handles are equal resources, as in a hash set. */
  datatype Resource = Resource(handle: nat)

  datatype Event =
    | AddFile(file: Path)          // launcher.addFile
    | AddMissing(path: Path)       // launcher.addMissing with a canonical path
    | Launch                       // launcher.launch()
    | HideInTray                   // evtHideInSystemTray.fire
    | ShowError(message: string)   // the error dialog
    | Dispose(resource: Resource)  // fileResource.dispose()

  /**
   The end of a batch that was not aborted: `launch()` is called once, and the
   hide event fires when it reported success and hiding on open is configured.
   */
  function LaunchAndHide(launchSucceeds: bool, hideOnOpen: bool): (es: seq<Event>)
    ensures |es| >= 1 && es[0] == Launch
    ensures HideInTray in es <==> launchSucceeds && hideOnOpen
    ensures forall i :: 1 <= i < |es| ==> es[i] == HideInTray
    ensures |es| <= 2
  {
    [Launch] + (if launchSucceeds && hideOnOpen then [HideInTray] else [])
  }

  /** The files handed to `addFile`, in call order. */
  function AddedFiles(es: seq<Event>): seq<Path> {
    if |es| == 0 then []
    else (if es[0].AddFile? then [es[0].file] else []) + AddedFiles(es[1..])
  }

  /** The paths handed to `addMissing`, in call order. */
  function MissingPaths(es: seq<Event>): seq<Path> {
    if |es| == 0 then []
    else (if es[0].AddMissing? then [es[0].path] else []) + MissingPaths(es[1..])
  }

  /** Both filters distribute over the concatenation of two traces. */
  lemma {:induction false} FiltersAppend(es: seq<Event>, es': seq<Event>)
    ensures AddedFiles(es + es') == AddedFiles(es) + AddedFiles(es')
    ensures MissingPaths(es + es') == MissingPaths(es) + MissingPaths(es')
  {
    if |es| > 0 {
      assert (es + es')[1..] == es[1..] + es';
      FiltersAppend(es[1..], es');
    } else {
      assert es + es' == es';
    }
  }
}
