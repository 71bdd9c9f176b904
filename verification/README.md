# DocFetcher result panel: decision logic

This project models the decision logic of DocFetcher's result panel
(`ResultPanel`), the table that lists search results, with the SWT widget
shell removed. It covers four things:

- **Parent-target resolution** (`getParent` of the "open parent" action).
  A result's path is split into the part that exists on disk and a virtual
  remainder. The target is then the folder of an ordinary file, the folder
  holding the mailbox of a PST mail item, or the archive file of an archive
  entry. When the path does not exist in full and its existing part is a
  directory, the target is missing; a path that exists in full yields its
  parent folder.
- **Batch launching** (`launchFiles` and `open_parent.run`). The model
  produces the trace of launcher calls (`addFile`, `addMissing`, `launch`),
  the error dialog, the hide-in-tray event, and the disposal of the file
  resources obtained along the way.
- **Header modes.** These are FILES, EMAILS and FILES_AND_EMAILS. The model
  covers the auto-detection over a result list and the retitling of the
  variable-header columns.
- **Selection rules.** When "open" and "open parent" are enabled, what a
  double-click opens, and the order of the size column.

The filesystem is abstract: a set of existing files and a set of
directories. A path is a sequence of segments. Everything that involves I/O
or code outside `ResultPanel` is a parameter:

- the launcher's boolean result;
- the HideOnOpen setting;
- the per-document outcome of `getFileResource`;
- the "has the pst extension" test on a file name.

Resources are deduplicated only where they are disposed, because they are
collected in a hash set. `addFile` is called once for every resolved
document, so two documents extracted from the same container both reach the
launcher, while their shared resource is disposed only once.

Modules: `VirtualPaths` (paths, filesystem, splitting), `Documents`,
`Launcher` (the trace), `OpenParent`, `Launching`, `HeaderModes`,
`Selection`, `Actions` (double-click), `Wrappers` (Option).

## Model

| member | source | states |
|---|---|---|
| VirtualPaths.Split | src/net/sourceforge/docfetcher/gui/ResultPanel.java:277 | the left part is the longest existing non-empty prefix of the path and left + right is the path; the right part is empty iff the whole path exists; there is no split iff no prefix exists |
| VirtualPaths.LongestExistingPrefixUnique | src/net/sourceforge/docfetcher/gui/ResultPanel.java:277 | the split point is uniquely determined by the filesystem |
| OpenParent.GetParent | src/net/sourceforge/docfetcher/gui/ResultPanel.java:267-293 | an existing path yields its parent folder; a path with no existing prefix is not found; when the path does not exist in full, an existing directory prefix means not found (checked before the extension), a PST file prefix yields that file's folder, and any other file prefix yields the file itself (the archive) |
| OpenParent.ParentTargetIsAncestor | src/net/sourceforge/docfetcher/gui/ResultPanel.java:279-292 | whatever `getParent` finds is a strict prefix of the requested path |
| OpenParent.NotFoundIff | src/net/sourceforge/docfetcher/gui/ResultPanel.java:282-285 | `getParent` throws FileNotFoundException exactly when no prefix exists, or the path is missing and its longest existing prefix is a directory |
| OpenParent.ParentEvents | src/net/sourceforge/docfetcher/gui/ResultPanel.java:253-261 | one launcher call per selected result, in order: `addFile` of the found parent, or `addMissing` of that result's own canonical path; a missing parent never stops the loop |
| OpenParent.OpenParents | src/net/sourceforge/docfetcher/gui/ResultPanel.java:251-264 | after the per-result calls, `launch()` is called exactly once; the hide event fires iff launch succeeded and HideOnOpen is set; nothing is disposed and no error is shown |
| Launcher.LaunchAndHide | src/net/sourceforge/docfetcher/gui/ResultPanel.java:362-363 | `launch()` comes first and once; the hide event follows, at most once, iff launch succeeded and HideOnOpen is set |
| Launching.FirstFailure | src/net/sourceforge/docfetcher/gui/ResultPanel.java:357-360 | the index of the first document that throws ParseException, or the batch size: no earlier document fails to parse |
| Launching.Scan | src/net/sourceforge/docfetcher/gui/ResultPanel.java:348-361 | the loop's trace, resource set and abort flag; a loop that does not return early leaves one trace entry per document and never more; its full characterisation is `ScanSpec` |
| Launching.ScanSpec | src/net/sourceforge/docfetcher/gui/ResultPanel.java:348-361 | the loop handles exactly the documents up to and including the first parse failure, one trace entry each (`addFile`, `addMissing` or the error); the resource set holds exactly the resources of the resolved documents before that point |
| Launching.LaunchFiles | src/net/sourceforge/docfetcher/gui/ResultPanel.java:343-369 | a parse error shows its message once and returns: `launch()` is not called and no hide event fires; otherwise `launch()` is called once after all documents and the hide event fires iff launch succeeded and HideOnOpen is set; the disposed set is exactly the resources obtained before the loop stopped |
| Launching.RunLoop | src/net/sourceforge/docfetcher/gui/ResultPanel.java:348-361 | the statement-level loop, with its early return, computes the same trace, resource set and abort flag as the loop model |
| Launching.DisposeAll | src/net/sourceforge/docfetcher/gui/ResultPanel.java:365-368 | the finally loop disposes every element of the resource set exactly once and does nothing else |
| Launching.RunLaunchFiles | src/net/sourceforge/docfetcher/gui/ResultPanel.java:343-369 | the full trace is the trace of the loop and launch followed only by disposals; every resource obtained before the loop stopped is disposed exactly once, equal resources once, also on the parse-error return; no other resource is disposed |
| Launching.ScanAppend | src/net/sourceforge/docfetcher/gui/ResultPanel.java:348-361 | the loop over a batch without parse errors followed by another batch gives the concatenated trace and the union of the resource sets |
| Launching.ScanMissingInserted | src/net/sourceforge/docfetcher/gui/ResultPanel.java:354-356 | inserting a missing document adds only its `addMissing` entry to the loop's trace; the resource set and the abort flag are unchanged |
| Launching.MissingIsLocal | src/net/sourceforge/docfetcher/gui/ResultPanel.java:349-356 | a missing document is non-fatal: the batch's trace is the trace without it plus its `addMissing` entry at its position, and the same resources are disposed |
| Launching.ScanIgnoresAfterParseError | src/net/sourceforge/docfetcher/gui/ResultPanel.java:357-360 | the loop never looks past a document that fails to parse: replacing everything after it leaves the loop's trace, resource set and abort flag unchanged |
| Launching.LaterDocumentsIgnored | src/net/sourceforge/docfetcher/gui/ResultPanel.java:357-360 | after a parse failure, no later document has any effect on the trace of `launchFiles` or on what it disposes |
| Launching.CompletedBatchAccounting | src/net/sourceforge/docfetcher/gui/ResultPanel.java:349-356 | without parse errors, `addFile` receives the files of all resolved documents in order, with no dedup, and `addMissing` receives the canonical paths of all missing documents in order; together they account for every document exactly once |
| HeaderModes.GetInstance | src/net/sourceforge/docfetcher/gui/ResultPanel.java:76-83 | FILES_AND_EMAILS iff files and emails were found; FILES iff only files; EMAILS iff no file was found, including when nothing was found |
| HeaderModes.GetInstanceRecoversMode | src/net/sourceforge/docfetcher/gui/ResultPanel.java:76-83 | every mode is the one chosen for the kinds of result it shows |
| HeaderModes.NewVariableColumn | src/net/sourceforge/docfetcher/gui/ResultPanel.java:376-383 | a new variable-header column keeps both titles and first shows the file title |
| HeaderModes.HeaderFor | src/net/sourceforge/docfetcher/gui/ResultPanel.java:62-70 | FILES shows the file title, EMAILS the email title, and FILES_AND_EMAILS the file title, then " / ", then the email title |
| HeaderModes.UpdateColumnHeaders | src/net/sourceforge/docfetcher/gui/ResultPanel.java:335-340 | every variable-header column is retitled for the mode, and keeps its own file and email titles; fixed columns and the column order are untouched |
| HeaderModes.InitialColumns | src/net/sourceforge/docfetcher/gui/ResultPanel.java:132-214 | the constructor adds eight columns; exactly the first (title), fourth (filename), seventh (authors) and eighth (last modified) have a variable header, and each of those shows its file title |
| HeaderModes.InitialPanelConsistent | src/net/sourceforge/docfetcher/gui/ResultPanel.java:94-95 | a new panel (both modes FILES, file titles shown) is consistent: its headers show its actual mode |
| HeaderModes.SetActualHeaderMode | src/net/sourceforge/docfetcher/gui/ResultPanel.java:318-333 | a preset other than FILES_AND_EMAILS becomes the actual mode and leaves the columns alone; FILES_AND_EMAILS detects the mode from whether a non-email and an email occur, and the columns become exactly the retitled columns for that mode |
| HeaderModes.SetResults | src/net/sourceforge/docfetcher/gui/ResultPanel.java:303-316 | the preset becomes the requested mode; the actual mode is that mode unless it is FILES_AND_EMAILS, in which case it is detected from the results; fixed columns never change and variable-header columns keep their own file and email titles; a consistent panel stays consistent |
| HeaderModes.DetectMode | src/net/sourceforge/docfetcher/gui/ResultPanel.java:323-331 | the flag-setting loop yields the mode for "some result is not an email" and "some result is an email" |
| Selection.OpenEnabled | src/net/sourceforge/docfetcher/gui/ResultPanel.java:230-238 | "open" is enabled iff the selection is non-empty and holds no email |
| Selection.OpenParentEnabled | src/net/sourceforge/docfetcher/gui/ResultPanel.java:248-250 | "open parent" is enabled iff the selection is non-empty |
| Selection.OpenEnabledImpliesOpenParent | src/net/sourceforge/docfetcher/gui/ResultPanel.java:229-250 | a selection that enables "open" also enables "open parent" |
| Selection.DoubleClickTargets | src/net/sourceforge/docfetcher/gui/ResultPanel.java:111-118 | a double-click picks at most one document: the first selected one, and only if the selection is non-empty and it is not an email |
| Actions.DoubleClick | src/net/sourceforge/docfetcher/gui/ResultPanel.java:111-118 | a double-click does nothing for an empty selection or an email; otherwise it launches the first result alone, with each resolution outcome giving its trace and disposal |
| Selection.CompareSize | src/net/sourceforge/docfetcher/gui/ResultPanel.java:159-161 | the size column puts larger sizes first: negative iff the first size is larger, zero iff equal, positive iff smaller, always in -1..1 |
| Selection.CompareSizeIsComparator | src/net/sourceforge/docfetcher/gui/ResultPanel.java:159-161 | the size order is antisymmetric, transitive, and treats equal sizes alike |

## Left out

- The SWT table, mouse and selection listeners, the context-menu framework, the icon cache and the `Img` images. These are UI plumbing. Only the decisions they call are modelled.
- `Event.fire` and `AppUtil.showError` are recorded as trace entries (`HideInTray`, `ShowError`). Listeners and dialog behaviour are not modelled.
- Settings persistence (column widths and order). The HideOnOpen setting is a boolean parameter.
- `MultiFileLauncher` internals. `addFile`, `addMissing` and `launch` are trace entries, and the boolean that `launch()` returns is a parameter.
- `Path.splitAtExistingFile` is not part of this model. It is modelled as "longest existing non-empty prefix". When no prefix exists, the model returns no split and `getParent` reports the path as not found.
- `Util.getParentFile` is not part of this model. It is modelled as dropping the last segment; the empty sequence stands for the null parent of a root. `getCanonicalFile` and `getCanonicalPath` are the identity, because model paths are already canonical.
- `Util.hasExtension(name, "pst")` is not part of this model. It is the `isPstName` parameter of `OpenParent.Host`.
- `FileResource`, `getFileResource`, `getFile` and `dispose` are not part of this model. A document's resolution is given as an input outcome. A resource is a value whose equality plays the role of `equals` in the `HashSet`.
- OpenParent.GetParent: the empty segment sequence (a root, which no result path is) is never split, so the model reports it as not found even when it exists, while the source would return `Util.getParentFile` of it.
- Launching.LaunchFiles: the comment saying it should not be called with emails is not a precondition. Its callers' rules (`Selection.OpenEnabled`, `Selection.DoubleClickTargets`) are stated instead. The Java `assert` that the list is non-empty is a precondition.
- Launching.RunLaunchFiles: only the two exits of the loop are modelled, normal completion and the return after a ParseException. An unchecked exception thrown by `getFileResource`, `getFile`, `addFile`, `launch()` or the error dialog also runs the `finally` block, and a `dispose()` that throws stops that block early; neither is modelled, because the collaborators that could throw are not part of this model and `dispose()` is taken to return normally.
- The text columns' natural-order comparison. It delegates to `AlphanumComparator`, which is not part of this model.
- The score column compares floats with `Float.compare`. Floating point is not modelled.
- Date formatting and the date column order (`SimpleDateFormat`, `Date.compareTo`).
- Per-row cell labels and icons of the columns (title, sender, type, path, authors). These are display-only.
- `viewer.setRoot` and `scrollToTop` in `setResults`. These are display-only; only the header state is modelled.
