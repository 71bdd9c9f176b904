/** The double-click handler, built from the selection rule and `launchFiles`. */
module Actions {
  import opened Wrappers
  import opened Documents
  import opened Launcher
  import opened Launching
  import opened Selection

  /**
   A double-click on the table: with an empty selection, or when the first
   selected result is an email, nothing happens; otherwise that one result is
   launched through `launchFiles`, however many others are selected.
   */
  function DoubleClick(sel: seq<Document>, outcome: Resolution, launchSucceeds: bool, hideOnOpen: bool)
    : (r: Option<Outcome>)
    ensures r.Some? <==> |sel| > 0 && !sel[0].isEmail
    ensures r.Some? && outcome.Resolved? ==>
              r.value.disposed == {outcome.resource} &&
              r.value.events == [AddFile(outcome.file)] + LaunchAndHide(launchSucceeds, hideOnOpen)
    ensures r.Some? && outcome.Missing? ==>
              r.value.disposed == {} &&
              r.value.events == [AddMissing(sel[0].path)] + LaunchAndHide(launchSucceeds, hideOnOpen)
    ensures r.Some? && outcome.ParseFailed? ==>
              r.value.disposed == {} && r.value.events == [ShowError(outcome.message)]
  {
    var docs := DoubleClickTargets(sel);
    if |docs| == 0 then None
    else
      var items := [Attempt(docs[0], outcome)];
      ScanSpec(items);
      assert items[1..] == [];
      Some(LaunchFiles(items, launchSucceeds, hideOnOpen))
  }
}
