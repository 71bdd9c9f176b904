/**
 `launchFiles`: obtain a file resource for each document, hand its file to the
 launcher, record missing documents, abort the batch on a parse error, and
 dispose every resource obtained, both on normal completion and on the early
 return after a parse error.
 */
module Launching {
  import opened VirtualPaths
  import opened Documents
  import opened Launcher

  /** What `doc.getFileResource()` does for one document. */
  datatype Resolution =
    | Resolved(resource: Resource, file: Path)  // returns a resource and its file
    | Missing                                   // throws FileNotFoundException
    | ParseFailed(message: string)              // throws ParseException

  /** One document of the batch together with how resolving it turns out. */
  datatype Attempt = Attempt(doc: Document, outcome: Resolution)

  /** The position of the first document that fails to parse, or the batch size. */
  function FirstFailure(items: seq<Attempt>): (k: nat)
    ensures k <= |items|
    ensures forall i :: 0 <= i < k ==> !items[i].outcome.ParseFailed?
    ensures k < |items| ==> items[k].outcome.ParseFailed?
  {
    if |items| == 0 || items[0].outcome.ParseFailed? then 0
    else 1 + FirstFailure(items[1..])
  }

  /** The batch contains a document that fails to parse. */
  predicate Aborts(items: seq<Attempt>) {
    FirstFailure(items) < |items|
  }

  /** The resources obtained from the first `k` documents. */
  function Acquired(items: seq<Attempt>, k: nat): set<Resource>
    requires k <= |items|
  {
    set i | 0 <= i < k && items[i].outcome.Resolved? :: items[i].outcome.resource
  }

  /** The single trace entry that handling one document produces inside the loop. */
  function ItemEvent(a: Attempt): Event {
    match a.outcome
    case Resolved(_, f) => AddFile(f)
    case Missing => AddMissing(a.doc.path)
    case ParseFailed(m) => ShowError(m)
  }

  /** The loop's trace, the resource set it filled, and whether it returned early. */
  datatype Scanned = Scanned(events: seq<Event>, resources: set<Resource>, aborted: bool)

  /** The `for` loop of `launchFiles`, one document at a time from the front. */
  function Scan(items: seq<Attempt>): (r: Scanned)
    ensures |r.events| <= |items|
    ensures !r.aborted ==> |r.events| == |items|
  {
    if |items| == 0 then Scanned([], {}, false)
    else
      var a := items[0];
      match a.outcome
      case ParseFailed(m) => Scanned([ShowError(m)], {}, true)
      case Resolved(r, f) =>
        var rest := Scan(items[1..]);
        Scanned([AddFile(f)] + rest.events, {r} + rest.resources, rest.aborted)
      case Missing =>
        var rest := Scan(items[1..]);
        Scanned([AddMissing(a.doc.path)] + rest.events, rest.resources, rest.aborted)
  }

  /**
   The loop handles the documents in order, up to and including the first
   one that fails to parse, one trace entry each, and collects the resources
   of the documents it resolved before stopping.
   */
  lemma {:induction false} ScanSpec(items: seq<Attempt>)
    ensures Scan(items).aborted <==> Aborts(items)
    ensures |Scan(items).events| == (if Aborts(items) then FirstFailure(items) + 1 else |items|)
    ensures forall i :: 0 <= i < |Scan(items).events| ==> Scan(items).events[i] == ItemEvent(items[i])
    ensures Scan(items).resources == Acquired(items, FirstFailure(items))
  {
    if |items| > 0 && !items[0].outcome.ParseFailed? {
      ScanSpec(items[1..]);
      AcquiredCons(items, FirstFailure(items));
      var s := Scan(items);
      forall i | 1 <= i < |s.events|
        ensures s.events[i] == ItemEvent(items[i])
      {
        assert s.events[i] == Scan(items[1..]).events[i - 1];
        assert items[1..][i - 1] == items[i];
      }
    }
  }

  /** The resources of a batch are those of its first document plus those of the rest. */
  lemma AcquiredCons(items: seq<Attempt>, k: nat)
    requires 1 <= k <= |items|
    ensures Acquired(items, k) ==
              (if items[0].outcome.Resolved? then {items[0].outcome.resource} else {})
              + Acquired(items[1..], k - 1)
  {
    var head := if items[0].outcome.Resolved? then {items[0].outcome.resource} else {};
    forall r | r in Acquired(items, k)
      ensures r in head + Acquired(items[1..], k - 1)
    {
      var i :| 0 <= i < k && items[i].outcome.Resolved? && items[i].outcome.resource == r;
      if i > 0 {
        assert items[1..][i - 1] == items[i];
      }
    }
    forall r | r in Acquired(items[1..], k - 1)
      ensures r in Acquired(items, k)
    {
      var i :| 0 <= i < k - 1 && items[1..][i].outcome.Resolved? && items[1..][i].outcome.resource == r;
      assert items[i + 1] == items[1..][i];
    }
  }

  /** What `launchFiles` did, up to its `finally` block, and what that block disposes. */
  datatype Outcome = Outcome(events: seq<Event>, disposed: set<Resource>)

  /**
   `launchFiles`, before disposal. A missing document adds exactly its own
   canonical path and the loop goes on; a parse error shows its message once
   and returns, so no later document is handled and `launch()` is not
   called; otherwise `launch()` is called once after all documents, and the
   hide event fires when it succeeded and hiding on open is configured. The
   `finally` block disposes exactly the resources obtained before the loop
   stopped.
   */
  function LaunchFiles(items: seq<Attempt>, launchSucceeds: bool, hideOnOpen: bool): (o: Outcome)
    requires |items| > 0
    ensures FirstFailure(items) < |o.events|
    ensures forall i :: 0 <= i < FirstFailure(items) ==> o.events[i] == ItemEvent(items[i])
    ensures Aborts(items) ==>
              |o.events| == FirstFailure(items) + 1 &&
              o.events[FirstFailure(items)] == ShowError(items[FirstFailure(items)].outcome.message)
    ensures !Aborts(items) ==>
              o.events[|items|..] == LaunchAndHide(launchSucceeds, hideOnOpen)
    ensures Launch in o.events <==> !Aborts(items)
    ensures HideInTray in o.events <==> !Aborts(items) && launchSucceeds && hideOnOpen
    ensures o.disposed == Acquired(items, FirstFailure(items))
    ensures forall e :: e in o.events ==> !e.Dispose?
  {
    ScanSpec(items);
    var s := Scan(items);
    if s.aborted then
      Outcome(s.events, s.resources)
    else
      var tail := LaunchAndHide(launchSucceeds, hideOnOpen);
      assert (s.events + tail)[|items|..] == tail;
      Outcome(s.events + tail, s.resources)
  }

  /** Handling one more document adds at most its own resource. */
  lemma AcquiredSnoc(items: seq<Attempt>, k: nat)
    requires k < |items|
    ensures Acquired(items, k + 1) ==
              Acquired(items, k) + (if items[k].outcome.Resolved? then {items[k].outcome.resource} else {})
  {
  }

  /** The `for` loop of `launchFiles`, run statement by statement. */
  method RunLoop(items: seq<Attempt>) returns (events: seq<Event>, resources: set<Resource>, aborted: bool)
    ensures Scanned(events, resources, aborted) == Scan(items)
  {
    events, resources, aborted := [], {}, false;
    var i := 0;
    while i < |items| && !aborted
      invariant 0 <= i <= |items|
      invariant !aborted ==> i <= FirstFailure(items)
      invariant aborted ==> i == FirstFailure(items) + 1
      invariant |events| == i
      invariant forall j :: 0 <= j < i ==> events[j] == ItemEvent(items[j])
      invariant resources == Acquired(items, if aborted then i - 1 else i)
      decreases |items| - i
    {
      var a := items[i];
      match a.outcome {
        case Resolved(r, f) =>
          AcquiredSnoc(items, i);
          resources := resources + {r};
          events := events + [AddFile(f)];
        case Missing =>
          AcquiredSnoc(items, i);
          events := events + [AddMissing(a.doc.path)];
        case ParseFailed(m) =>
          events := events + [ShowError(m)];
          aborted := true;
      }
      i := i + 1;
    }
    ScanSpec(items);
    assert events == Scan(items).events;
  }

  /** The `finally` block: one `dispose()` per element of the resource set. */
  method DisposeAll(resources: set<Resource>) returns (disposals: seq<Event>)
    ensures forall j :: 0 <= j < |disposals| ==> disposals[j].Dispose?
    ensures forall r :: multiset(disposals)[Dispose(r)] == (if r in resources then 1 else 0)
  {
    disposals := [];
    var remaining := resources;
    while remaining != {}
      invariant remaining <= resources
      invariant forall j :: 0 <= j < |disposals| ==> disposals[j].Dispose?
      invariant forall r :: multiset(disposals)[Dispose(r)] ==
                  (if r in resources - remaining then 1 else 0)
      decreases remaining
    {
      var r :| r in remaining;
      disposals := disposals + [Dispose(r)];
      remaining := remaining - {r};
    }
  }

  /**
   `launchFiles` with its `finally` block: the trace of the loop and launch is
   followed by one `dispose()` for each resource in the set, in whatever order
   the hash set yields them, so every resource obtained is disposed exactly
   once and only after the launch, also when a parse error returned early.
   */
  method RunLaunchFiles(items: seq<Attempt>, launchSucceeds: bool, hideOnOpen: bool)
    returns (trace: seq<Event>)
    requires |items| > 0
    ensures var o := LaunchFiles(items, launchSucceeds, hideOnOpen);
            |o.events| <= |trace| && trace[..|o.events|] == o.events
    ensures var o := LaunchFiles(items, launchSucceeds, hideOnOpen);
            forall j :: |o.events| <= j < |trace| ==> trace[j].Dispose?
    ensures forall r :: multiset(trace)[Dispose(r)] ==
              (if r in Acquired(items, FirstFailure(items)) then 1 else 0)
  {
    var events, resources, aborted := RunLoop(items);
    if !aborted {
      events := events + LaunchAndHide(launchSucceeds, hideOnOpen);
    }
    ghost var o := LaunchFiles(items, launchSucceeds, hideOnOpen);
    assert events == o.events;
    var disposals := DisposeAll(resources);
    trace := events + disposals;
    assert trace[..|events|] == events;
    forall r
      ensures multiset(trace)[Dispose(r)] == (if r in o.disposed then 1 else 0)
    {
      assert Dispose(r) !in events;
      assert multiset(trace) == multiset(events) + multiset(disposals);
    }
  }

  /** The files of the resolved documents, in batch order. */
  function ResolvedFiles(items: seq<Attempt>): seq<Path> {
    if |items| == 0 then []
    else (if items[0].outcome.Resolved? then [items[0].outcome.file] else []) + ResolvedFiles(items[1..])
  }

  /** The canonical paths of the missing documents, in batch order. */
  function MissingDocPaths(items: seq<Attempt>): seq<Path> {
    if |items| == 0 then []
    else (if items[0].outcome.Missing? then [items[0].doc.path] else []) + MissingDocPaths(items[1..])
  }

  /** Every document that neither parses badly nor resolves is missing. */
  lemma {:induction false} PartitionCount(items: seq<Attempt>)
    requires !Aborts(items)
    ensures |ResolvedFiles(items)| + |MissingDocPaths(items)| == |items|
  {
    if |items| > 0 {
      PartitionCount(items[1..]);
    }
  }

  /** The loop's `addFile` and `addMissing` entries are the resolved files and missing paths, in order. */
  lemma {:induction false} ScanFilters(items: seq<Attempt>)
    requires !Aborts(items)
    ensures AddedFiles(Scan(items).events) == ResolvedFiles(items)
    ensures MissingPaths(Scan(items).events) == MissingDocPaths(items)
  {
    if |items| > 0 {
      var rest := Scan(items[1..]);
      ScanFilters(items[1..]);
      FiltersAppend([ItemEvent(items[0])], rest.events);
      assert Scan(items).events == [ItemEvent(items[0])] + rest.events;
      assert [ItemEvent(items[0])][1..] == [];
    }
  }

  /**
   A batch without parse errors hands every resolved document's file to
   `addFile` (no deduplication) and every missing document's canonical path
   to `addMissing`, in batch order, so the two lists together account for
   each document exactly once.
   */
  lemma {:induction false} CompletedBatchAccounting(items: seq<Attempt>, launchSucceeds: bool, hideOnOpen: bool)
    requires |items| > 0 && !Aborts(items)
    ensures AddedFiles(LaunchFiles(items, launchSucceeds, hideOnOpen).events) == ResolvedFiles(items)
    ensures MissingPaths(LaunchFiles(items, launchSucceeds, hideOnOpen).events) == MissingDocPaths(items)
    ensures |ResolvedFiles(items)| + |MissingDocPaths(items)| == |items|
  {
    var s := Scan(items);
    var tail := LaunchAndHide(launchSucceeds, hideOnOpen);
    ScanFilters(items);
    PartitionCount(items);
    FiltersAppend(s.events, tail);
    FiltersAppend([Launch], tail[1..]);
    assert tail == [Launch] + tail[1..];
    if |tail| == 2 {
      FiltersAppend([HideInTray], []);
      assert tail[1..] == [HideInTray] + [];
    }
  }

  /**
   The loop returns at a document that fails to parse: whatever follows it
   in the batch is never looked at.
   */
  lemma {:induction false} ScanIgnoresAfterParseError(items: seq<Attempt>, k: nat, rest: seq<Attempt>)
    requires k < |items| && items[k].outcome.ParseFailed?
    ensures Scan(items[..k + 1] + rest) == Scan(items)
  {
    var cut := items[..k + 1] + rest;
    assert cut[0] == items[0];
    if k > 0 && !items[0].outcome.ParseFailed? {
      ScanIgnoresAfterParseError(items[1..], k - 1, rest);
      assert cut == [items[0]] + (items[1..][..k] + rest);
      assert items == [items[0]] + items[1..];
      ScanCons(items[0], items[1..][..k] + rest);
      ScanCons(items[0], items[1..]);
    }
  }

  /**
   A parse error ends the batch: replacing whatever follows the failing
   document changes neither the trace nor what is disposed.
   */
  lemma {:induction false} LaterDocumentsIgnored(items: seq<Attempt>, k: nat, rest: seq<Attempt>, launchSucceeds: bool, hideOnOpen: bool)
    requires k < |items| && items[k].outcome.ParseFailed?
    ensures LaunchFiles(items[..k + 1] + rest, launchSucceeds, hideOnOpen) == LaunchFiles(items, launchSucceeds, hideOnOpen)
  {
    ScanIgnoresAfterParseError(items, k, rest);
    LaunchFilesUnfold(items, launchSucceeds, hideOnOpen);
    LaunchFilesUnfold(items[..k + 1] + rest, launchSucceeds, hideOnOpen);
  }

  /** The resource one document contributes, if it resolved. */
  function ResourceOf(a: Attempt): set<Resource> {
    if a.outcome.Resolved? then {a.outcome.resource} else {}
  }

  /** The loop on a batch whose first document does not fail to parse. */
  lemma ScanCons(x: Attempt, rest: seq<Attempt>)
    requires !x.outcome.ParseFailed?
    ensures Scan([x] + rest) ==
              Scanned([ItemEvent(x)] + Scan(rest).events, ResourceOf(x) + Scan(rest).resources, Scan(rest).aborted)
  {
    assert ([x] + rest)[0] == x;
    assert ([x] + rest)[1..] == rest;
  }

  /** Handling a batch that does not abort, then another, is handling their concatenation. */
  lemma {:induction false} ScanAppend(a: seq<Attempt>, b: seq<Attempt>)
    requires !Aborts(a)
    ensures Scan(a + b) ==
              Scanned(Scan(a).events + Scan(b).events, Scan(a).resources + Scan(b).resources, Scan(b).aborted)
  {
    if |a| == 0 {
      assert a + b == b;
    } else {
      var x := a[0];
      assert FirstFailure(a) == 1 + FirstFailure(a[1..]);
      ScanAppend(a[1..], b);
      assert a == [x] + a[1..];
      assert a + b == [x] + (a[1..] + b);
      ScanCons(x, a[1..]);
      ScanCons(x, a[1..] + b);
      assert [ItemEvent(x)] + (Scan(a[1..]).events + Scan(b).events)
          == ([ItemEvent(x)] + Scan(a[1..]).events) + Scan(b).events;
    }
  }

  /** Inserting a missing document into a batch, as seen by the loop. */
  lemma {:induction false} ScanMissingInserted(a: seq<Attempt>, m: Attempt, b: seq<Attempt>)
    requires !Aborts(a) && m.outcome.Missing?
    ensures |a| <= |Scan(a + b).events|
    ensures var s := Scan(a + [m] + b);
            var s' := Scan(a + b);
            && s.events == s'.events[..|a|] + [AddMissing(m.doc.path)] + s'.events[|a|..]
            && s.resources == s'.resources
            && s.aborted == s'.aborted
  {
    var mb := [m] + b;
    assert a + [m] + b == a + mb;
    assert mb[1..] == b;
    ScanAppend(a, mb);
    ScanAppend(a, b);
    ScanSpec(a);
    var sa := Scan(a);
    var s' := Scan(a + b);
    assert s'.events[..|a|] == sa.events;
    assert s'.events[|a|..] == Scan(b).events;
  }

  /**
   A missing document is a local event: inserting it into a batch only adds
   its own `addMissing` entry at its position; everything else, including
   what is launched and what is disposed, stays as without it.
   */
  lemma {:induction false} MissingIsLocal(a: seq<Attempt>, d: Document, b: seq<Attempt>, launchSucceeds: bool, hideOnOpen: bool)
    requires !Aborts(a)
    requires |a + b| > 0
    ensures |a| <= |LaunchFiles(a + b, launchSucceeds, hideOnOpen).events|
    ensures LaunchFiles(a + [Attempt(d, Missing)] + b, launchSucceeds, hideOnOpen).events ==
              LaunchFiles(a + b, launchSucceeds, hideOnOpen).events[..|a|] + [AddMissing(d.path)] +
              LaunchFiles(a + b, launchSucceeds, hideOnOpen).events[|a|..]
    ensures LaunchFiles(a + [Attempt(d, Missing)] + b, launchSucceeds, hideOnOpen).disposed ==
              LaunchFiles(a + b, launchSucceeds, hideOnOpen).disposed
  {
    var items := a + [Attempt(d, Missing)] + b;
    ScanMissingInserted(a, Attempt(d, Missing), b);
    var s := Scan(items);
    var s' := Scan(a + b);
    var tail := if s'.aborted then [] else LaunchAndHide(launchSucceeds, hideOnOpen);
    LaunchFilesUnfold(items, launchSucceeds, hideOnOpen);
    LaunchFilesUnfold(a + b, launchSucceeds, hideOnOpen);
    InsertBeforeTail(s'.events, |a|, AddMissing(d.path), tail);
  }

  /** Inserting an entry before position `n` commutes with appending a tail. */
  lemma InsertBeforeTail(xs: seq<Event>, n: nat, e: Event, tail: seq<Event>)
    requires n <= |xs|
    ensures (xs[..n] + [e] + xs[n..]) + tail == (xs + tail)[..n] + [e] + (xs + tail)[n..]
  {
    assert (xs + tail)[..n] == xs[..n];
    assert (xs + tail)[n..] == xs[n..] + tail;
  }

  /** `LaunchFiles` is the loop's trace followed by the launch, unless the loop aborted. */
  lemma LaunchFilesUnfold(items: seq<Attempt>, launchSucceeds: bool, hideOnOpen: bool)
    requires |items| > 0
    ensures LaunchFiles(items, launchSucceeds, hideOnOpen) ==
              Outcome(Scan(items).events + (if Scan(items).aborted then [] else LaunchAndHide(launchSucceeds, hideOnOpen)),
                      Scan(items).resources)
  {
  }

}
