/**
 The result table's header mode: which column titles to show for a result
 list of files, of emails, or of both. The panel keeps the mode suggested by
 its caller (the preset) and the mode it settled on (the actual mode); only
 the columns with a variable header change their title with the mode.
 */
module HeaderModes {
  import opened Documents

  datatype HeaderMode = Files | Emails | FilesAndEmails

  /** `HeaderMode.getInstance`: the mode for what was found among the results. */
  function GetInstance(filesFound: bool, emailsFound: bool): (m: HeaderMode)
    ensures m == FilesAndEmails <==> filesFound && emailsFound
    ensures m == Files <==> filesFound && !emailsFound
    ensures m == Emails <==> !filesFound
  {
    if filesFound then
      (if emailsFound then FilesAndEmails else Files)
    else
      Emails
  }

  /** Whether a mode shows file titles, and whether it shows email titles. */
  predicate ShowsFiles(m: HeaderMode) { m != Emails }

  predicate ShowsEmails(m: HeaderMode) { m != Files }

  /** Every mode is the one `getInstance` picks for what it shows. */
  lemma GetInstanceRecoversMode(m: HeaderMode)
    ensures GetInstance(ShowsFiles(m), ShowsEmails(m)) == m
  {
  }

  /**
   A table column: either a fixed title, or a variable header with a file
   title, an email title and the title currently shown.
   */
  datatype Column =
    | Fixed(title: string)
    | Variable(fileHeader: string, emailHeader: string, title: string)

  /** A new variable-header column shows its file title. */
  function NewVariableColumn(fileHeader: string, emailHeader: string): (c: Column)
    ensures c.Variable? && c.fileHeader == fileHeader && c.emailHeader == emailHeader
    ensures c.title == fileHeader
  {
    Variable(fileHeader, emailHeader, fileHeader)
  }

  /** The title `setLabel` gives a variable-header column in a mode. */
  function HeaderFor(m: HeaderMode, fileHeader: string, emailHeader: string): (title: string)
    ensures m == Files ==> title == fileHeader
    ensures m == Emails ==> title == emailHeader
    ensures m == FilesAndEmails ==> |title| == |fileHeader| + 3 + |emailHeader|
    ensures m == FilesAndEmails ==>
              title[..|fileHeader|] == fileHeader &&
              title[|fileHeader|..|fileHeader| + 3] == " / " &&
              title[|fileHeader| + 3..] == emailHeader
  {
    match m
    case Files => fileHeader
    case Emails => emailHeader
    case FilesAndEmails => fileHeader + " / " + emailHeader
  }

  /** The columns of the result table, in their initial order and titles. */
  function InitialColumns(): (cols: seq<Column>)
    ensures |cols| == 8
    ensures forall i :: 0 <= i < |cols| ==> (cols[i].Variable? <==> i == 0 || i == 3 || i == 6 || i == 7)
    ensures HeadersShow(cols, Files)
  {
    [ NewVariableColumn("Title", "Subject"),
      Fixed("Score [%]"),
      Fixed("Size"),
      NewVariableColumn("Filename", "Sender"),
      Fixed("Type"),
      Fixed("Path"),
      NewVariableColumn("Authors", "Sender"),
      NewVariableColumn("Last Modified", "Send Date") ]
  }

  /** Every variable-header column shows the title of mode `m`. */
  ghost predicate HeadersShow(cols: seq<Column>, m: HeaderMode) {
    forall i :: 0 <= i < |cols| && cols[i].Variable? ==>
      cols[i].title == HeaderFor(m, cols[i].fileHeader, cols[i].emailHeader)
  }

  /**
   `updateColumnHeaders`: retitles the variable-header columns for mode `m`
   and leaves every other column, and the column order, as it was.
   */
  function UpdateColumnHeaders(cols: seq<Column>, m: HeaderMode): (r: seq<Column>)
    ensures |r| == |cols|
    ensures forall i :: 0 <= i < |cols| && cols[i].Fixed? ==> r[i] == cols[i]
    ensures forall i :: 0 <= i < |cols| && cols[i].Variable? ==>
              r[i].Variable? && r[i].fileHeader == cols[i].fileHeader && r[i].emailHeader == cols[i].emailHeader
    ensures HeadersShow(r, m)
  {
    if |cols| == 0 then []
    else
      var c := cols[0];
      var c' := if c.Variable? then c.(title := HeaderFor(m, c.fileHeader, c.emailHeader)) else c;
      [c'] + UpdateColumnHeaders(cols[1..], m)
  }

  /** The panel's header state and its columns. */
  datatype Panel = Panel(preset: HeaderMode, actual: HeaderMode, columns: seq<Column>)

  /** A new panel: both modes are FILES and every column shows its file title. */
  function InitialPanel(): Panel {
    Panel(Files, Files, InitialColumns())
  }

  /**
   The panel is consistent: without auto-detection the actual mode is the
   preset, and the variable headers show the actual mode.
   */
  ghost predicate Consistent(p: Panel) {
    && (p.preset != FilesAndEmails ==> p.actual == p.preset)
    && HeadersShow(p.columns, p.actual)
  }

  lemma InitialPanelConsistent()
    ensures Consistent(InitialPanel())
  {
    var cols := InitialColumns();
    forall i | 0 <= i < |cols| && cols[i].Variable?
      ensures cols[i].title == HeaderFor(Files, cols[i].fileHeader, cols[i].emailHeader)
    {
    }
  }

  /**
   `setActualHeaderMode`: a preset other than FILES_AND_EMAILS is taken as
   the actual mode and the headers are left alone; FILES_AND_EMAILS detects
   the mode from the results and retitles the headers for it.
   */
  function SetActualHeaderMode(p: Panel, results: seq<Document>): (q: Panel)
    ensures q.preset == p.preset
    ensures p.preset != FilesAndEmails ==> q.actual == p.preset && q.columns == p.columns
    ensures p.preset == FilesAndEmails ==>
              q.actual == GetInstance(HasFile(results), HasEmail(results)) && HeadersShow(q.columns, q.actual)
    ensures p.preset == FilesAndEmails ==> q.columns == UpdateColumnHeaders(p.columns, q.actual)
  {
    if p.preset != FilesAndEmails then
      p.(actual := p.preset)
    else
      var m := GetInstance(HasFile(results), HasEmail(results));
      p.(actual := m, columns := UpdateColumnHeaders(p.columns, m))
  }

  /**
   `setResults`: a changed preset other than FILES_AND_EMAILS retitles the
   headers at once; the new preset is stored and the actual mode set from it.
   The headers then show the actual mode whenever they showed it before, and
   in combined mode the actual mode reflects whether files and emails occur
   among the results.
   */
  function SetResults(p: Panel, results: seq<Document>, headerMode: HeaderMode): (q: Panel)
    ensures q.preset == headerMode
    ensures headerMode != FilesAndEmails ==> q.actual == headerMode
    ensures headerMode == FilesAndEmails ==>
              q.actual == GetInstance(HasFile(results), HasEmail(results))
    ensures |q.columns| == |p.columns|
    ensures forall i :: 0 <= i < |p.columns| && p.columns[i].Fixed? ==> q.columns[i] == p.columns[i]
    ensures forall i :: 0 <= i < |p.columns| && p.columns[i].Variable? ==>
              && q.columns[i].Variable?
              && q.columns[i].fileHeader == p.columns[i].fileHeader
              && q.columns[i].emailHeader == p.columns[i].emailHeader
    ensures Consistent(p) ==> Consistent(q)
  {
    var p' :=
      if p.preset != headerMode then
        var cols := if headerMode != FilesAndEmails then UpdateColumnHeaders(p.columns, headerMode) else p.columns;
        p.(preset := headerMode, columns := cols)
      else
        p;
    SetActualHeaderMode(p', results)
  }

  /**
   The detection loop of `setActualHeaderMode`, flag by flag: FILES when only
   files occur, EMAILS when no file occurs (also for no results at all), and
   FILES_AND_EMAILS when both occur.
   */
  method DetectMode(elements: seq<Document>) returns (m: HeaderMode)
    ensures m == GetInstance(HasFile(elements), HasEmail(elements))
  {
    var filesFound := false;
    var emailsFound := false;
    for i := 0 to |elements|
      invariant filesFound <==> exists j :: 0 <= j < i && !elements[j].isEmail
      invariant emailsFound <==> exists j :: 0 <= j < i && elements[j].isEmail
    {
      if elements[i].isEmail {
        emailsFound := true;
      } else {
        filesFound := true;
      }
    }
    m := GetInstance(filesFound, emailsFound);
  }
}
