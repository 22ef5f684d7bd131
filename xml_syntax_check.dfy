/**
 * The XML syntax check: every XML file under the root is parsed with an XmlSyntaxErrorHandler
 * installed, every collected problem becomes one `path:line:column: message` line, and the check
 * passes only when no file has a problem.
 */
module XmlSyntaxCheck {
  import opened Options
  import opened Text
  import opened CheckOutcome
  import opened XmlSyntax
  import opened Sequences

  const PassedIndicator := "XML SYNTAX CHECK PASSED"
  const FailedIndicator := "XML SYNTAX CHECK FAILED"

  /** A scanned file: its path below the root, and what the handler collected while parsing it. */
  datatype XmlFile = XmlFile(path: string, problems: seq<Problem>)

  /** The path a file is reported under. */
  function FilePath(root: string, f: XmlFile): string
  {
    root + "/" + f.path
  }

  /** The report line for one problem. */
  function FormatProblem(filePath: string, p: Problem): string
  {
    filePath + ":" + IntToString(p.line) + ":" + IntToString(p.column) + ": " + p.message
  }

  /** The file path and problem a report line names, if it is one. */
  function ParseProblemLine(line: string): Option<(string, Problem)>
  {
    match SplitAt(line, ':')
    case None => None
    case Some(atPath) =>
      match SplitAt(atPath.1, ':')
      case None => None
      case Some(atLine) =>
        match SplitAt(atLine.1, ':')
        case None => None
        case Some(atColumn) =>
          var lineNumber, columnNumber := ParseInt(atLine.0), ParseInt(atColumn.0);
          if |atColumn.1| >= 1 && atColumn.1[0] == ' ' && lineNumber.Some? && columnNumber.Some? then
            Some((atPath.0, Problem(lineNumber.value, columnNumber.value, atColumn.1[1..])))
          else None
  }

  lemma ColonNotInIntToString(n: int)
    ensures ':' !in IntToString(n)
  {
    IntToStringChars(n);
  }

  /** A report line names exactly its file and its problem: location and message can be read back. */
  lemma ParseFormatProblem(filePath: string, p: Problem)
    requires ':' !in filePath
    ensures ParseProblemLine(FormatProblem(filePath, p)) == Some((filePath, p))
  {
    var l, c := IntToString(p.line), IntToString(p.column);
    ColonNotInIntToString(p.line);
    ColonNotInIntToString(p.column);
    ParseIntToString(p.line);
    ParseIntToString(p.column);
    var tail := " " + p.message;
    assert FormatProblem(filePath, p) == filePath + [':'] + (l + [':'] + (c + [':'] + tail));
    SplitAtFirst(filePath, ':', l + [':'] + (c + [':'] + tail));
    SplitAtFirst(l, ':', c + [':'] + tail);
    SplitAtFirst(c, ':', tail);
    assert tail[1..] == p.message;
  }

  /** The lines for a file's problems, in the order the parser reported them. */
  function FileLines(filePath: string, problems: seq<Problem>): seq<string>
  {
    if |problems| == 0 then []
    else [FormatProblem(filePath, problems[0])] + FileLines(filePath, problems[1..])
  }

  /** One line per problem, each at its problem's position. */
  lemma {:induction false} FileLinesAt(filePath: string, problems: seq<Problem>)
    ensures |FileLines(filePath, problems)| == |problems|
    ensures forall j :: 0 <= j < |problems| ==> FileLines(filePath, problems)[j] == FormatProblem(filePath, problems[j])
  {
    if |problems| > 0 {
      var rest := FileLines(filePath, problems[1..]);
      FileLinesAt(filePath, problems[1..]);
      assert FileLines(filePath, problems) == [FormatProblem(filePath, problems[0])] + rest;
      forall j | 0 < j < |problems|
        ensures FileLines(filePath, problems)[j] == FormatProblem(filePath, problems[j])
      {
        assert rest[j - 1] == FormatProblem(filePath, problems[1..][j - 1]);
        assert problems[1..][j - 1] == problems[j];
      }
    }
  }

  /**
   * The report's lines for files processed in the order given. Each processed file's lines are
   * put in front of those collected before it, so the blocks come out in reverse processing order.
   */
  function ReportLines(root: string, files: seq<XmlFile>): seq<string>
  {
    FlatMapReversed(FileStep(root), files)
  }

  function FileStep(root: string): XmlFile -> seq<string>
  {
    f => FileLines(FilePath(root, f), f.problems)
  }

  function Check(root: string, files: seq<XmlFile>): Outcome
  {
    var lines := ReportLines(root, files);
    if |lines| == 0 then Pass else Fail(lines)
  }

  /** The number of problems over all files. */
  function TotalProblems(files: seq<XmlFile>): nat
  {
    if |files| == 0 then 0 else |files[0].problems| + TotalProblems(files[1..])
  }

  /** The file processed last leads the report, ahead of everything processed before it. */
  lemma ReportLinesLastFileFirst(root: string, files: seq<XmlFile>, f: XmlFile)
    ensures ReportLines(root, files + [f]) == FileLines(FilePath(root, f), f.problems) + ReportLines(root, files)
  {
    FlatMapReversedLast(FileStep(root), files, f);
  }

  /** No file is skipped: the report has one line for every problem of every file. */
  lemma {:induction false} ReportLinesCount(root: string, files: seq<XmlFile>)
    ensures |ReportLines(root, files)| == TotalProblems(files)
  {
    if |files| > 0 {
      ReportLinesCount(root, files[1..]);
      FileLinesAt(FilePath(root, files[0]), files[0].problems);
    }
  }

  /** A line is in the report exactly when it is the line of some problem of some file. */
  lemma ReportLinesMembership(root: string, files: seq<XmlFile>, line: string)
    ensures line in ReportLines(root, files) <==>
      exists i, j :: 0 <= i < |files| && 0 <= j < |files[i].problems| &&
        line == FormatProblem(FilePath(root, files[i]), files[i].problems[j])
  {
    FlatMapReversedMembership(FileStep(root), files, line);
    if line in ReportLines(root, files) {
      var i :| 0 <= i < |files| && line in FileStep(root)(files[i]);
      FileLinesAt(FilePath(root, files[i]), files[i].problems);
      var j :| 0 <= j < |files[i].problems| && FileLines(FilePath(root, files[i]), files[i].problems)[j] == line;
    }
    if exists i, j :: 0 <= i < |files| && 0 <= j < |files[i].problems| &&
        line == FormatProblem(FilePath(root, files[i]), files[i].problems[j]) {
      var i, j :| 0 <= i < |files| && 0 <= j < |files[i].problems| &&
        line == FormatProblem(FilePath(root, files[i]), files[i].problems[j]);
      FileLinesAt(FilePath(root, files[i]), files[i].problems);
      assert line in FileStep(root)(files[i]);
    }
  }

  /** The check passes exactly when no file has a problem. */
  lemma CheckPassesIff(root: string, files: seq<XmlFile>)
    ensures Check(root, files) == Pass <==> forall i :: 0 <= i < |files| ==> files[i].problems == []
  {
    ReportLinesCount(root, files);
    TotalProblemsZero(files);
  }

  lemma {:induction false} TotalProblemsZero(files: seq<XmlFile>)
    ensures TotalProblems(files) == 0 <==> forall i :: 0 <= i < |files| ==> files[i].problems == []
  {
    if |files| > 0 {
      TotalProblemsZero(files[1..]);
      assert forall i :: 1 <= i < |files| ==> files[i] == files[1..][i - 1];
    }
  }

  /** A passing run prints the PASS indicator alone and raises nothing. */
  lemma PassOutput(root: string, files: seq<XmlFile>)
    requires forall i :: 0 <= i < |files| ==> files[i].problems == []
    ensures Stdout(Check(root, files), PassedIndicator) == PassedIndicator
    ensures Raised(Check(root, files), FailedIndicator) == None
  {
    CheckPassesIff(root, files);
  }

  /**
   * A failing run raises the FAIL indicator and prints the problem lines and nothing else: splitting
   * its output at newlines gives back exactly the report's lines, and the PASS indicator is none of them.
   */
  lemma FailOutput(root: string, files: seq<XmlFile>)
    requires exists i :: 0 <= i < |files| && files[i].problems != []
    requires '\n' !in root
    requires forall i :: 0 <= i < |files| ==> '\n' !in files[i].path
    requires forall i, j :: 0 <= i < |files| && 0 <= j < |files[i].problems| ==> '\n' !in files[i].problems[j].message
    ensures Raised(Check(root, files), FailedIndicator) == Some(FailedIndicator)
    ensures SplitLines(Stdout(Check(root, files), PassedIndicator)) == ReportLines(root, files)
    ensures PassedIndicator !in ReportLines(root, files)
  {
    CheckPassesIff(root, files);
    var lines := ReportLines(root, files);
    forall k | 0 <= k < |lines| ensures '\n' !in lines[k] && lines[k] != PassedIndicator {
      ReportLineShape(root, files, lines[k]);
    }
    SplitJoinLines(lines);
  }

  /** Each report line holds no newline when its parts hold none, and is never the PASS indicator. */
  lemma ReportLineShape(root: string, files: seq<XmlFile>, line: string)
    requires line in ReportLines(root, files)
    requires '\n' !in root
    requires forall i :: 0 <= i < |files| ==> '\n' !in files[i].path
    requires forall i, j :: 0 <= i < |files| && 0 <= j < |files[i].problems| ==> '\n' !in files[i].problems[j].message
    ensures '\n' !in line && line != PassedIndicator
  {
    ReportLinesMembership(root, files, line);
    var i, j :| 0 <= i < |files| && 0 <= j < |files[i].problems| &&
      line == FormatProblem(FilePath(root, files[i]), files[i].problems[j]);
    LineShape(root, files[i].path, files[i].problems[j]);
  }

  lemma LineShape(root: string, path: string, p: Problem)
    requires '\n' !in root && '\n' !in path && '\n' !in p.message
    ensures '\n' !in FormatProblem(root + "/" + path, p)
    ensures FormatProblem(root + "/" + path, p) != PassedIndicator
  {
    IntToStringChars(p.line);
    IntToStringChars(p.column);
    assert FormatProblem(root + "/" + path, p)[|root|] == '/';
    assert '/' !in PassedIndicator;
  }

  /** A single valid file: the run prints the PASS indicator alone and raises nothing. */
  lemma ValidXmlPasses(root: string)
    ensures Stdout(Check(root, [XmlFile("TestFile.xml", [])]), PassedIndicator) == "XML SYNTAX CHECK PASSED"
    ensures Raised(Check(root, [XmlFile("TestFile.xml", [])]), FailedIndicator) == None
  {
    PassOutput(root, [XmlFile("TestFile.xml", [])]);
  }

  /** The lines of one file with one problem, and of one or two files. */
  lemma OneProblemLines(root: string, path: string, p: Problem)
    ensures FileStep(root)(XmlFile(path, [p])) == [FormatProblem(root + "/" + path, p)]
  {
    var filePath := FilePath(root, XmlFile(path, [p]));
    assert [p][0] == p && [p][1..] == [];
    assert FileLines(filePath, [p]) == [FormatProblem(filePath, p)] + FileLines(filePath, []);
  }

  lemma OneFileReport(root: string, f: XmlFile)
    ensures ReportLines(root, [f]) == FileStep(root)(f)
  {
    assert [f][0] == f && [f][1..] == [];
    assert FlatMapReversed(FileStep(root), [f]) == FlatMapReversed(FileStep(root), []) + FileStep(root)(f);
  }

  lemma TwoFileReport(root: string, f1: XmlFile, f2: XmlFile)
    ensures ReportLines(root, [f1, f2]) == FileStep(root)(f2) + FileStep(root)(f1)
  {
    assert [f1, f2] == [f1] + [f2];
    FlatMapReversedLast(FileStep(root), [f1], f2);
    OneFileReport(root, f1);
  }

  /** A single file with a mismatched end tag: one line at line 6, column 8, and the FAIL indicator raised. */
  lemma InvalidEndTagFails(root: string, message: string)
    ensures Stdout(Check(root, [XmlFile("TestFile.xml", [Problem(6, 8, message)])]), PassedIndicator)
      == root + "/TestFile.xml:6:8: " + message
    ensures Raised(Check(root, [XmlFile("TestFile.xml", [Problem(6, 8, message)])]), FailedIndicator)
      == Some("XML SYNTAX CHECK FAILED")
  {
    var f := XmlFile("TestFile.xml", [Problem(6, 8, message)]);
    var line := root + "/TestFile.xml:6:8: " + message;
    FormatAt(root + "/" + "TestFile.xml", 6, 8, message, "6", "8");
    assert root + "/" + "TestFile.xml" + ":" + "6" + ":" + "8" + ": " + message == line;
    OneProblemLines(root, "TestFile.xml", Problem(6, 8, message));
    OneFileReport(root, f);
    assert ReportLines(root, [f]) == [line];
    assert JoinLines([line]) == line;
  }

  /** A problem line for a position whose numbers are written out. */
  lemma FormatAt(filePath: string, line: int, column: int, message: string, l: string, c: string)
    requires IntToString(line) == l && IntToString(column) == c
    ensures FormatProblem(filePath, Problem(line, column, message)) == filePath + ":" + l + ":" + c + ": " + message
  {
  }

  /**
   * Two broken files, `TestFile1.xml` taken to be processed before `TestFile2.xml`: the second
   * file's line comes first, and the FAIL indicator is raised.
   */
  lemma TwoInvalidFilesFail(root: string, message1: string, message2: string)
    ensures Stdout(Check(root, [XmlFile("TestFile1.xml", [Problem(4, 4, message1)]),
                                XmlFile("TestFile2.xml", [Problem(6, 8, message2)])]), PassedIndicator)
      == root + "/TestFile2.xml:6:8: " + message2 + "\n" + root + "/TestFile1.xml:4:4: " + message1
    ensures Raised(Check(root, [XmlFile("TestFile1.xml", [Problem(4, 4, message1)]),
                                XmlFile("TestFile2.xml", [Problem(6, 8, message2)])]), FailedIndicator)
      == Some("XML SYNTAX CHECK FAILED")
  {
    var f1, f2 := XmlFile("TestFile1.xml", [Problem(4, 4, message1)]), XmlFile("TestFile2.xml", [Problem(6, 8, message2)]);
    var line1 := root + "/TestFile1.xml:4:4: " + message1;
    var line2 := root + "/TestFile2.xml:6:8: " + message2;
    LineAt(root, "TestFile1.xml", 4, 4, message1, "4", "4", "/TestFile1.xml:4:4: ");
    LineAt(root, "TestFile2.xml", 6, 8, message2, "6", "8", "/TestFile2.xml:6:8: ");
    TwoFileOutcome(root, f1, f2, line1, line2);
    Regroup(line2, root, "/TestFile1.xml:4:4: ", message1);
  }

  /** Two files with one line each: the later file's line is printed first, and the check fails. */
  lemma TwoFileOutcome(root: string, f1: XmlFile, f2: XmlFile, line1: string, line2: string)
    requires FileStep(root)(f1) == [line1] && FileStep(root)(f2) == [line2]
    ensures Stdout(Check(root, [f1, f2]), PassedIndicator) == line2 + "\n" + line1
    ensures Raised(Check(root, [f1, f2]), FailedIndicator) == Some(FailedIndicator)
  {
    TwoFileReport(root, f1, f2);
    assert ReportLines(root, [f1, f2]) == [line2, line1];
    assert Check(root, [f1, f2]) == Fail([line2, line1]);
    assert [line2, line1][1..] == [line1];
    assert JoinLines([line2, line1]) == line2 + "\n" + JoinLines([line1]);
  }

  /** The one line of a file with one problem, its position written out. */
  lemma LineAt(root: string, path: string, line: int, column: int, message: string, l: string, c: string,
               middle: string)
    requires IntToString(line) == l && IntToString(column) == c
    requires middle == "/" + path + ":" + l + ":" + c + ": "
    ensures FileStep(root)(XmlFile(path, [Problem(line, column, message)])) == [root + middle + message]
  {
    FormatAt(root + "/" + path, line, column, message, l, c);
    OneProblemLines(root, path, Problem(line, column, message));
    assert root + "/" + path + ":" + l + ":" + c + ": " == root + ("/" + path + ":" + l + ":" + c + ": ");
  }

  lemma Regroup(a: string, root: string, middle: string, message: string)
    ensures a + "\n" + (root + middle + message) == a + "\n" + root + middle + message
  {
    var head := a + "\n";
    assert head + (root + middle + message) == head + (root + middle) + message;
    assert head + (root + middle) == head + root + middle;
  }
}
