# Oppia Android script checks: XML syntax and accessibility labels

This project models three parts of the static-check scripts of the Oppia Android repository and
proves properties about them in Dafny.

- **The parser error collector.** `XmlSyntaxErrorHandler` is installed on the SAX parser. It
  keeps every warning, error and fatal error the parser reports, in the order reported, instead
  of throwing. Later the whole list is handed back. Module `XmlSyntax` models it as a class with a
  `seq<Problem>` field. `Collect` models one parse with a fresh handler.
- **The XML syntax check.** Each file comes with the problems its parse collected. Every problem
  becomes one line `<root>/<file>:<line>:<column>: <message>`. The model puts each file's block in
  front of the blocks collected before it, so the block of the file processed last is printed
  first. This general rule is a modelling choice that fits the one two-file example.
  With no problems the run prints the PASS indicator alone. Otherwise it prints the lines and
  raises the FAIL indicator. Module `XmlSyntaxCheck` models this.
- **The accessibility label check.** Each manifest has a package and its activities, each with a
  name and whether it has an `android:label`.
  - A name that starts with a dot is resolved against the package.
  - Unlabelled activities whose fully-qualified name is not exempt are collected over all
    manifests.
  - Each collected name becomes a source path: `app/src/main/java/` followed by the name with
    every dot turned into `/`.
  - The paths are sorted lexicographically, and a path found twice is listed once. No test
    declares an activity twice, so listing each path once is a modelling choice.
  - The report is a header, one `- <root>/<path>` bullet per path, a blank line and two fixed
    notes.

  Module `AccessibilityLabelCheck` models this. `AccessibilityLabelSteps` holds facts about its
  parts for any names. `AccessibilityLabelScenarios` states the check's outcome for the manifests
  of its test suite.

Shared modules:

- `Options`: `Option`.
- `Text`: joining and splitting lines, decimal rendering and parsing of integers.
- `LexOrder`: the character-by-character order `LexLe`, insertion `Sort`, and the proof that a
  sorted arrangement of a multiset is unique.
- `Sequences`: concatenating per-element results, in order and in reverse order.
- `CheckOutcome`: `Outcome = Pass | Fail(report)`. It says what a run prints (`Stdout`, trimmed as
  the tests compare it) and what it raises (`Raised`).

The implementations of the two checks are not part of this model. Their test suites fix the
exact outputs for the example inputs, and the model reproduces each of those outputs. The general
rules the model applies to other inputs are modelling choices that agree with those examples.

## Model

| member | source | states |
|---|---|---|
| XmlSyntax.XmlSyntaxErrorHandler.constructor | scripts/src/java/org/oppia/android/scripts/xml/XmlSyntaxErrorHandler.kt:10-11 | a new handler has collected nothing |
| XmlSyntax.XmlSyntaxErrorHandler.Warning | scripts/src/java/org/oppia/android/scripts/xml/XmlSyntaxErrorHandler.kt:13-15 | the list becomes the old list followed by the problem; earlier entries stay as they were |
| XmlSyntax.XmlSyntaxErrorHandler.Error | scripts/src/java/org/oppia/android/scripts/xml/XmlSyntaxErrorHandler.kt:17-19 | the list becomes the old list followed by the problem |
| XmlSyntax.XmlSyntaxErrorHandler.FatalError | scripts/src/java/org/oppia/android/scripts/xml/XmlSyntaxErrorHandler.kt:21-23 | a fatal error is recorded, not thrown: the list becomes the old list followed by the problem |
| XmlSyntax.XmlSyntaxErrorHandler.RetrieveErrorList | scripts/src/java/org/oppia/android/scripts/xml/XmlSyntaxErrorHandler.kt:25-32 | returns exactly the collected list and changes nothing, so two calls give the same list |
| XmlSyntax.Collect | scripts/src/java/org/oppia/android/scripts/xml/XmlSyntaxErrorHandler.kt:6-32 | after any sequence of callbacks on a fresh handler, the retrieved list is the problems of those callbacks in callback order, one per callback |
| XmlSyntax.ProblemsOfInOrder | scripts/src/java/org/oppia/android/scripts/xml/XmlSyntaxErrorHandler.kt:6-9 | the collected list has one entry per callback, the i-th being the i-th callback's problem: nothing dropped, nothing reordered |
| XmlSyntax.SeverityIsNotRecorded | scripts/src/java/org/oppia/android/scripts/xml/XmlSyntaxErrorHandler.kt:13-23 | callbacks carrying the same problems in the same order leave the same list, whatever their severities |
| XmlSyntaxCheck.FormatProblem | scripts/src/java/org/oppia/android/scripts/xml/XmlSyntaxCheckTest.kt:74-78 | defines one report line: the file path, the line, the column and the message, as `<path>:<line>:<column>: <message>` |
| XmlSyntaxCheck.ReportLines | scripts/src/java/org/oppia/android/scripts/xml/XmlSyntaxCheckTest.kt:111-116 | defines the report: each file's lines in parser order, the blocks of later files ahead of earlier ones |
| XmlSyntaxCheck.Check | scripts/src/java/org/oppia/android/scripts/xml/XmlSyntaxCheckTest.kt:36-79 | defines the outcome: Pass when the report is empty, otherwise Fail with the report |
| CheckOutcome.Stdout | scripts/src/java/org/oppia/android/scripts/xml/XmlSyntaxCheckTest.kt:52-53 | defines the trimmed output: the PASS indicator for Pass, the report lines joined by newlines for Fail |
| CheckOutcome.Raised | scripts/src/java/org/oppia/android/scripts/xml/XmlSyntaxCheckTest.kt:69-73 | defines the exception: none for Pass, the FAIL indicator for Fail |
| XmlSyntaxCheck.ParseFormatProblem | scripts/src/java/org/oppia/android/scripts/xml/XmlSyntaxCheckTest.kt:74-78 | a report line `<path>:<line>:<column>: <message>` names its file, position and message unambiguously: they can be read back from it when the path has no colon |
| XmlSyntaxCheck.FileLinesAt | scripts/src/java/org/oppia/android/scripts/xml/XmlSyntaxCheckTest.kt:74-78 | a file contributes one line per problem, in the parser's order |
| XmlSyntaxCheck.ReportLinesLastFileFirst | scripts/src/java/org/oppia/android/scripts/xml/XmlSyntaxCheckTest.kt:111-116 | the file processed last has its block ahead of everything processed before it |
| XmlSyntaxCheck.ReportLinesCount | scripts/src/java/org/oppia/android/scripts/xml/XmlSyntaxCheckTest.kt:82-117 | no file is skipped: the report has as many lines as there are problems over all files |
| XmlSyntaxCheck.ReportLinesMembership | scripts/src/java/org/oppia/android/scripts/xml/XmlSyntaxCheckTest.kt:82-117 | a line is in the report if and only if it is the line of some problem of some file |
| XmlSyntaxCheck.CheckPassesIff | scripts/src/java/org/oppia/android/scripts/xml/XmlSyntaxCheckTest.kt:36-53 | the check passes if and only if no file has a problem |
| XmlSyntaxCheck.TotalProblemsZero | scripts/src/java/org/oppia/android/scripts/xml/XmlSyntaxCheckTest.kt:36-53 | the problem count is zero if and only if every file has no problems |
| XmlSyntaxCheck.PassOutput | scripts/src/java/org/oppia/android/scripts/xml/XmlSyntaxCheckTest.kt:36-53 | with no problems the output is exactly the PASS indicator and nothing is raised |
| XmlSyntaxCheck.FailOutput | scripts/src/java/org/oppia/android/scripts/xml/XmlSyntaxCheckTest.kt:69-78 | with a problem the FAIL indicator is raised; the output split at newlines is exactly the report's lines, and none of them is the PASS indicator |
| XmlSyntaxCheck.ReportLineShape | scripts/src/java/org/oppia/android/scripts/xml/XmlSyntaxCheckTest.kt:74-78 | a report line holds no newline when its parts hold none, and is never the PASS indicator |
| XmlSyntaxCheck.ValidXmlPasses | scripts/src/java/org/oppia/android/scripts/xml/XmlSyntaxCheckTest.kt:35-53 | one valid `TestFile.xml`: the output is `XML SYNTAX CHECK PASSED` and nothing is raised |
| XmlSyntaxCheck.InvalidEndTagFails | scripts/src/java/org/oppia/android/scripts/xml/XmlSyntaxCheckTest.kt:55-79 | one problem at 6:8 in `TestFile.xml`: the output is `<root>/TestFile.xml:6:8: <message>` and `XML SYNTAX CHECK FAILED` is raised |
| XmlSyntaxCheck.TwoInvalidFilesFail | scripts/src/java/org/oppia/android/scripts/xml/XmlSyntaxCheckTest.kt:81-116 | `TestFile1.xml` (4:4) then `TestFile2.xml` (6:8) processed: the output is the `TestFile2.xml` line, a newline, then the `TestFile1.xml` line, and `XML SYNTAX CHECK FAILED` is raised |
| XmlSyntaxCheck.TwoFileOutcome | scripts/src/java/org/oppia/android/scripts/xml/XmlSyntaxCheckTest.kt:106-116 | two files with one line each: the later file's line is printed first, and the FAIL indicator is raised |
| Text.SplitJoinLines | scripts/src/java/org/oppia/android/scripts/xml/XmlSyntaxCheckTest.kt:111-116 | lines without newlines are recovered by splitting their newline-joined text |
| Text.ParseIntToString | scripts/src/java/org/oppia/android/scripts/xml/XmlSyntaxCheckTest.kt:74-78 | the decimal text of a line or column number parses back to that number |
| AccessibilityLabelCheck.ResolveName | scripts/src/javatests/org/oppia/android/scripts/label/AccessibilityLabelCheckTest.kt:70-98 | defines the fully-qualified name: the package followed by the declared name when that starts with a dot, else the declared name |
| AccessibilityLabelCheck.ActivityPath | scripts/src/javatests/org/oppia/android/scripts/label/AccessibilityLabelCheckTest.kt:94-98 | defines the source path: `app/src/main/java/` followed by the qualified name with every dot turned into `/` |
| AccessibilityLabelCheck.Violations | scripts/src/javatests/org/oppia/android/scripts/label/AccessibilityLabelCheckTest.kt:153-208 | defines the collected names: manifest after manifest, the unlabelled, non-exempt activities in declaration order |
| AccessibilityLabelCheck.MissingLabelPaths | scripts/src/javatests/org/oppia/android/scripts/label/AccessibilityLabelCheckTest.kt:256-271 | defines the listed paths: the violations' paths sorted, a repeated path kept once |
| AccessibilityLabelCheck.ReportLines | scripts/src/javatests/org/oppia/android/scripts/label/AccessibilityLabelCheckTest.kt:95-103 | defines the failure report: the header, one `- <root>/<path>` bullet per path, a blank line and the two notes |
| AccessibilityLabelCheck.Check | scripts/src/javatests/org/oppia/android/scripts/label/AccessibilityLabelCheckTest.kt:40-104 | defines the outcome: Pass when no path is listed, otherwise Fail with the report |
| AccessibilityLabelCheck.ResolveNameParts | scripts/src/javatests/org/oppia/android/scripts/label/AccessibilityLabelCheckTest.kt:94-96 | a resolved name ends with the declared name, preceded by the package exactly when the declared name starts with a dot |
| AccessibilityLabelCheck.DotsToSlashesInjective | scripts/src/javatests/org/oppia/android/scripts/label/AccessibilityLabelCheckTest.kt:94-98 | names without slashes that differ have different path forms: turning dots into slashes loses nothing |
| AccessibilityLabelCheck.ActivityPathInjective | scripts/src/javatests/org/oppia/android/scripts/label/AccessibilityLabelCheckTest.kt:94-98 | different activities whose names hold no slash get different source paths |
| AccessibilityLabelCheck.DotsToSlashesAtDot | scripts/src/javatests/org/oppia/android/scripts/label/AccessibilityLabelCheckTest.kt:94-98 | a dot-separated name becomes the slash-separated path of its parts |
| AccessibilityLabelCheck.ViolationsMembership | scripts/src/javatests/org/oppia/android/scripts/label/AccessibilityLabelCheckTest.kt:153-208 | a name is collected if and only if it is the resolved name of an unlabelled, non-exempt activity of some given manifest: no manifest skipped, no labelled or exempt activity collected |
| AccessibilityLabelCheck.MissingLabelPathsSortedDistinct | scripts/src/javatests/org/oppia/android/scripts/label/AccessibilityLabelCheckTest.kt:211-272 | the listed paths are sorted, no path is listed twice, and a path is listed if and only if it is the path of a collected activity |
| AccessibilityLabelCheck.MissingLabelPathsMembership | scripts/src/javatests/org/oppia/android/scripts/label/AccessibilityLabelCheckTest.kt:153-208 | a path is listed if and only if it is the source path of an unlabelled, non-exempt activity |
| AccessibilityLabelCheck.CheckPassesIff | scripts/src/javatests/org/oppia/android/scripts/label/AccessibilityLabelCheckTest.kt:40-104 | the check passes if and only if every activity of every manifest has a label or is exempt |
| AccessibilityLabelCheck.AllLabelledPasses | scripts/src/javatests/org/oppia/android/scripts/label/AccessibilityLabelCheckTest.kt:107-150 | when every activity has a label, the output is exactly the PASS indicator and nothing is raised |
| AccessibilityLabelCheck.FailureReportLayout | scripts/src/javatests/org/oppia/android/scripts/label/AccessibilityLabelCheckTest.kt:94-103 | a failing run raises the FAIL indicator and prints the header, one `- <root>/<path>` line per listed path in order, a blank line and the two notes |
| AccessibilityLabelCheck.PrintedPathsSorted | scripts/src/javatests/org/oppia/android/scripts/label/AccessibilityLabelCheckTest.kt:260-271 | the full paths the report prints are in sorted order too |
| AccessibilityLabelCheck.CheckIgnoresOrder | scripts/src/javatests/org/oppia/android/scripts/label/AccessibilityLabelCheckTest.kt:211-272 | the outcome depends only on which names are collected, not on the order they are found in |
| AccessibilityLabelCheck.CheckIgnoresDeclarationOrder | scripts/src/javatests/org/oppia/android/scripts/label/AccessibilityLabelCheckTest.kt:211-272 | reordering the activities of a manifest does not change the outcome |
| AccessibilityLabelCheck.CheckIgnoresManifestOrder | scripts/src/javatests/org/oppia/android/scripts/label/AccessibilityLabelCheckTest.kt:153-208 | giving the manifests in another order does not change the outcome |
| LexOrder.LexLe | scripts/src/javatests/org/oppia/android/scripts/label/AccessibilityLabelCheckTest.kt:260-271 | defines the order: at the first differing position the smaller character comes first, and a proper prefix comes before any longer string |
| LexOrder.Sort | scripts/src/javatests/org/oppia/android/scripts/label/AccessibilityLabelCheckTest.kt:260-271 | defines insertion sort by that order |
| LexOrder.DropRepeatsSorted | scripts/src/javatests/org/oppia/android/scripts/label/AccessibilityLabelCheckTest.kt:260-271 | dropping the repeats of a sorted sequence keeps it sorted and leaves every element once |
| LexOrder.DropRepeatsMembership | scripts/src/javatests/org/oppia/android/scripts/label/AccessibilityLabelCheckTest.kt:260-271 | dropping repeats loses no element and adds none |
| LexOrder.LexLeTotal | scripts/src/javatests/org/oppia/android/scripts/label/AccessibilityLabelCheckTest.kt:260-271 | any two strings are ordered one way or the other |
| LexOrder.LexLeTransitive | scripts/src/javatests/org/oppia/android/scripts/label/AccessibilityLabelCheckTest.kt:260-271 | the order is transitive |
| LexOrder.LexLeAntisymmetric | scripts/src/javatests/org/oppia/android/scripts/label/AccessibilityLabelCheckTest.kt:260-271 | strings ordered both ways are equal |
| LexOrder.LexLeFirstDifference | scripts/src/javatests/org/oppia/android/scripts/label/AccessibilityLabelCheckTest.kt:260-271 | strings that agree up to a position are strictly ordered by their characters there |
| LexOrder.SortSortedPermutation | scripts/src/javatests/org/oppia/android/scripts/label/AccessibilityLabelCheckTest.kt:260-271 | sorting gives a sorted arrangement of the same elements, each as often as before |
| LexOrder.SortedUnique | scripts/src/javatests/org/oppia/android/scripts/label/AccessibilityLabelCheckTest.kt:260-271 | there is only one sorted arrangement of a multiset of strings |
| LexOrder.SortIgnoresOrder | scripts/src/javatests/org/oppia/android/scripts/label/AccessibilityLabelCheckTest.kt:211-272 | any two arrangements of the same elements sort to the same sequence |
| AccessibilityLabelSteps.FailsWith | scripts/src/javatests/org/oppia/android/scripts/label/AccessibilityLabelCheckTest.kt:95-103 | a run fails with the report of `paths` whenever `paths` is a sorted arrangement of the collected paths with no element repeated |
| AccessibilityLabelSteps.TwoManifestsFourFailures | scripts/src/javatests/org/oppia/android/scripts/label/AccessibilityLabelCheckTest.kt:211-272 | three violations found out of order in one manifest and one in another are printed in path order, all four |
| AccessibilityLabelScenarios.LabelPresentPasses | scripts/src/javatests/org/oppia/android/scripts/label/AccessibilityLabelCheckTest.kt:39-65 | the splash manifest with both activities labelled: the output is `ACCESSIBILITY LABEL CHECK PASSED`, nothing raised |
| AccessibilityLabelScenarios.LabelMissingFails | scripts/src/javatests/org/oppia/android/scripts/label/AccessibilityLabelCheckTest.kt:67-104 | unlabelled `.SecondSplashActivity` of `org.oppia.android.splash`: the report's only bullet is `<root>/app/src/main/java/org/oppia/android/splash/SecondSplashActivity`, and the FAIL indicator is raised |
| AccessibilityLabelScenarios.MultipleManifestsAllLabelledPass | scripts/src/javatests/org/oppia/android/scripts/label/AccessibilityLabelCheckTest.kt:106-150 | two manifests, all labelled: the output is `ACCESSIBILITY LABEL CHECK PASSED`, nothing raised |
| AccessibilityLabelScenarios.AllFailuresLogged | scripts/src/javatests/org/oppia/android/scripts/label/AccessibilityLabelCheckTest.kt:152-208 | one unlabelled activity in each of two manifests: both are reported, the app `TempActivity` before the splash `SecondSplashActivity`, and the labelled `SecondTempActivity` is not |
| AccessibilityLabelScenarios.FailuresSorted | scripts/src/javatests/org/oppia/android/scripts/label/AccessibilityLabelCheckTest.kt:210-272 | activities found as Fourth, Third, First, SecondSplash are reported as First, Fourth, Third, then the splash one |
| AccessibilityLabelScenarios.SortedRunOrder | scripts/src/javatests/org/oppia/android/scripts/label/AccessibilityLabelCheckTest.kt:256-271 | First < Fourth < Third within `app/`, and every `app/` class before `splash/` |
| AccessibilityLabelScenarios.SecondSplashPath | scripts/src/javatests/org/oppia/android/scripts/label/AccessibilityLabelCheckTest.kt:94-98 | `org.oppia.android.splash.SecondSplashActivity` lives at `app/src/main/java/org/oppia/android/splash/SecondSplashActivity` |
| AccessibilityLabelScenarios.ExemptedActivityPasses | scripts/src/javatests/org/oppia/android/scripts/label/AccessibilityLabelCheckTest.kt:274-294 | an unlabelled `.app.home.HomeActivity` whose qualified name is exempt: the output is `ACCESSIBILITY LABEL CHECK PASSED`, nothing raised |

In the scenario lemmas, expected paths are written as parts of the path: the source root, the
package directory (`org/oppia/android`, or `org/oppia/android/splash`) and then the rest. For
example, `AppRoot + "/app/TempActivity"` is `app/src/main/java/org/oppia/android/app/TempActivity`.

## Left out

- The SAX parser itself. Whether a document is well formed, where a problem is and how its
  message is worded are its decisions. Problems are inputs, and the scenario lemmas take the
  messages as parameters. A parse that stops before making any callback leaves the handler's
  list empty, so the model treats that file as having no problems.
- Finding and reading files: the directory walk that lists `*.xml` files and the reading of
  manifests. Files are given in the order they are processed. That order is not modelled.
- Loading the exemption list from `scripts/assets/accessibility_label_exemptions.textproto`. The
  set of exempt names is a parameter. The scenario lemmas require only what each run needs:
  `org.oppia.android.app.home.HomeActivity` exempt, and the reported names not exempt.
- Writing to standard output and raising the exception. `Stdout` gives the trimmed text the tests
  compare, lines joined by a newline. `Raised` gives the exception's message.
- What counts as a label. Whether an empty `android:label` is present is not settled by any test,
  so a label's presence is a boolean input.
- The two indicator strings of the XML check are defined in a file that is not part of this
  model, `scripts/common`. Their values are taken to be `XML SYNTAX CHECK PASSED` and
  `XML SYNTAX CHECK FAILED`.
- XmlSyntaxCheck.ReportLines: the reversal of the file blocks is assumed. The test fixes only that
  the `TestFile2.xml` line comes before the `TestFile1.xml` line, and the order in which files
  are processed is not shown. XmlSyntaxCheck.TwoInvalidFilesFail assumes that `TestFile1.xml` is
  processed first. Processing the files in the other order without reversing would give the
  same output.
- The implementations `XmlSyntaxCheck.kt` and `AccessibilityLabelCheck.kt` are not part of this
  model. Their behaviour is modelled as their tests state it.
- XmlSyntax.XmlSyntaxErrorHandler.RetrieveErrorList: returns a value, not the live list. A caller
  who keeps the returned list and sees later additions through it is not modelled.
- LexOrder.LexLe: compares Dafny characters, which are Unicode scalar values. Kotlin compares
  UTF-16 code units. The two orders agree outside surrogate pairs, which no test uses.
- Exemption is decided by the fully-qualified name the declaration resolves to. A name without a
  leading dot is taken as already fully qualified.
