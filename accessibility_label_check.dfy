/**
 * The accessibility label check: every activity declared in the given manifests must carry a
 * label, unless its fully-qualified name is exempt. The activities that break the rule are
 * reported by their source path, sorted, under a fixed header and two fixed notes.
 */
module AccessibilityLabelCheck {
  import opened Options
  import opened Text
  import opened LexOrder
  import opened CheckOutcome
  import opened Sequences

  const PassedIndicator := "ACCESSIBILITY LABEL CHECK PASSED"
  const FailedIndicator := "ACCESSIBILITY LABEL CHECK FAILED"
  const Header := "Accessibility label missing for Activities:"
  const FailureNotePartOne := "If this is correct, please update scripts/assets/accessibility_label_exemptions.textproto"
  const FailureNotePartTwo := "Note that, in general, all Activities should have labels. If you choose to add an exemption, please specifically call this out in your PR description."
  /** Where an activity's source lives, relative to the root. */
  const ActivityPathPrefix := "app/src/main/java/"

  /** An `<activity>` element: its declared `android:name`, and whether it has an `android:label`. */
  datatype Activity = Activity(name: string, hasLabel: bool)

  /** A manifest: the root element's `package` and the activities it declares, in document order. */
  datatype Manifest = Manifest(package: string, activities: seq<Activity>)

  predicate StartsWithDot(name: string)
  {
    |name| > 0 && name[0] == '.'
  }

  /** The fully-qualified name of an activity: a leading-dot name is relative to the package. */
  function ResolveName(package: string, name: string): string
  {
    if StartsWithDot(name) then package + name else name
  }

  /** The declared name ends the identity; the package precedes it exactly when the name starts with a dot. */
  lemma ResolveNameParts(package: string, name: string)
    ensures var identity := ResolveName(package, name);
      && |name| <= |identity| && identity[|identity| - |name|..] == name
      && identity[..|identity| - |name|] == if StartsWithDot(name) then package else ""
  {
    var identity := ResolveName(package, name);
    if StartsWithDot(name) {
      assert identity == package + name;
    }
  }

  /** The path form of a fully-qualified name: each `.` becomes `/`. */
  function DotsToSlashes(s: string): (r: string)
    ensures |r| == |s|
  {
    seq(|s|, i requires 0 <= i < |s| => if s[i] == '.' then '/' else s[i])
  }

  /** Names without slashes that differ have different path forms: the mapping loses nothing for them. */
  lemma DotsToSlashesInjective(a: string, b: string)
    requires '/' !in a && '/' !in b && DotsToSlashes(a) == DotsToSlashes(b)
    ensures a == b
  {
    var r := DotsToSlashes(a);
    forall i | 0 <= i < |a| ensures a[i] == b[i] {
      assert a[i] != '/' && b[i] != '/';
      assert r[i] == DotsToSlashes(b)[i];
    }
  }

  lemma DotsToSlashesAppend(a: string, b: string)
    ensures DotsToSlashes(a + b) == DotsToSlashes(a) + DotsToSlashes(b)
  {
    var l, r := DotsToSlashes(a + b), DotsToSlashes(a) + DotsToSlashes(b);
    forall i | 0 <= i < |a + b| ensures l[i] == r[i] {
      if i < |a| {
        assert (a + b)[i] == a[i];
      } else {
        assert (a + b)[i] == b[i - |a|];
      }
    }
  }

  /** A dot-separated name becomes the slash-separated path of its parts. */
  lemma DotsToSlashesAtDot(a: string, b: string)
    ensures DotsToSlashes(a + "." + b) == DotsToSlashes(a) + "/" + DotsToSlashes(b)
  {
    DotsToSlashesAppend(a + ".", b);
    DotsToSlashesAppend(a, ".");
  }

  lemma DotsToSlashesWithoutDots(w: string)
    requires '.' !in w
    ensures DotsToSlashes(w) == w
  {
    var r := DotsToSlashes(w);
    assert forall i :: 0 <= i < |w| ==> r[i] == w[i];
  }

  /** The source path of an activity, relative to the root. */
  function ActivityPath(identity: string): string
  {
    ActivityPathPrefix + DotsToSlashes(identity)
  }

  /** Different activities whose names hold no slash have different source paths. */
  lemma ActivityPathInjective(a: string, b: string)
    requires '/' !in a && '/' !in b && ActivityPath(a) == ActivityPath(b)
    ensures a == b
  {
    assert DotsToSlashes(a) == ActivityPath(a)[|ActivityPathPrefix|..];
    assert DotsToSlashes(b) == ActivityPath(b)[|ActivityPathPrefix|..];
    DotsToSlashesInjective(a, b);
  }

  /** The fully-qualified name of an activity of `package` when it is a violation: no label, not exempt. */
  function ActivityViolation(package: string, exempt: set<string>, a: Activity): seq<string>
  {
    var identity := ResolveName(package, a.name);
    if !a.hasLabel && identity !in exempt then [identity] else []
  }

  function ActivityStep(package: string, exempt: set<string>): Activity -> seq<string>
  {
    a => ActivityViolation(package, exempt, a)
  }

  /** The violations of one manifest, in declaration order. */
  function ManifestViolations(m: Manifest, exempt: set<string>): seq<string>
  {
    FlatMap(ActivityStep(m.package, exempt), m.activities)
  }

  function ManifestStep(exempt: set<string>): Manifest -> seq<string>
  {
    m => ManifestViolations(m, exempt)
  }

  /** The violations of every manifest, manifest after manifest. */
  function Violations(manifests: seq<Manifest>, exempt: set<string>): seq<string>
  {
    FlatMap(ManifestStep(exempt), manifests)
  }

  function PathStep(): string -> seq<string>
  {
    identity => [ActivityPath(identity)]
  }

  /** The paths of the given activities, in the same order. */
  function ActivityPaths(identities: seq<string>): seq<string>
  {
    FlatMap(PathStep(), identities)
  }

  lemma ActivityPathsAt(identities: seq<string>)
    ensures |ActivityPaths(identities)| == |identities|
    ensures forall k :: 0 <= k < |identities| ==> ActivityPaths(identities)[k] == ActivityPath(identities[k])
  {
    FlatMapSingletons(PathStep(), identities);
  }

  /** The paths the report lists: the violations' paths in sorted order, each once. */
  function MissingLabelPaths(manifests: seq<Manifest>, exempt: set<string>): seq<string>
  {
    DropRepeats(Sort(ActivityPaths(Violations(manifests, exempt))))
  }

  function Bullets(root: string, paths: seq<string>): (lines: seq<string>)
    ensures |lines| == |paths|
    ensures forall k :: 0 <= k < |paths| ==> lines[k] == "- " + root + "/" + paths[k]
  {
    if |paths| == 0 then [] else ["- " + root + "/" + paths[0]] + Bullets(root, paths[1..])
  }

  /** The lines of the failure report for the given paths. */
  function ReportLines(root: string, paths: seq<string>): seq<string>
  {
    [Header] + Bullets(root, paths) + ["", FailureNotePartOne, FailureNotePartTwo]
  }

  function Check(root: string, manifests: seq<Manifest>, exempt: set<string>): Outcome
  {
    var paths := MissingLabelPaths(manifests, exempt);
    if |paths| == 0 then Pass else Fail(ReportLines(root, paths))
  }

  /** The activity at position `j` of manifest `i` has no label and is not exempt. */
  predicate IsViolation(manifests: seq<Manifest>, exempt: set<string>, i: int, j: int)
    requires 0 <= i < |manifests| && 0 <= j < |manifests[i].activities|
  {
    !manifests[i].activities[j].hasLabel &&
    ResolveName(manifests[i].package, manifests[i].activities[j].name) !in exempt
  }

  /**
   * Exactly the unlabelled, non-exempt activities of the given manifests are violations: no manifest
   * is skipped, no labelled activity and no exempt one is ever among them.
   */
  lemma ViolationsMembership(manifests: seq<Manifest>, exempt: set<string>, identity: string)
    ensures identity in Violations(manifests, exempt) <==>
      exists i, j :: 0 <= i < |manifests| && 0 <= j < |manifests[i].activities| &&
        IsViolation(manifests, exempt, i, j) &&
        ResolveName(manifests[i].package, manifests[i].activities[j].name) == identity
  {
    FlatMapMembership(ManifestStep(exempt), manifests, identity);
    forall i | 0 <= i < |manifests|
      ensures identity in ManifestViolations(manifests[i], exempt) <==>
        exists j :: 0 <= j < |manifests[i].activities| && IsViolation(manifests, exempt, i, j) &&
          ResolveName(manifests[i].package, manifests[i].activities[j].name) == identity
    {
      FlatMapMembership(ActivityStep(manifests[i].package, exempt), manifests[i].activities, identity);
    }
  }

  /** The listed paths are sorted, none is listed twice, and they are exactly the violations' paths. */
  lemma MissingLabelPathsSortedDistinct(manifests: seq<Manifest>, exempt: set<string>)
    ensures Sorted(MissingLabelPaths(manifests, exempt))
    ensures Distinct(MissingLabelPaths(manifests, exempt))
    ensures forall path :: path in MissingLabelPaths(manifests, exempt) <==>
      path in ActivityPaths(Violations(manifests, exempt))
  {
    var paths := ActivityPaths(Violations(manifests, exempt));
    SortSortedPermutation(paths);
    DropRepeatsSorted(Sort(paths));
    forall path ensures path in MissingLabelPaths(manifests, exempt) <==> path in paths {
      DropRepeatsMembership(Sort(paths), path);
      assert path in Sort(paths) <==> path in multiset(Sort(paths));
    }
  }

  /** A path is listed exactly when it is the path of an unlabelled, non-exempt activity of some manifest. */
  lemma MissingLabelPathsMembership(manifests: seq<Manifest>, exempt: set<string>, path: string)
    ensures path in MissingLabelPaths(manifests, exempt) <==>
      exists i, j :: 0 <= i < |manifests| && 0 <= j < |manifests[i].activities| &&
        IsViolation(manifests, exempt, i, j) &&
        path == ActivityPath(ResolveName(manifests[i].package, manifests[i].activities[j].name))
  {
    var violations := Violations(manifests, exempt);
    var paths := ActivityPaths(violations);
    MissingLabelPathsSortedDistinct(manifests, exempt);
    ActivityPathsAt(violations);
    if path in paths {
      var k :| 0 <= k < |paths| && paths[k] == path;
      assert violations[k] in violations;
      ViolationsMembership(manifests, exempt, violations[k]);
    }
    if exists i, j :: 0 <= i < |manifests| && 0 <= j < |manifests[i].activities| &&
        IsViolation(manifests, exempt, i, j) &&
        path == ActivityPath(ResolveName(manifests[i].package, manifests[i].activities[j].name)) {
      var i, j :| 0 <= i < |manifests| && 0 <= j < |manifests[i].activities| &&
        IsViolation(manifests, exempt, i, j) &&
        path == ActivityPath(ResolveName(manifests[i].package, manifests[i].activities[j].name));
      var identity := ResolveName(manifests[i].package, manifests[i].activities[j].name);
      ViolationsMembership(manifests, exempt, identity);
      var k :| 0 <= k < |violations| && violations[k] == identity;
      assert paths[k] == path;
    }
  }

  /** The check passes exactly when every activity of every manifest has a label or is exempt. */
  lemma CheckPassesIff(root: string, manifests: seq<Manifest>, exempt: set<string>)
    ensures Check(root, manifests, exempt) == Pass <==>
      forall i, j :: 0 <= i < |manifests| && 0 <= j < |manifests[i].activities| ==>
        !IsViolation(manifests, exempt, i, j)
  {
    var paths := MissingLabelPaths(manifests, exempt);
    if |paths| > 0 {
      MissingLabelPathsMembership(manifests, exempt, paths[0]);
    }
    if exists i, j :: 0 <= i < |manifests| && 0 <= j < |manifests[i].activities| &&
        IsViolation(manifests, exempt, i, j) {
      var i, j :| 0 <= i < |manifests| && 0 <= j < |manifests[i].activities| &&
        IsViolation(manifests, exempt, i, j);
      MissingLabelPathsMembership(manifests, exempt,
        ActivityPath(ResolveName(manifests[i].package, manifests[i].activities[j].name)));
    }
  }

  /** When every activity has a label, the run prints the PASS indicator alone, whatever is exempt. */
  lemma AllLabelledPasses(root: string, manifests: seq<Manifest>, exempt: set<string>)
    requires forall i, j :: 0 <= i < |manifests| && 0 <= j < |manifests[i].activities| ==>
      manifests[i].activities[j].hasLabel
    ensures Stdout(Check(root, manifests, exempt), PassedIndicator) == PassedIndicator
    ensures Raised(Check(root, manifests, exempt), FailedIndicator) == None
  {
    CheckPassesIff(root, manifests, exempt);
  }

  /**
   * A failing run raises the FAIL indicator and prints the header, one `- <root>/<path>` line per
   * listed path in sorted order, a blank line and the two notes.
   */
  lemma FailureReportLayout(root: string, manifests: seq<Manifest>, exempt: set<string>)
    requires Check(root, manifests, exempt).Fail?
    ensures Raised(Check(root, manifests, exempt), FailedIndicator) == Some(FailedIndicator)
    ensures var lines := Check(root, manifests, exempt).report;
      var paths := MissingLabelPaths(manifests, exempt);
      && |paths| > 0
      && |lines| == |paths| + 4
      && lines[0] == Header
      && (forall k :: 0 <= k < |paths| ==> lines[k + 1] == "- " + root + "/" + paths[k])
      && lines[|paths| + 1..] == ["", FailureNotePartOne, FailureNotePartTwo]
  {
    var paths := MissingLabelPaths(manifests, exempt);
    var lines := ReportLines(root, paths);
    assert lines[|paths| + 1..] == ["", FailureNotePartOne, FailureNotePartTwo];
  }

  /** The listed order is also the order of the full paths the report prints. */
  lemma PrintedPathsSorted(root: string, manifests: seq<Manifest>, exempt: set<string>)
    ensures var paths := MissingLabelPaths(manifests, exempt);
      Sorted(seq(|paths|, k requires 0 <= k < |paths| => root + "/" + paths[k]))
  {
    MissingLabelPathsSortedDistinct(manifests, exempt);
    PrefixedSorted(root + "/", MissingLabelPaths(manifests, exempt));
    var paths := MissingLabelPaths(manifests, exempt);
    assert seq(|paths|, k requires 0 <= k < |paths| => root + "/" + paths[k])
      == seq(|paths|, k requires 0 <= k < |paths| => (root + "/") + paths[k]);
  }

  /**
   * The outcome depends on the violations alone, not on the order the activities are declared in or
   * the manifests are given in.
   */
  lemma CheckIgnoresOrder(root: string, m1: seq<Manifest>, m2: seq<Manifest>, exempt: set<string>)
    requires multiset(Violations(m1, exempt)) == multiset(Violations(m2, exempt))
    ensures Check(root, m1, exempt) == Check(root, m2, exempt)
  {
    FlatMapPermutation(PathStep(), Violations(m1, exempt), Violations(m2, exempt));
    SortIgnoresOrder(ActivityPaths(Violations(m1, exempt)), ActivityPaths(Violations(m2, exempt)));
  }

  /** Reordering the declarations of a manifest changes nothing in the outcome. */
  lemma CheckIgnoresDeclarationOrder(root: string, package: string, a1: seq<Activity>, a2: seq<Activity>,
                                     others: seq<Manifest>, exempt: set<string>)
    requires multiset(a1) == multiset(a2)
    ensures Check(root, [Manifest(package, a1)] + others, exempt) == Check(root, [Manifest(package, a2)] + others, exempt)
  {
    FlatMapPermutation(ActivityStep(package, exempt), a1, a2);
    var m1, m2 := [Manifest(package, a1)] + others, [Manifest(package, a2)] + others;
    assert m1[1..] == others == m2[1..];
    CheckIgnoresOrder(root, m1, m2, exempt);
  }

  /** Giving the manifests in another order changes nothing in the outcome. */
  lemma CheckIgnoresManifestOrder(root: string, m1: seq<Manifest>, m2: seq<Manifest>, exempt: set<string>)
    requires multiset(m1) == multiset(m2)
    ensures Check(root, m1, exempt) == Check(root, m2, exempt)
  {
    FlatMapPermutation(ManifestStep(exempt), m1, m2);
    CheckIgnoresOrder(root, m1, m2, exempt);
  }
}
