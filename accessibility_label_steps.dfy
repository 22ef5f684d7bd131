/**
 * Facts about the accessibility label check stated for any names: how a manifest's violations,
 * the paths and the report are assembled from their parts. The statements about the manifests of the
 * check's test suite are proved from these, each supplying only the facts about its own names.
 */
module AccessibilityLabelSteps {
  import opened Options
  import opened LexOrder
  import opened Sequences
  import opened CheckOutcome
  import opened AccessibilityLabelCheck

  /** An unlabelled activity declared relative to its package, not exempt, is reported under its qualified name. */
  lemma Reported(package: string, exempt: set<string>, a: Activity)
    requires StartsWithDot(a.name) && !a.hasLabel && package + a.name !in exempt
    ensures ActivityViolation(package, exempt, a) == [package + a.name]
  {
  }

  /** A labelled activity is never reported. */
  lemma Labelled(package: string, exempt: set<string>, a: Activity)
    requires a.hasLabel
    ensures ActivityViolation(package, exempt, a) == []
  {
  }

  /** An activity declared relative to its package whose qualified name is exempt is not reported. */
  lemma Exempted(package: string, exempt: set<string>, a: Activity)
    requires StartsWithDot(a.name) && package + a.name in exempt
    ensures ActivityViolation(package, exempt, a) == []
  {
  }

  /** A manifest's violations, activity by activity. */
  lemma OneActivity(package: string, exempt: set<string>, a: Activity)
    ensures ManifestViolations(Manifest(package, [a]), exempt) == ActivityViolation(package, exempt, a)
  {
    FlatMapSingle(ActivityStep(package, exempt), a);
  }

  lemma TwoActivities(package: string, exempt: set<string>, a: Activity, b: Activity)
    ensures ManifestViolations(Manifest(package, [a, b]), exempt)
         == ActivityViolation(package, exempt, a) + ActivityViolation(package, exempt, b)
  {
    var f := ActivityStep(package, exempt);
    assert [a, b] == [a] + [b];
    FlatMapAppend(f, [a], [b]);
    FlatMapSingle(f, a);
    FlatMapSingle(f, b);
  }

  lemma FourActivities(package: string, exempt: set<string>, a: Activity, b: Activity, c: Activity, d: Activity)
    ensures ManifestViolations(Manifest(package, [a, b, c, d]), exempt)
         == ActivityViolation(package, exempt, a) + ActivityViolation(package, exempt, b)
          + ActivityViolation(package, exempt, c) + ActivityViolation(package, exempt, d)
  {
    var f := ActivityStep(package, exempt);
    assert [a, b, c, d] == [a, b] + [c, d];
    FlatMapAppend(f, [a, b], [c, d]);
    TwoActivities(package, exempt, a, b);
    TwoActivities(package, exempt, c, d);
  }

  /** The violations of several manifests, manifest by manifest. */
  lemma OneManifest(m: Manifest, exempt: set<string>)
    ensures Violations([m], exempt) == ManifestViolations(m, exempt)
  {
    FlatMapSingle(ManifestStep(exempt), m);
  }

  lemma TwoManifests(m1: Manifest, m2: Manifest, exempt: set<string>)
    ensures Violations([m1, m2], exempt) == ManifestViolations(m1, exempt) + ManifestViolations(m2, exempt)
  {
    var f := ManifestStep(exempt);
    assert [m1, m2] == [m1] + [m2];
    FlatMapAppend(f, [m1], [m2]);
    FlatMapSingle(f, m1);
    FlatMapSingle(f, m2);
  }

  /** The source path of `name` declared relative to a package whose directory is known. */
  lemma QualifiedPath(package: string, packagePath: string, name: string, slashed: string)
    requires DotsToSlashes(package) == packagePath && DotsToSlashes(name) == slashed
    ensures ActivityPath(package + name) == ActivityPathPrefix + packagePath + slashed
  {
    DotsToSlashesAppend(package, name);
  }

  /** The paths of listed activities, in the same order. */
  lemma OnePath(x: string, px: string)
    requires ActivityPath(x) == px
    ensures ActivityPaths([x]) == [px]
  {
    ActivityPathsAt([x]);
  }

  lemma TwoPaths(x: string, y: string, px: string, py: string)
    requires ActivityPath(x) == px && ActivityPath(y) == py
    ensures ActivityPaths([x, y]) == [px, py]
  {
    ActivityPathsAt([x, y]);
  }

  lemma FourPaths(x: string, y: string, z: string, w: string, px: string, py: string, pz: string, pw: string)
    requires ActivityPath(x) == px && ActivityPath(y) == py && ActivityPath(z) == pz && ActivityPath(w) == pw
    ensures ActivityPaths([x, y, z, w]) == [px, py, pz, pw]
  {
    ActivityPathsAt([x, y, z, w]);
  }

  /** Four different strings in order at each step are sorted, without repeats. */
  lemma FourSorted(a: string, b: string, c: string, d: string)
    requires LexLe(a, b) && LexLe(b, c) && LexLe(c, d) && a != b && b != c && c != d
    ensures Sorted([a, b, c, d])
    ensures forall k :: 0 <= k < |[a, b, c, d]| - 1 ==> [a, b, c, d][k] != [a, b, c, d][k + 1]
  {
    LexLeTransitive(a, b, c);
    LexLeTransitive(b, c, d);
    LexLeTransitive(a, c, d);
  }

  lemma LastSplit(a: string, b: string, c: string, d: string)
    ensures multiset([a, b, c, d]) == multiset([a, b, c]) + multiset{d}
  {
    assert [a, b, c, d] == [a, b, c] + [d];
  }

  lemma RotateThree(a: string, b: string, c: string)
    ensures multiset([a, b, c]) == multiset([c, a, b])
  {
  }

  /** Moving the third of four elements to the front keeps the same multiset. */
  lemma ThirdFirst(a: string, b: string, c: string, d: string)
    ensures multiset([a, b, c, d]) == multiset([c, a, b, d])
  {
    LastSplit(a, b, c, d);
    RotateThree(a, b, c);
    LastSplit(c, a, b, d);
  }

  /** A run with no violations prints the PASS indicator alone and raises nothing. */
  lemma PassesWithout(root: string, manifests: seq<Manifest>, exempt: set<string>)
    requires Violations(manifests, exempt) == []
    ensures Stdout(Check(root, manifests, exempt), PassedIndicator) == "ACCESSIBILITY LABEL CHECK PASSED"
    ensures Raised(Check(root, manifests, exempt), FailedIndicator) == None
  {
    assert ActivityPaths([]) == [];
    assert Sort([]) == [];
  }

  /** A failing run whose missing paths, sorted, are `paths`. */
  lemma FailsWith(root: string, manifests: seq<Manifest>, exempt: set<string>, paths: seq<string>)
    requires |paths| > 0 && Sorted(paths) && forall k :: 0 <= k < |paths| - 1 ==> paths[k] != paths[k + 1]
    requires multiset(paths) == multiset(ActivityPaths(Violations(manifests, exempt)))
    ensures Check(root, manifests, exempt) == Fail(ReportLines(root, paths))
    ensures Raised(Check(root, manifests, exempt), FailedIndicator) == Some("ACCESSIBILITY LABEL CHECK FAILED")
  {
    SortIsTheSortedPermutation(ActivityPaths(Violations(manifests, exempt)), paths);
    DropRepeatsWithoutRepeats(paths);
  }

  /** A failing run with one missing path. */
  lemma FailsWithOne(root: string, manifests: seq<Manifest>, exempt: set<string>, p1: string)
    requires ActivityPaths(Violations(manifests, exempt)) == [p1]
    ensures Check(root, manifests, exempt)
         == Fail([Header, "- " + root + "/" + p1, "", FailureNotePartOne, FailureNotePartTwo])
    ensures Raised(Check(root, manifests, exempt), FailedIndicator) == Some("ACCESSIBILITY LABEL CHECK FAILED")
  {
    FailsWith(root, manifests, exempt, [p1]);
    assert Bullets(root, [p1]) == ["- " + root + "/" + p1];
  }

  /** A failing run with two missing paths, found in sorted order. */
  lemma FailsWithTwo(root: string, manifests: seq<Manifest>, exempt: set<string>, p1: string, p2: string)
    requires ActivityPaths(Violations(manifests, exempt)) == [p1, p2] && LexLe(p1, p2) && p1 != p2
    ensures Check(root, manifests, exempt)
         == Fail([Header, "- " + root + "/" + p1, "- " + root + "/" + p2, "", FailureNotePartOne, FailureNotePartTwo])
    ensures Raised(Check(root, manifests, exempt), FailedIndicator) == Some("ACCESSIBILITY LABEL CHECK FAILED")
  {
    assert Sorted([p1, p2]);
    FailsWith(root, manifests, exempt, [p1, p2]);
    TwoBullets(root, p1, p2);
  }

  lemma TwoBullets(root: string, p1: string, p2: string)
    ensures ReportLines(root, [p1, p2])
         == [Header, "- " + root + "/" + p1, "- " + root + "/" + p2, "", FailureNotePartOne, FailureNotePartTwo]
  {
    assert Bullets(root, [p1, p2]) == ["- " + root + "/" + p1, "- " + root + "/" + p2];
  }

  /** A failing run with four missing paths, found with the third one first: the report lists them sorted. */
  lemma FailsWithFour(root: string, manifests: seq<Manifest>, exempt: set<string>,
                      p1: string, p2: string, p3: string, p4: string)
    requires ActivityPaths(Violations(manifests, exempt)) == [p2, p3, p1, p4]
    requires LexLe(p1, p2) && LexLe(p2, p3) && LexLe(p3, p4) && p1 != p2 && p2 != p3 && p3 != p4
    ensures Check(root, manifests, exempt)
         == Fail([Header, "- " + root + "/" + p1, "- " + root + "/" + p2, "- " + root + "/" + p3,
                  "- " + root + "/" + p4, "", FailureNotePartOne, FailureNotePartTwo])
    ensures Raised(Check(root, manifests, exempt), FailedIndicator) == Some("ACCESSIBILITY LABEL CHECK FAILED")
  {
    ThirdFirst(p2, p3, p1, p4);
    FourSorted(p1, p2, p3, p4);
    FailsWith(root, manifests, exempt, [p1, p2, p3, p4]);
    FourBullets(root, p1, p2, p3, p4);
  }

  lemma FourBullets(root: string, p1: string, p2: string, p3: string, p4: string)
    ensures ReportLines(root, [p1, p2, p3, p4])
         == [Header, "- " + root + "/" + p1, "- " + root + "/" + p2, "- " + root + "/" + p3,
             "- " + root + "/" + p4, "", FailureNotePartOne, FailureNotePartTwo]
  {
    assert Bullets(root, [p1, p2, p3, p4])
        == ["- " + root + "/" + p1, "- " + root + "/" + p2, "- " + root + "/" + p3, "- " + root + "/" + p4];
  }

  /** A manifest of two activities of which only the first is reported. */
  lemma FirstOfTwoReported(package: string, exempt: set<string>, a: Activity, b: Activity)
    requires StartsWithDot(a.name) && !a.hasLabel && package + a.name !in exempt && b.hasLabel
    ensures ManifestViolations(Manifest(package, [a, b]), exempt) == [package + a.name]
  {
    Reported(package, exempt, a);
    Labelled(package, exempt, b);
    TwoActivities(package, exempt, a, b);
  }

  /** A manifest of two activities of which only the second is reported. */
  lemma SecondOfTwoReported(package: string, exempt: set<string>, a: Activity, b: Activity)
    requires a.hasLabel && StartsWithDot(b.name) && !b.hasLabel && package + b.name !in exempt
    ensures ManifestViolations(Manifest(package, [a, b]), exempt) == [package + b.name]
  {
    Labelled(package, exempt, a);
    Reported(package, exempt, b);
    TwoActivities(package, exempt, a, b);
  }

  /** A manifest of four activities of which all but the last are reported, in document order. */
  lemma FirstThreeOfFourReported(package: string, exempt: set<string>, a: Activity, b: Activity, c: Activity, d: Activity)
    requires StartsWithDot(a.name) && !a.hasLabel && package + a.name !in exempt
    requires StartsWithDot(b.name) && !b.hasLabel && package + b.name !in exempt
    requires StartsWithDot(c.name) && !c.hasLabel && package + c.name !in exempt
    requires d.hasLabel
    ensures ManifestViolations(Manifest(package, [a, b, c, d]), exempt)
         == [package + a.name, package + b.name, package + c.name]
  {
    Reported(package, exempt, a);
    Reported(package, exempt, b);
    Reported(package, exempt, c);
    Labelled(package, exempt, d);
    FourActivities(package, exempt, a, b, c, d);
  }

  /** A run over one manifest with one violation fails and lists that violation's path. */
  lemma OneManifestOneFailure(root: string, exempt: set<string>, m: Manifest, id: string, p: string)
    requires ManifestViolations(m, exempt) == [id] && ActivityPath(id) == p
    ensures Check(root, [m], exempt) == Fail([Header, "- " + root + "/" + p, "", FailureNotePartOne, FailureNotePartTwo])
    ensures Raised(Check(root, [m], exempt), FailedIndicator) == Some("ACCESSIBILITY LABEL CHECK FAILED")
  {
    OneManifest(m, exempt);
    OnePath(id, p);
    FailsWithOne(root, [m], exempt, p);
  }

  /** A run over two manifests with one violation each lists both paths, which are in order. */
  lemma TwoManifestsOneFailureEach(root: string, exempt: set<string>, m1: Manifest, m2: Manifest,
                                   id1: string, id2: string, p1: string, p2: string)
    requires ManifestViolations(m1, exempt) == [id1] && ManifestViolations(m2, exempt) == [id2]
    requires ActivityPath(id1) == p1 && ActivityPath(id2) == p2 && LexLe(p1, p2) && p1 != p2
    ensures Check(root, [m1, m2], exempt)
         == Fail([Header, "- " + root + "/" + p1, "- " + root + "/" + p2, "", FailureNotePartOne, FailureNotePartTwo])
    ensures Raised(Check(root, [m1, m2], exempt), FailedIndicator) == Some("ACCESSIBILITY LABEL CHECK FAILED")
  {
    TwoManifests(m1, m2, exempt);
    assert Violations([m1, m2], exempt) == [id1, id2];
    TwoPaths(id1, id2, p1, p2);
    FailsWithTwo(root, [m1, m2], exempt, p1, p2);
  }

  /**
   * A run over two manifests, three violations in the first found as the second, third and first
   * in path order, and the last one in the second: the report lists the four paths sorted.
   */
  lemma TwoManifestsFourFailures(root: string, exempt: set<string>, m1: Manifest, m2: Manifest,
                                 i1: string, i2: string, i3: string, i4: string,
                                 p1: string, p2: string, p3: string, p4: string)
    requires ManifestViolations(m1, exempt) == [i2, i3, i1] && ManifestViolations(m2, exempt) == [i4]
    requires ActivityPath(i1) == p1 && ActivityPath(i2) == p2 && ActivityPath(i3) == p3 && ActivityPath(i4) == p4
    requires LexLe(p1, p2) && LexLe(p2, p3) && LexLe(p3, p4) && p1 != p2 && p2 != p3 && p3 != p4
    ensures Check(root, [m1, m2], exempt)
         == Fail([Header, "- " + root + "/" + p1, "- " + root + "/" + p2, "- " + root + "/" + p3,
                  "- " + root + "/" + p4, "", FailureNotePartOne, FailureNotePartTwo])
    ensures Raised(Check(root, [m1, m2], exempt), FailedIndicator) == Some("ACCESSIBILITY LABEL CHECK FAILED")
  {
    TwoManifests(m1, m2, exempt);
    assert Violations([m1, m2], exempt) == [i2, i3, i1, i4];
    FourPaths(i2, i3, i1, i4, p2, p3, p1, p4);
    FailsWithFour(root, [m1, m2], exempt, p1, p2, p3, p4);
  }
}
