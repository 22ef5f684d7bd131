/**
 * What the accessibility label check gives for the manifests of its test suite. The test root is any directory;
 * the exemption list is any set that holds exactly what each run needs of it. Every missing path is
 * written as the source root `app/src/main/java/` followed by the class's package directory and name.
 */
module AccessibilityLabelScenarios {
  import opened Options
  import opened LexOrder
  import opened CheckOutcome
  import opened AccessibilityLabelCheck
  import opened AccessibilityLabelSteps

  const OppiaPackage := "org.oppia.android"
  const SplashPackage := "org.oppia.android.splash"
  const OppiaPath := "org/oppia/android"
  const SplashPath := "org/oppia/android/splash"
  const AppRoot := ActivityPathPrefix + OppiaPath

  /** The package directories of the test manifests. */
  lemma OppiaPackagePath()
    ensures DotsToSlashes(OppiaPackage) == OppiaPath
  {
    var r := DotsToSlashes(OppiaPackage);
    assert forall i :: 0 <= i < |r| ==> r[i] == OppiaPath[i];
  }

  lemma SplashPackagePath()
    ensures DotsToSlashes(SplashPackage) == SplashPath
  {
    var r := DotsToSlashes(SplashPackage);
    assert forall i :: 0 <= i < |r| ==> r[i] == SplashPath[i];
  }

  /** Every class of the top-level `app` package sorts before every class of the splash package. */
  lemma AppBeforeSplash(x: string, b: string)
    requires |x| > 1 && x[0] == '/' && x[1] == 'a'
    ensures LexLe(AppRoot + x, ActivityPathPrefix + SplashPath + b)
    ensures AppRoot + x != ActivityPathPrefix + SplashPath + b
  {
    var y := "/splash" + b;
    assert SplashPath == OppiaPath + "/splash";
    assert x[..1] == [x[0]] == [y[0]] == y[..1] && x[1] < y[1];
    LexLeFirstDifference(x, y, 1);
    LexLeCommonPrefix(OppiaPath, x, y);
    LexLeCommonPrefix(ActivityPathPrefix, OppiaPath + x, OppiaPath + y);
    assert AppRoot + x == ActivityPathPrefix + (OppiaPath + x);
    assert ActivityPathPrefix + SplashPath + b == ActivityPathPrefix + (OppiaPath + y) == AppRoot + y;
    assert (AppRoot + x)[|AppRoot| + 1] == x[1] && (AppRoot + y)[|AppRoot| + 1] == y[1];
  }

  /** Paths below the same directory that first differ at position `k` of their remainders are ordered by it. */
  lemma SameDirectoryInOrder(dir: string, a: string, b: string, k: nat)
    requires k < |a| && k < |b| && a[..k] == b[..k] && a[k] < b[k]
    ensures LexLe(dir + a, dir + b) && dir + a != dir + b
  {
    LexLeFirstDifference(a, b, k);
    LexLeCommonPrefix(dir, a, b);
    assert (dir + a)[|dir| + k] == a[k] && (dir + b)[|dir| + k] == b[k];
  }

  /** The path of `SecondSplashActivity` of the splash package. */
  lemma SecondSplashPath()
    ensures ActivityPath(SplashPackage + ".SecondSplashActivity") == ActivityPathPrefix + SplashPath + "/SecondSplashActivity"
  {
    SplashPackagePath();
    var r := DotsToSlashes(".SecondSplashActivity");
    assert forall i :: 0 <= i < |r| ==> r[i] == "/SecondSplashActivity"[i];
    QualifiedPath(SplashPackage, SplashPath, ".SecondSplashActivity", "/SecondSplashActivity");
  }

  /** Where the unlabelled app classes of the test manifests live. */
  lemma TempActivityPath()
    ensures ActivityPath(OppiaPackage + ".app.TempActivity") == AppRoot + "/app/TempActivity"
  {
    OppiaPackagePath();
    var r := DotsToSlashes(".app.TempActivity");
    assert forall i :: 0 <= i < |r| ==> r[i] == "/app/TempActivity"[i];
    QualifiedPath(OppiaPackage, OppiaPath, ".app.TempActivity", "/app/TempActivity");
  }

  lemma FirstTempActivityPath()
    ensures ActivityPath(OppiaPackage + ".app.FirstTempActivity") == AppRoot + "/app/FirstTempActivity"
  {
    OppiaPackagePath();
    var r := DotsToSlashes(".app.FirstTempActivity");
    assert forall i :: 0 <= i < |r| ==> r[i] == "/app/FirstTempActivity"[i];
    QualifiedPath(OppiaPackage, OppiaPath, ".app.FirstTempActivity", "/app/FirstTempActivity");
  }

  lemma ThirdTempActivityPath()
    ensures ActivityPath(OppiaPackage + ".app.ThirdTempActivity") == AppRoot + "/app/ThirdTempActivity"
  {
    OppiaPackagePath();
    var r := DotsToSlashes(".app.ThirdTempActivity");
    assert forall i :: 0 <= i < |r| ==> r[i] == "/app/ThirdTempActivity"[i];
    QualifiedPath(OppiaPackage, OppiaPath, ".app.ThirdTempActivity", "/app/ThirdTempActivity");
  }

  lemma FourthTempActivityPath()
    ensures ActivityPath(OppiaPackage + ".app.FourthTempActivity") == AppRoot + "/app/FourthTempActivity"
  {
    OppiaPackagePath();
    var r := DotsToSlashes(".app.FourthTempActivity");
    assert forall i :: 0 <= i < |r| ==> r[i] == "/app/FourthTempActivity"[i];
    QualifiedPath(OppiaPackage, OppiaPath, ".app.FourthTempActivity", "/app/FourthTempActivity");
  }

  /** The paths of the sorted run compare as First, Fourth, Third, then the splash class. */
  lemma SortedRunOrder()
    ensures LexLe(AppRoot + "/app/FirstTempActivity", AppRoot + "/app/FourthTempActivity")
    ensures AppRoot + "/app/FirstTempActivity" != AppRoot + "/app/FourthTempActivity"
    ensures LexLe(AppRoot + "/app/FourthTempActivity", AppRoot + "/app/ThirdTempActivity")
    ensures AppRoot + "/app/FourthTempActivity" != AppRoot + "/app/ThirdTempActivity"
    ensures LexLe(AppRoot + "/app/ThirdTempActivity", ActivityPathPrefix + SplashPath + "/SecondSplashActivity")
    ensures AppRoot + "/app/ThirdTempActivity" != ActivityPathPrefix + SplashPath + "/SecondSplashActivity"
  {
    SameDirectoryInOrder(AppRoot, "/app/FirstTempActivity", "/app/FourthTempActivity", 6);
    SameDirectoryInOrder(AppRoot, "/app/FourthTempActivity", "/app/ThirdTempActivity", 5);
    AppBeforeSplash("/app/ThirdTempActivity", "/SecondSplashActivity");
  }

  /** One manifest, both activities labelled: the run prints the PASS indicator alone. */
  lemma LabelPresentPasses(root: string, exempt: set<string>)
    ensures var manifests := [Manifest(SplashPackage, [Activity(".FirstSplashActivity", true),
                                                       Activity(".SecondSplashActivity", true)])];
      && Stdout(Check(root, manifests, exempt), PassedIndicator) == "ACCESSIBILITY LABEL CHECK PASSED"
      && Raised(Check(root, manifests, exempt), FailedIndicator) == None
  {
    var manifests := [Manifest(SplashPackage, [Activity(".FirstSplashActivity", true),
                                               Activity(".SecondSplashActivity", true)])];
    AllLabelledPasses(root, manifests, exempt);
  }

  /** One manifest, the second activity unlabelled: its path is the report's only bullet. */
  lemma LabelMissingFails(root: string, exempt: set<string>)
    requires SplashPackage + ".SecondSplashActivity" !in exempt
    ensures var manifests := [Manifest(SplashPackage, [Activity(".FirstSplashActivity", true),
                                                       Activity(".SecondSplashActivity", false)])];
      && Check(root, manifests, exempt)
         == Fail([Header, "- " + root + "/" + (ActivityPathPrefix + SplashPath + "/SecondSplashActivity"),
                  "", FailureNotePartOne, FailureNotePartTwo])
      && Raised(Check(root, manifests, exempt), FailedIndicator) == Some("ACCESSIBILITY LABEL CHECK FAILED")
  {
    var first, second := Activity(".FirstSplashActivity", true), Activity(".SecondSplashActivity", false);
    SecondOfTwoReported(SplashPackage, exempt, first, second);
    SecondSplashPath();
    OneManifestOneFailure(root, exempt, Manifest(SplashPackage, [first, second]), SplashPackage + second.name,
                          ActivityPathPrefix + SplashPath + "/SecondSplashActivity");
  }

  /** Two manifests, every activity labelled: the run passes. */
  lemma MultipleManifestsAllLabelledPass(root: string, exempt: set<string>)
    ensures var manifests := [Manifest(OppiaPackage, [Activity(".app.TempActivity", true),
                                                      Activity(".app.SecondTempActivity", true)]),
                              Manifest(SplashPackage, [Activity(".FirstSplashActivity", true),
                                                       Activity(".SecondSplashActivity", true)])];
      && Stdout(Check(root, manifests, exempt), PassedIndicator) == "ACCESSIBILITY LABEL CHECK PASSED"
      && Raised(Check(root, manifests, exempt), FailedIndicator) == None
  {
    var manifests := [Manifest(OppiaPackage, [Activity(".app.TempActivity", true),
                                              Activity(".app.SecondTempActivity", true)]),
                      Manifest(SplashPackage, [Activity(".FirstSplashActivity", true),
                                               Activity(".SecondSplashActivity", true)])];
    AllLabelledPasses(root, manifests, exempt);
  }

  /** Two manifests with one unlabelled activity each: both are reported, the app one first. */
  lemma AllFailuresLogged(root: string, exempt: set<string>)
    requires OppiaPackage + ".app.TempActivity" !in exempt
    requires SplashPackage + ".SecondSplashActivity" !in exempt
    ensures var manifests := [Manifest(OppiaPackage, [Activity(".app.TempActivity", false),
                                                      Activity(".app.SecondTempActivity", true)]),
                              Manifest(SplashPackage, [Activity(".FirstSplashActivity", true),
                                                       Activity(".SecondSplashActivity", false)])];
      && Check(root, manifests, exempt)
         == Fail([Header, "- " + root + "/" + (AppRoot + "/app/TempActivity"),
                  "- " + root + "/" + (ActivityPathPrefix + SplashPath + "/SecondSplashActivity"),
                  "", FailureNotePartOne, FailureNotePartTwo])
      && Raised(Check(root, manifests, exempt), FailedIndicator) == Some("ACCESSIBILITY LABEL CHECK FAILED")
  {
    var temp, secondTemp := Activity(".app.TempActivity", false), Activity(".app.SecondTempActivity", true);
    var first, second := Activity(".FirstSplashActivity", true), Activity(".SecondSplashActivity", false);
    var p1, p2 := AppRoot + "/app/TempActivity", ActivityPathPrefix + SplashPath + "/SecondSplashActivity";
    FirstOfTwoReported(OppiaPackage, exempt, temp, secondTemp);
    SecondOfTwoReported(SplashPackage, exempt, first, second);
    TempActivityPath();
    SecondSplashPath();
    AppBeforeSplash("/app/TempActivity", "/SecondSplashActivity");
    TwoManifestsOneFailureEach(root, exempt, Manifest(OppiaPackage, [temp, secondTemp]),
                               Manifest(SplashPackage, [first, second]),
                               OppiaPackage + temp.name, SplashPackage + second.name, p1, p2);
  }

  /**
   * Four unlabelled activities over two manifests, found as Fourth, Third, First, SecondSplash:
   * the report lists them in lexicographic order of their paths.
   */
  lemma FailuresSorted(root: string, exempt: set<string>)
    requires OppiaPackage + ".app.FourthTempActivity" !in exempt
    requires OppiaPackage + ".app.ThirdTempActivity" !in exempt
    requires OppiaPackage + ".app.FirstTempActivity" !in exempt
    requires SplashPackage + ".SecondSplashActivity" !in exempt
    ensures var manifests := [
              Manifest(OppiaPackage, [Activity(".app.FourthTempActivity", false),
                                      Activity(".app.ThirdTempActivity", false),
                                      Activity(".app.FirstTempActivity", false),
                                      Activity(".app.SecondTempActivity", true)]),
              Manifest(SplashPackage, [Activity(".FirstSplashActivity", true),
                                       Activity(".SecondSplashActivity", false)])];
      && Check(root, manifests, exempt)
         == Fail([Header, "- " + root + "/" + (AppRoot + "/app/FirstTempActivity"),
                  "- " + root + "/" + (AppRoot + "/app/FourthTempActivity"),
                  "- " + root + "/" + (AppRoot + "/app/ThirdTempActivity"),
                  "- " + root + "/" + (ActivityPathPrefix + SplashPath + "/SecondSplashActivity"),
                  "", FailureNotePartOne, FailureNotePartTwo])
      && Raised(Check(root, manifests, exempt), FailedIndicator) == Some("ACCESSIBILITY LABEL CHECK FAILED")
  {
    var fourth, third := Activity(".app.FourthTempActivity", false), Activity(".app.ThirdTempActivity", false);
    var first, secondTemp := Activity(".app.FirstTempActivity", false), Activity(".app.SecondTempActivity", true);
    var firstSplash, secondSplash := Activity(".FirstSplashActivity", true), Activity(".SecondSplashActivity", false);
    var p1, p2 := AppRoot + "/app/FirstTempActivity", AppRoot + "/app/FourthTempActivity";
    var p3, p4 := AppRoot + "/app/ThirdTempActivity", ActivityPathPrefix + SplashPath + "/SecondSplashActivity";
    FirstThreeOfFourReported(OppiaPackage, exempt, fourth, third, first, secondTemp);
    SecondOfTwoReported(SplashPackage, exempt, firstSplash, secondSplash);
    FirstTempActivityPath();
    FourthTempActivityPath();
    ThirdTempActivityPath();
    SecondSplashPath();
    SortedRunOrder();
    TwoManifestsFourFailures(root, exempt, Manifest(OppiaPackage, [fourth, third, first, secondTemp]),
                             Manifest(SplashPackage, [firstSplash, secondSplash]),
                             OppiaPackage + first.name, OppiaPackage + fourth.name,
                             OppiaPackage + third.name, SplashPackage + secondSplash.name, p1, p2, p3, p4);
  }

  /** An unlabelled activity whose qualified name is on the exemption list does not fail the run. */
  lemma ExemptedActivityPasses(root: string, exempt: set<string>)
    requires OppiaPackage + ".app.home.HomeActivity" in exempt
    ensures var manifests := [Manifest(OppiaPackage, [Activity(".app.home.HomeActivity", false)])];
      && Stdout(Check(root, manifests, exempt), PassedIndicator) == "ACCESSIBILITY LABEL CHECK PASSED"
      && Raised(Check(root, manifests, exempt), FailedIndicator) == None
  {
    var home := Activity(".app.home.HomeActivity", false);
    var m := Manifest(OppiaPackage, [home]);
    Exempted(OppiaPackage, exempt, home);
    OneActivity(OppiaPackage, exempt, home);
    OneManifest(m, exempt);
    PassesWithout(root, [m], exempt);
  }
}
