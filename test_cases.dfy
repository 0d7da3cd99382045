/**
 * The update of the fetched test cases: the name map is built from the
 * shared steps, then every test case has its step text replaced by the
 * expanded text and its total step count set from that expanded text.
 */
module TestCases {
  import opened Wrappers
  import opened SharedSteps
  import opened Expander
  import opened StepCount

  /** A fetched test case record, of which the update rewrites two fields. */
  class TestCase {
    var number: int
    var humanReadableSteps: string
    /** `None` until the update sets `total_step_count`. */
    var totalStepCount: Option<nat>

    constructor (number: int, humanReadableSteps: string)
      ensures this.number == number && this.humanReadableSteps == humanReadableSteps
      ensures totalStepCount == None
    {
      this.number := number;
      this.humanReadableSteps := humanReadableSteps;
      totalStepCount := None;
    }
  }

  /** No record occurs twice in the list (each decoded JSON object is its own dict). */
  predicate Distinct(cases: seq<TestCase>) {
    forall i, j :: 0 <= i < j < |cases| ==> cases[i] != cases[j]
  }

  /**
   * What the loop writes into a record whose steps were `before`: the
   * expansion `after` of those steps, and the step count of `after`.
   */
  predicate Updated(before: string, after: string, count: Option<nat>, m: NameMap, fuel: nat) {
    ExpandText(before, m, fuel) == Some(after) && count == Some(TotalStepCount(after))
  }

  /**
   * The loop over the test cases. It returns the number of records updated:
   * all of them, unless expanding one nests deeper than `fuel`, where the
   * source's recursion would not finish. Each updated record holds the
   * expansion of its old text and the step count of that expansion; the
   * records from `done` on are as they were; no test case number changes.
   */
  method ExpandTestCases(sharedSteps: seq<SharedStep>, testCases: seq<TestCase>, fuel: nat) returns (done: nat)
    requires Distinct(testCases)
    modifies set t | t in testCases
    ensures done <= |testCases|
    ensures forall i :: 0 <= i < done ==> Updated(old(testCases[i].humanReadableSteps),
      testCases[i].humanReadableSteps, testCases[i].totalStepCount, BuildNameMap(sharedSteps), fuel)
    ensures done < |testCases| ==>
      ExpandText(old(testCases[done].humanReadableSteps), BuildNameMap(sharedSteps), fuel).None?
    ensures forall i :: done <= i < |testCases| ==>
      testCases[i].humanReadableSteps == old(testCases[i].humanReadableSteps) &&
      testCases[i].totalStepCount == old(testCases[i].totalStepCount)
    ensures forall i :: 0 <= i < |testCases| ==> testCases[i].number == old(testCases[i].number)
  {
    var m := BuildNameMap(sharedSteps);
    done := ExpandEach(testCases, m, fuel);
  }

  /** The loop itself, over the name map already built. */
  method ExpandEach(testCases: seq<TestCase>, m: NameMap, fuel: nat) returns (done: nat)
    requires Distinct(testCases)
    modifies set t | t in testCases
    ensures done <= |testCases|
    ensures forall i :: 0 <= i < done ==> Updated(old(testCases[i].humanReadableSteps),
      testCases[i].humanReadableSteps, testCases[i].totalStepCount, m, fuel)
    ensures done < |testCases| ==> ExpandText(old(testCases[done].humanReadableSteps), m, fuel).None?
    ensures forall i :: done <= i < |testCases| ==>
      testCases[i].humanReadableSteps == old(testCases[i].humanReadableSteps) &&
      testCases[i].totalStepCount == old(testCases[i].totalStepCount)
    ensures forall i :: 0 <= i < |testCases| ==> testCases[i].number == old(testCases[i].number)
  {
    ghost var before := Steps(testCases);
    ghost var beforeCounts := Counts(testCases);
    ghost var steps, counts := before, beforeCounts;
    done := 0;
    while done < |testCases|
      invariant done <= |testCases| && |steps| == |counts| == |testCases|
      invariant forall i :: 0 <= i < |testCases| ==>
        testCases[i].humanReadableSteps == steps[i] && testCases[i].totalStepCount == counts[i]
      invariant forall i :: 0 <= i < done ==> Updated(before[i], steps[i], counts[i], m, fuel)
      invariant forall i :: done <= i < |testCases| ==> steps[i] == before[i] && counts[i] == beforeCounts[i]
      invariant forall i :: 0 <= i < |testCases| ==> testCases[i].number == old(testCases[i].number)
    {
      var ok := UpdateTestCase(testCases[done], m, fuel);
      if !ok {
        return;
      }
      steps := steps[done := testCases[done].humanReadableSteps];
      counts := counts[done := testCases[done].totalStepCount];
      done := done + 1;
    }
  }

  /** The step texts of the records, in order. */
  ghost function Steps(cases: seq<TestCase>): (r: seq<string>)
    reads set t | t in cases
    ensures |r| == |cases| && forall i :: 0 <= i < |cases| ==> r[i] == cases[i].humanReadableSteps
  {
    seq(|cases|, i reads set t | t in cases requires 0 <= i < |cases| => cases[i].humanReadableSteps)
  }

  /** The step counts of the records, in order. */
  ghost function Counts(cases: seq<TestCase>): (r: seq<Option<nat>>)
    reads set t | t in cases
    ensures |r| == |cases| && forall i :: 0 <= i < |cases| ==> r[i] == cases[i].totalStepCount
  {
    seq(|cases|, i reads set t | t in cases requires 0 <= i < |cases| => cases[i].totalStepCount)
  }

  /**
   * The body of the loop for one record: its steps become their expansion
   * and its count the count of the expansion; when the expansion nests
   * deeper than `fuel`, the record is left as it was.
   */
  method UpdateTestCase(testCase: TestCase, m: NameMap, fuel: nat) returns (ok: bool)
    modifies testCase
    ensures ok == ExpandText(old(testCase.humanReadableSteps), m, fuel).Some?
    ensures ok ==> Updated(old(testCase.humanReadableSteps), testCase.humanReadableSteps, testCase.totalStepCount, m, fuel)
    ensures !ok ==> testCase.humanReadableSteps == old(testCase.humanReadableSteps)
    ensures !ok ==> testCase.totalStepCount == old(testCase.totalStepCount)
    ensures testCase.number == old(testCase.number)
  {
    var expanded := ExpandSteps(testCase.humanReadableSteps, m, fuel);
    if expanded.None? {
      return false;
    }
    testCase.humanReadableSteps := expanded.value;
    testCase.totalStepCount := Some(TotalStepCount(expanded.value));
    return true;
  }
}
