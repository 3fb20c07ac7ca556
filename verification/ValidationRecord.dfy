/** The result document of one GUI validation: what `run_validation` builds and `_publish_result` writes. */
module ValidationRecord {
  import opened Wrappers

  datatype Verdict = Pass | Fail | Blocked | Skipped

  datatype StepName =
    | Preflight | Build | Launch | WindowDiscovery | Capture
    | Cleanup | Setup | Run | SnapshotCleanup | PublicationAbort

  datatype Step = Step(name: StepName, verdict: Verdict, reason: Option<string>, signals: seq<int>)

  function MakeStep(name: StepName, verdict: Verdict, reason: Option<string>): Step {
    Step(name, verdict, reason, [])
  }

  /** The one-line summary is determined by the verdict and the joined reasons. */
  datatype Summary = Summary(overall: Verdict, reasons: seq<string>)

  datatype Record = Record(steps: seq<Step>, overall: Verdict, reasons: seq<string>, summary: Summary)

  /** A record as `finalize` leaves it: a decided verdict, and a summary that agrees with it. */
  predicate Consistent(r: Record) {
    r.overall != Skipped && r.summary == Summary(r.overall, r.reasons)
  }

  predicate Has(steps: seq<Step>, name: StepName) {
    exists i :: 0 <= i < |steps| && steps[i].name == name
  }

  function Count(steps: seq<Step>, name: StepName): nat {
    if steps == [] then 0 else Count(steps[..|steps| - 1], name) + if steps[|steps| - 1].name == name then 1 else 0
  }

  lemma CountAppend(steps: seq<Step>, step: Step, name: StepName)
    ensures Count(steps + [step], name) == Count(steps, name) + if step.name == name then 1 else 0
  {
    assert (steps + [step])[..|steps|] == steps;
  }

  lemma {:induction false} CountZeroIffAbsent(steps: seq<Step>, name: StepName)
    ensures Count(steps, name) == 0 <==> !Has(steps, name)
    decreases |steps|
  {
    if steps != [] {
      var init := steps[..|steps| - 1];
      CountZeroIffAbsent(init, name);
      assert steps == init + [steps[|steps| - 1]];
      if Has(init, name) {
        var i :| 0 <= i < |init| && init[i].name == name;
        assert steps[i].name == name;
      }
      if Has(steps, name) && steps[|steps| - 1].name != name {
        var i :| 0 <= i < |steps| && steps[i].name == name;
        assert init[i].name == name;
      }
    }
  }
}
