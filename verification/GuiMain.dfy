/** The validator's entry point: validate, publish, release the display. */
module GuiMain {
  import opened GuiValidate
  import opened Publication
  import opened ValidationRecord
  import opened Wrappers

  const EXIT_UNCAUGHT := 1

  /** What decides the exit code of a run with a result. */
  ghost predicate Delivered(p: Publisher)
    reads p
  {
    p.acquired && p.reserved && !p.FailedSince(0)
  }

  method PublishRecord(record: Record, acquired: bool, disk: nat -> bool, directoryEmpty: bool,
                       receipt: Option<File<Record>>, summary: Option<File<Summary>>)
    returns (code: int, p: Publisher)
    requires Consistent(record) && !Marked(record)
    ensures fresh(p) && p.disk == disk && p.acquired == acquired
    ensures Delivered(p) ==> p.Published() && code == ExitCode(p.record.overall)
    ensures !Delivered(p) ==> code == 2
    ensures Delivered(p) ==>
              code == if p.record == record && record.overall == Pass then 0
                      else if record.overall == Fail then 1 else 2
    ensures Marked(p.record) || p.record == record
    ensures p.record.overall == if p.record != record && record.overall == Pass then Blocked else record.overall
    ensures code == EXIT_PASS ==> p.Published() && p.record == record && record.overall == Pass
    ensures p.ShowsPass() && code != EXIT_PASS ==> p.receipt == receipt || p.unlinkFailed
  {
    var reserved: bool := *;
    var pending: seq<int> := *;
    p := new Publisher(disk, acquired, reserved, directoryEmpty, pending, record, receipt, summary);
    code := p.Publish();
  }

  /** Exit code 0 means that result.json is the complete record of a run in which every stage and
      the cleanup passed; a passing receipt beside any other code was there before, or could not
      be removed.  There is a publisher unless the run raised what nothing catches. */
  method ValidateAndPublish(v: Validator, disk: nat -> bool, directoryEmpty: bool, receipt: Option<File<Record>>,
                            summary: Option<File<Summary>>)
    returns (code: int, p: Publisher?)
    requires v.pollInterval > 0 && v.Ready()
    modifies v
    ensures v.openFds == {} && Complete(v.steps)
    ensures p == null <==> v.raised == Some(Uncaught)
    ensures p == null ==> code == 1 && v.env.RaisesOther()
    ensures p != null ==> fresh(p) && p.disk == disk && p.acquired == v.acquired
    ensures p != null && Delivered(p) ==> p.Published() && code == ExitCode(p.record.overall)
    ensures p != null && !Delivered(p) ==> code == 2
    // Without an abort after the run, what is published is the record of the run.
    ensures p != null ==> (Marked(p.record) || p.record == Finalize(v.steps))
    ensures code == EXIT_PASS ==>
              && p != null && p.Published() && p.record == Finalize(v.steps) && AllPass(v.steps)
                 && Validated(v.looks, v.expected)
              && (v.launched.Some? ==> !v.childAlive)
    ensures p != null && p.ShowsPass() && code != EXIT_PASS ==> p.receipt == receipt || p.unlinkFailed
    // With nothing going wrong in the run, on the disk, or by signal, the exit code is 0.
    ensures v.trouble == Nothing && p != null && Delivered(p) && !Marked(p.record) ==> code == EXIT_PASS
    ensures v.trouble == AtImage ==> p == null
    // Delivered, 0 is a pass with no abort after it, 1 a failed build, start or child, and 2 the rest.
    ensures p != null && Delivered(p) ==>
              code == if AllPass(v.steps) && p.record == Finalize(v.steps) then 0 else if v.Failing() then 1 else 2
  {
    var result := v.RunValidation();
    p, code := null, EXIT_UNCAUGHT;
    if result.Some? {
      code, p := PublishRecord(result.value, v.acquired, disk, directoryEmpty, receipt, summary);
    }
    v.ReleaseExecution();
  }
}
