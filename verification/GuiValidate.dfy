/** One run of the GUI validator: acquire the display, check the checkout, build a snapshot of
    it, launch the program, find its window, capture it, and always clean up.

    Every call into the outside world may raise, an abort may arrive at any point of the try
    suite, and files, processes and the checkout may change at any time. */
module GuiValidate {
  import opened ValidationRecord
  import opened Wrappers

  // ---- Aggregation of steps

  function Priority(v: Verdict): nat {
    match v
    case Fail => 0
    case Blocked => 1
    case Pass => 2
    case Skipped => 3
  }

  /** The verdict of highest priority; skipped steps are not considered. */
  function Overall(steps: seq<Step>): Verdict {
    var worst := Worst(steps);
    if worst == Skipped then Blocked else worst
  }

  function Worst(steps: seq<Step>): Verdict {
    if steps == [] then Skipped
    else
      var rest, last := Worst(steps[..|steps| - 1]), steps[|steps| - 1].verdict;
      if Priority(last) < Priority(rest) then last else rest
  }

  predicate HasVerdict(steps: seq<Step>, v: Verdict) {
    exists i :: 0 <= i < |steps| && steps[i].verdict == v
  }

  lemma HasVerdictAppend(steps: seq<Step>, step: Step, v: Verdict)
    ensures HasVerdict(steps + [step], v) <==> HasVerdict(steps, v) || step.verdict == v
  {
    var all := steps + [step];
    assert all[|steps|] == step;
    if HasVerdict(steps, v) {
      var i :| 0 <= i < |steps| && steps[i].verdict == v;
      assert all[i].verdict == v;
    }
  }

  lemma {:induction false} WorstIs(steps: seq<Step>)
    ensures Worst(steps) == if HasVerdict(steps, Fail) then Fail else if HasVerdict(steps, Blocked) then Blocked
                            else if HasVerdict(steps, Pass) then Pass else Skipped
    decreases |steps|
  {
    if steps != [] {
      var init, last := steps[..|steps| - 1], steps[|steps| - 1];
      WorstIs(init);
      assert steps == init + [last];
      HasVerdictAppend(init, last, Fail);
      HasVerdictAppend(init, last, Blocked);
      HasVerdictAppend(init, last, Pass);
    }
  }

  function Reasons(steps: seq<Step>): seq<string> {
    if steps == [] then []
    else
      var last := steps[|steps| - 1];
      Reasons(steps[..|steps| - 1]) + if last.reason.Some? && last.verdict != Pass then [last.reason.value] else []
  }

  /** The reasons listed are those given for steps that did not pass. */
  lemma {:induction false} ReasonsExactly(steps: seq<Step>, reason: string)
    ensures reason in Reasons(steps) <==>
            exists i :: 0 <= i < |steps| && steps[i].verdict != Pass && steps[i].reason == Some(reason)
    decreases |steps|
  {
    if steps != [] {
      var init := steps[..|steps| - 1];
      ReasonsExactly(init, reason);
      assert forall i :: 0 <= i < |init| ==> init[i] == steps[i];
    }
  }

  function Finalize(steps: seq<Step>): Record {
    Record(steps, Overall(steps), Reasons(steps), Summary(Overall(steps), Reasons(steps)))
  }

  // ---- The five stages

  const STAGES := [Preflight, Build, Launch, WindowDiscovery, Capture]

  /** The names of the stage steps recorded, in order, other steps left out. */
  function StageNames(steps: seq<Step>): seq<StepName> {
    if steps == [] then []
    else
      var last := steps[|steps| - 1].name;
      StageNames(steps[..|steps| - 1]) + if last in STAGES then [last] else []
  }

  lemma StageNamesAppend(steps: seq<Step>, step: Step)
    ensures StageNames(steps + [step]) == StageNames(steps) + if step.name in STAGES then [step.name] else []
  {
    assert (steps + [step])[..|steps|] == steps;
  }

  lemma {:induction false} StageNamesHas(steps: seq<Step>, name: StepName)
    requires name in STAGES
    ensures name in StageNames(steps) <==> Has(steps, name)
    decreases |steps|
  {
    if steps != [] {
      var init, last := steps[..|steps| - 1], steps[|steps| - 1];
      StageNamesHas(init, name);
      assert steps == init + [last];
      HasAppend(init, last, name);
    }
  }

  lemma HasAppend(steps: seq<Step>, step: Step, name: StepName)
    ensures Has(steps + [step], name) <==> Has(steps, name) || step.name == name
  {
    var all := steps + [step];
    assert all[|steps|] == step;
    if Has(steps, name) {
      var i :| 0 <= i < |steps| && steps[i].name == name;
      assert all[i].name == name;
    }
  }

  /** A step is skipped only when some step did worse than pass. */
  predicate Explained(steps: seq<Step>) {
    HasVerdict(steps, Skipped) ==> Bad(steps)
  }

  predicate AllPass(steps: seq<Step>) {
    forall i :: 0 <= i < |steps| ==> steps[i].verdict == Pass
  }

  /** Although skipped steps are ignored, the verdict is pass exactly when every step passed. */
  lemma PassMeansAllPass(steps: seq<Step>)
    requires Explained(steps) && steps != []
    ensures Overall(steps) == Pass <==> AllPass(steps)
  {
    WorstIs(steps);
    if Overall(steps) == Pass {
      assert !HasVerdict(steps, Fail) && !HasVerdict(steps, Blocked) && !HasVerdict(steps, Skipped);
      forall i | 0 <= i < |steps| ensures steps[i].verdict == Pass {
        assert HasVerdict(steps, steps[i].verdict);
      }
    }
    if AllPass(steps) {
      assert steps[0].verdict == Pass;
    }
  }

  // ---- Which checkout was validated

  datatype Place = AtPreflight | BeforeBuild | SnapshotBefore | SnapshotAfter | AfterBuild

  /** One look at a checkout: its HEAD and whether it had no changes. */
  datatype Look = Look(place: Place, sha: string, clean: bool)

  /** What a passing run has established: preflight, the checkout before and after the build, and
      the clone before and after it were looked at in turn, all clean; the clone is what preflight
      and the caller asked for, when those name a commit at all. */
  predicate Validated(looks: seq<Look>, expected: Option<string>) {
    && |looks| == 5
    && looks[0] == Look(AtPreflight, looks[0].sha, true)
    && looks[1] == Look(BeforeBuild, looks[1].sha, true)
    && looks[2] == Look(SnapshotBefore, looks[2].sha, true)
    && looks[3] == Look(SnapshotAfter, looks[2].sha, true)
    && looks[4] == Look(AfterBuild, looks[1].sha, true)
    && (expected.Some? ==> looks[0].sha == expected.value)
    && (looks[0].sha != "" ==> looks[1].sha == looks[0].sha)
    && (looks[1].sha != "" ==> looks[2].sha == looks[1].sha)
  }

  /** The test made before the build and again after it. */
  predicate CheckoutAccepted(expected: Option<string>, baseline: string, sha: string, clean: bool) {
    clean && !(baseline != "" && sha != baseline) && !(expected.Some? && expected.value != "" && sha != expected.value)
  }

  ghost predicate LookedAfter(looks: seq<Look>) {
    looks != [] && looks[|looks| - 1].place == AfterBuild
  }

  /** The last look at the checkout, after the build, agrees with the one before it and is accepted. */
  ghost predicate Undisturbed(looks: seq<Look>, expected: Option<string>) {
    && |looks| > 1 && LookedAfter(looks) && looks[|looks| - 1].sha == looks[1].sha
    && CheckoutAccepted(expected, looks[0].sha, looks[1].sha, looks[|looks| - 1].clean)
  }

  /** The test compares with the SHA seen by preflight, or asked for, exactly when that SHA is not empty; it
      accepts a clean checkout of just that SHA and no other. */
  lemma BaselineComparedIffNonEmpty(baseline: string)
    ensures (forall sha :: CheckoutAccepted(None, baseline, sha, true) ==> sha == baseline) <==> baseline != ""
    ensures (forall sha :: CheckoutAccepted(Some(baseline), "", sha, true) ==> sha == baseline) <==> baseline != ""
    ensures CheckoutAccepted(Some(baseline), baseline, baseline, true)
    ensures !CheckoutAccepted(None, "", baseline, false)
  {
    assert baseline == "" ==> CheckoutAccepted(None, baseline, "a", true);
    assert baseline == "" ==> CheckoutAccepted(Some(baseline), "", "a", true);
  }

  // ---- The run

  datatype Fault = EnvironmentError | BuildFailure | OsError | Aborted | Uncaught

  /** The points where the run meets its surroundings. */
  datatype Site =
    | OpenLock | Flock | LockAborts
    | Head(place: Place) | Status(place: Place) | Tools
    | SourceHead | CloneRoot | CloneAborts | Clone | Cargo | Artifact
    | Prepare | OpenLog | Popen | CloseLog | LaunchAborts | LaunchPoll | WindowPoll
    | CaptureCommand | ImageCheck | Fallback
    | AfterStep | Skipping
    | CleanupPoll | Terminate | Kill | CleanupAborts | RemoveBuild

  /** What a run that fails has met. */
  datatype Event = BuildBroke | NotStarted | LogBroke | LaunchAborted | ExitedEarly

  function EventsOf(site: Site, fault: Option<Fault>): set<Event> {
    match (site, fault)
    case (Cargo, Some(BuildFailure)) => {BuildBroke}
    case (Artifact, Some(BuildFailure)) => {BuildBroke}
    case (Popen, Some(OsError)) => {NotStarted}
    case (CloseLog, Some(_)) => {LogBroke}
    case (LaunchAborts, Some(_)) => {LaunchAborted}
    case _ => {}
  }

  /** The stage that is active where a call is made; none between stages. */
  function StageOf(site: Site): Option<StepName> {
    match site
    case Tools => Some(Preflight)
    case Head(place) => Some(if place.AtPreflight? then Preflight else Build)
    case Status(place) => Some(if place.AtPreflight? then Preflight else Build)
    case SourceHead | CloneRoot | CloneAborts | Clone | Cargo | Artifact => Some(Build)
    case Prepare => Some(Setup)
    case OpenLog | Popen | CloseLog | LaunchAborts | LaunchPoll => Some(Launch)
    case WindowPoll => Some(WindowDiscovery)
    case CaptureCommand | ImageCheck | Fallback => Some(Capture)
    case _ => None
  }

  ghost predicate BlockedAt(steps: seq<Step>, name: StepName) {
    exists i :: 0 <= i < |steps| && steps[i].name == name && steps[i].verdict == Blocked
  }

  predicate Telling(site: Site) {
    site in {Cargo, Artifact, Popen, CloseLog, LaunchAborts}
  }

  /** What the surroundings do the nth time anything is asked of them: what a call raises, whether
      it finds what was hoped for, whether the child exits, what commit is checked
      out; and the commit that is there when nothing goes wrong. */
  datatype Environment = Environment(
    raises: (Site, nat) -> Option<Fault>,
    holds: (Site, nat) -> bool,
    exits: (Site, nat) -> bool,
    heads: (Site, nat) -> string,
    commit: string)
  {
    function Raise(site: Site, n: nat, kinds: set<Fault>): Option<Fault> {
      if raises(site, n).Some? && raises(site, n).value in kinds then raises(site, n) else None
    }

    /** Nothing goes wrong at a site: the child stays until told to stop. */
    ghost predicate Calm(site: Site) {
      forall n: nat ::
        raises(site, n) == None && holds(site, n) && exits(site, n) == site.Terminate? && heads(site, n) == commit
    }

    ghost predicate Always(site: Site, fault: Fault) {
      forall n: nat :: raises(site, n) == Some(fault)
    }

    /** Something other than an environment error, an OS error or an abort is raised somewhere. */
    ghost predicate RaisesOther() {
      exists site: Site, n: nat :: raises(site, n) == Some(Uncaught)
    }
  }

  /** The first `k` stages recorded once each, in order, and neither cleanup nor publication yet. */
  predicate Shape(steps: seq<Step>, k: nat) {
    k <= 5 && StageNames(steps) == STAGES[..k] && !Has(steps, Cleanup) && !Has(steps, PublicationAbort)
  }

  predicate Good(steps: seq<Step>, k: nat) {
    Shape(steps, k) && Explained(steps)
  }

  predicate Bad(steps: seq<Step>) {
    HasVerdict(steps, Fail) || HasVerdict(steps, Blocked)
  }

  lemma ShapeAppend(steps: seq<Step>, k: nat, step: Step)
    requires Shape(steps, k) && k < 5 && step.name == STAGES[k]
    ensures Shape(steps + [step], k + 1)
    ensures AllPass(steps + [step]) <==> AllPass(steps) && step.verdict == Pass
  {
    StageNamesAppend(steps, step);
    HasAppend(steps, step, Cleanup);
    HasAppend(steps, step, PublicationAbort);
    AllPassAppend(steps, step);
  }

  lemma GoodAppend(steps: seq<Step>, k: nat, step: Step)
    requires Good(steps, k) && k < 5 && step.name == STAGES[k]
    requires step.verdict == Skipped ==> Bad(steps)
    ensures Good(steps + [step], k + 1)
    ensures step.verdict != Pass ==> Bad(steps + [step])
    ensures AllPass(steps + [step]) <==> AllPass(steps) && step.verdict == Pass
  {
    ShapeAppend(steps, k, step);
    HasVerdictAppend(steps, step, Fail);
    HasVerdictAppend(steps, step, Blocked);
    HasVerdictAppend(steps, step, Skipped);
  }

  /** What is recorded for a stage that has no step: it was active when the run was cut short, or never reached. */
  function MissingStep(k: nat, active: Option<StepName>): Step
    requires k < 5
  {
    if active == Some(STAGES[k]) then MakeStep(STAGES[k], Blocked, Some("interrupted during this stage"))
    else MakeStep(STAGES[k], Skipped, Some("an earlier stage did not complete"))
  }

  function MissingSteps(k: nat, active: Option<StepName>): seq<Step>
    decreases 5 - k
  {
    if k >= 5 then [] else [MissingStep(k, active)] + MissingSteps(k + 1, active)
  }

  lemma {:induction false} MissingAppend(steps: seq<Step>, k: nat, active: Option<StepName>)
    requires Shape(steps, k)
    ensures Shape(steps + MissingSteps(k, active), 5)
    ensures AllPass(steps + MissingSteps(k, active)) <==> AllPass(steps) && k == 5
    ensures Explained(steps) && (k == 5 || Bad(steps)) ==> Explained(steps + MissingSteps(k, active))
    decreases 5 - k
  {
    if k == 5 {
      assert steps + MissingSteps(k, active) == steps;
    } else {
      var step := MissingStep(k, active);
      ShapeAppend(steps, k, step);
      HasVerdictAppend(steps, step, Fail);
      HasVerdictAppend(steps, step, Blocked);
      MissingAppend(steps + [step], k + 1, active);
      AppendThenMissing(steps, k, active);
    }
  }

  /** Of the stages without a step, in order, the active one is blocked and the others are skipped. */
  lemma {:induction false} MissingExactly(k: nat, i: nat, active: Option<StepName>)
    requires k <= i < 5
    ensures |MissingSteps(k, active)| == 5 - k
    ensures MissingSteps(k, active)[i - k].name == STAGES[i]
    ensures MissingSteps(k, active)[i - k].verdict == if active == Some(STAGES[i]) then Blocked else Skipped
    decreases 5 - k
  {
    if k < i {
      MissingExactly(k + 1, i, active);
    } else if k < 4 {
      MissingExactly(k + 1, k + 1, active);
    }
  }

  /** What is filled in has not failed. */
  lemma {:induction false} MissingNotFail(steps: seq<Step>, k: nat, active: Option<StepName>)
    ensures HasVerdict(steps + MissingSteps(k, active), Fail) <==> HasVerdict(steps, Fail)
    decreases 5 - k
  {
    if k < 5 {
      HasVerdictAppend(steps, MissingStep(k, active), Fail);
      MissingNotFail(steps + [MissingStep(k, active)], k + 1, active);
      AppendThenMissing(steps, k, active);
    } else {
      assert steps + MissingSteps(k, active) == steps;
    }
  }

  lemma AppendThenMissing(steps: seq<Step>, k: nat, active: Option<StepName>)
    requires k < 5
    ensures (steps + [MissingStep(k, active)]) + MissingSteps(k + 1, active) == steps + MissingSteps(k, active)
  {
  }

  /** The next stage is the first without a step. */
  lemma NextMissing(steps: seq<Step>, k: nat, i: nat)
    requires Shape(steps, k) && i < 5
    ensures Has(steps, STAGES[i]) <==> i < k
  {
    StageNamesHas(steps, STAGES[i]);
    StagesPrefixHas(k, i);
  }

  lemma AllPassAppend(steps: seq<Step>, step: Step)
    ensures AllPass(steps + [step]) <==> AllPass(steps) && step.verdict == Pass
  {
    var all := steps + [step];
    assert all[|steps|] == step;
    if AllPass(all) {
      forall i | 0 <= i < |steps| ensures steps[i].verdict == Pass {
        assert all[i].verdict == Pass;
      }
    }
  }

  /** A step outside the five stages, recorded for what the try suite raised. */
  lemma GoodAppendOther(steps: seq<Step>, k: nat, step: Step)
    requires Good(steps, k) && step.name in {Setup, Run} && step.verdict == Blocked
    ensures Good(steps + [step], k) && Bad(steps + [step]) && !AllPass(steps + [step])
  {
    StageNamesAppend(steps, step);
    HasAppend(steps, step, Cleanup);
    HasAppend(steps, step, PublicationAbort);
    HasVerdictAppend(steps, step, Fail);
    HasVerdictAppend(steps, step, Blocked);
    AllPassAppend(steps, step);
  }

  /** All five stages and the cleanup recorded, each once, the stages in order. */
  predicate Complete(steps: seq<Step>) {
    StageNames(steps) == STAGES && Count(steps, Cleanup) == 1 && !Has(steps, PublicationAbort)
  }

  lemma CompleteByCleanup(steps: seq<Step>, step: Step)
    requires Shape(steps, 5) && step.name == Cleanup && step.verdict != Skipped
    ensures Complete(steps + [step])
    ensures Explained(steps) ==> Explained(steps + [step])
    ensures AllPass(steps + [step]) <==> AllPass(steps) && step.verdict == Pass
  {
    CountZeroIffAbsent(steps, Cleanup);
    CountAppend(steps, step, Cleanup);
    StageNamesAppend(steps, step);
    HasAppend(steps, step, PublicationAbort);
    AllPassAppend(steps, step);
    HasVerdictAppend(steps, step, Fail);
    HasVerdictAppend(steps, step, Blocked);
    HasVerdictAppend(steps, step, Skipped);
  }

  lemma CompleteAppend(steps: seq<Step>, step: Step)
    requires Complete(steps) && step.name == SnapshotCleanup && step.verdict == Blocked
    ensures Complete(steps + [step]) && Explained(steps + [step]) && !AllPass(steps + [step])
  {
    CountAppend(steps, step, Cleanup);
    StageNamesAppend(steps, step);
    HasAppend(steps, step, PublicationAbort);
    AllPassAppend(steps, step);
    HasVerdictAppend(steps, step, Blocked);
  }

  /** Environments of which it is known how the run ends. */
  datatype Trouble = Anything | Nothing | AtLog | AtImage | AtCargo

  /** Nothing goes wrong, except that closing the child's log always does, or the first check of
      the image, or the compiler; what was asked for is checked out, and there is time to look for a window. */
  ghost predicate Describes(trouble: Trouble, env: Environment, expected: Option<string>, windowTimeout: nat) {
    && (forall site: Site :: Quiet(trouble, site) ==> env.Calm(site))
    && (trouble == AtLog ==> env.Always(CloseLog, OsError))
    && (trouble == AtImage ==> env.Always(ImageCheck, Uncaught))
    && (trouble == AtCargo ==> env.Always(Cargo, BuildFailure))
    && (trouble != Anything ==> windowTimeout > 0 && (expected.Some? ==> expected.value == env.commit))
  }

  predicate Quiet(trouble: Trouble, site: Site) {
    && trouble != Anything && !(trouble == AtLog && site.CloseLog?) && !(trouble == AtImage && site.ImageCheck?)
    && !(trouble == AtCargo && site.Cargo?)
  }

  /** The first `i` stages filled in where they were missing from `was`. */
  ghost predicate Filled(was: seq<Step>, steps: seq<Step>, k: nat, i: nat, active: Option<StepName>) {
    var done := if i < k then k else i;
    Shape(steps, done) && steps + MissingSteps(done, active) == was + MissingSteps(k, active)
  }

  lemma FillNext(was: seq<Step>, steps: seq<Step>, k: nat, i: nat, active: Option<StepName>)
    requires i < 5 && Filled(was, steps, k, i, active)
    ensures Has(steps, STAGES[i]) <==> i < k
    ensures i < k ==> Filled(was, steps, k, i + 1, active)
    ensures i >= k ==> Filled(was, steps + [MissingStep(i, active)], k, i + 1, active)
  {
    NextMissing(steps, if i < k then k else i, i);
    if i >= k {
      ShapeAppend(steps, i, MissingStep(i, active));
      AppendThenMissing(steps, i, active);
    }
  }

  function Only(x: Option<int>): set<int> {
    if x.Some? then {x.value} else {}
  }

  class Validator {
    const env: Environment
    const expected: Option<string>
    const startupTimeout: nat
    const windowTimeout: nat
    const pollInterval: nat
    const ownCommand: bool            // the capture command was given by the caller
    ghost const trouble: Trouble      // what is known about the environment
    var asked: nat                    // how often the environment has been asked something
    var steps: seq<Step>
    var activeStage: Option<StepName>
    var finalizing: bool
    var acquired: bool                // `_execution_acquired`
    var executionFd: Option<int>
    var openFds: set<int>             // descriptors this process has open on the lock
    var process: Option<int>          // `process_holder`
    var childAlive: bool
    var snapshot: Option<int>
    var tempDirs: set<int>            // build directories this process created
    var snapshotError: bool
    var now: int
    ghost var looks: seq<Look>
    ghost var launched: Option<int>   // the child actually started, if any
    ghost var logCloseFailed: bool    // closing its log failed right after it was started
    ghost var handed: seq<Option<int>>  // what cleanup was given
    ghost var raised: Option<Fault>   // what the try suite's calls raised last
    ghost var raisedAt: Option<Site>  // and where
    ghost var events: set<Event>      // which of the events that decide about failing were met

    constructor (env: Environment, expected: Option<string>, startupTimeout: nat, windowTimeout: nat,
                 pollInterval: nat, ownCommand: bool, ghost trouble: Trouble)
      requires Describes(trouble, env, expected, windowTimeout)
      ensures this.env == env && this.expected == expected && this.pollInterval == pollInterval
      ensures this.windowTimeout == windowTimeout && this.trouble == trouble && Ready()
    {
      this.env, this.expected, this.startupTimeout := env, expected, startupTimeout;
      this.windowTimeout, this.pollInterval, this.ownCommand := windowTimeout, pollInterval, ownCommand;
      this.trouble := trouble;
      asked, steps, activeStage, finalizing, acquired := 0, [], None, false, false;
      executionFd, openFds, process, childAlive := None, {}, None, false;
      snapshot, tempDirs, snapshotError, now := None, {}, false, 0;
      looks, launched, logCloseFailed, handed, raised := [], None, false, [], None;
      events, raisedAt := {}, None;
    }

    ghost predicate Settled() {
      Describes(trouble, env, expected, windowTimeout)
    }

    ghost predicate Ready()
      reads this
    {
      && Settled()
      && executionFd == None && openFds == {} && process == None && snapshot == None && tempDirs == {} && !snapshotError
    }

    /** The lock's descriptor is never open without being recorded, nor a build directory. */
    predicate Owns()
      reads `executionFd, `openFds, `acquired, `snapshot, `tempDirs
    {
      OwnsLock() && OwnsBuild()
    }

    predicate OwnsLock()
      reads `executionFd, `openFds, `acquired
    {
      openFds == Only(executionFd) && (acquired <==> executionFd.Some?)
    }

    predicate OwnsBuild()
      reads `snapshot, `tempDirs
    {
      tempDirs == Only(snapshot)
    }

    /** A started child is in the holder, except when closing its log raised. */
    ghost predicate ChildKept(fault: Option<Fault>)
      reads `launched, `logCloseFailed, `process
    {
      && (fault.None? ==> !logCloseFailed)
      && if launched.Some? && !logCloseFailed then process == launched else process == None
    }

    /** What leaves a call is something uncaught exactly when that was raised last. */
    ghost predicate Passes(fault: Option<Fault>)
      reads `raised, `raisedAt
    {
      && (fault == Some(Uncaught) <==> raised == Some(Uncaught))
      && (fault == Some(Uncaught) ==> env.RaisesOther())
    }

    /** What may leave a stage: no build failure, and something uncaught exactly when that was raised last. */
    ghost predicate Escapes(fault: Option<Fault>)
      reads `raised, `raisedAt
    {
      fault != Some(BuildFailure) && Passes(fault)
    }

    /** Nothing uncaught has been raised yet. */
    ghost predicate Clear()
      reads `raised, `raisedAt
    {
      raised != Some(Uncaught)
    }

    /** The environment has shown what was hoped for there. */
    ghost predicate Seen(site: Site)
      reads `asked
    {
      exists n: nat :: n <= asked && env.holds(site, n)
    }

    /** The tools, the ready child, its window and its image have been seen. */
    ghost predicate AllSeen()
      reads `asked
    {
      Seen(Tools) && Seen(LaunchPoll) && Seen(WindowPoll) && (Seen(ImageCheck) || Seen(Fallback))
    }

    /** What was raised last was raised in this stage. */
    ghost predicate RaisedIn(stage: StepName)
      reads `raisedAt
    {
      raisedAt.Some? && StageOf(raisedAt.value) == Some(stage)
    }

    /** What was raised last was raised between two stages. */
    ghost predicate RaisedBetween()
      reads `raisedAt
    {
      raisedAt.Some? && StageOf(raisedAt.value).None?
    }

    /** What was raised in a stage was raised in the active one, of which no step is recorded yet. */
    ghost predicate Located(k: nat)
      reads `raisedAt, `activeStage
    {
      && raisedAt.Some?
      && var stage := StageOf(raisedAt.value);
         stage.Some? ==> stage == activeStage && (stage.value in STAGES ==> k < 5 && stage.value == STAGES[k])
    }

    /** The run gets past building the program. */
    ghost predicate Builds() {
      trouble in {Nothing, AtLog, AtImage}
    }

    /** Some step recorded so far has failed. */
    ghost predicate Failed()
      reads `steps
    {
      HasVerdict(steps, Fail)
    }

    /** The build broke on an undisturbed checkout; or the child could not be started, its log was closed
        and no abort came; or it exited before its window was seen. */
    ghost predicate Failing()
      reads `events, `looks
    {
      || (BuildBroke in events && Undisturbed(looks, expected))
      || (NotStarted in events && LogBroke !in events && LaunchAborted !in events)
      || ExitedEarly in events
    }

    /** The run gets past launching its child. */
    ghost predicate LaunchesWell() {
      trouble == Nothing || trouble == AtImage
    }

    /** Asks the environment to do something, which may raise one of these. */
    method Attempt(site: Site, kinds: set<Fault>) returns (fault: Option<Fault>)
      requires Settled()
      modifies `asked
      ensures asked == old(asked) + 1 && fault == env.Raise(site, old(asked), kinds)
      ensures Quiet(trouble, site) ==> fault.None?
      ensures fault == Some(Uncaught) ==> env.RaisesOther()
    {
      assert Quiet(trouble, site) ==> env.Calm(site);
      fault := env.Raise(site, asked, kinds);
      asked := asked + 1;
    }

    /** The same within the try suite. */
    method Call(site: Site, kinds: set<Fault>) returns (fault: Option<Fault>)
      requires Settled() && !Telling(site)
      modifies `asked, `raised, `raisedAt
      ensures asked == old(asked) + 1 && fault == env.Raise(site, old(asked), kinds)
      ensures raised == if fault.Some? then fault else old(raised)
      ensures raisedAt == if fault.Some? then Some(site) else old(raisedAt)
      ensures Quiet(trouble, site) ==> fault.None?
      ensures fault == Some(Uncaught) ==> env.RaisesOther()
    {
      fault := Attempt(site, kinds);
      if fault.Some? {
        raised, raisedAt := fault, Some(site);
      }
    }

    /** The same where it decides about failing. */
    method Tell(site: Site, kinds: set<Fault>) returns (fault: Option<Fault>)
      requires Settled() && Telling(site)
      modifies `asked, `raised, `raisedAt, `events
      ensures asked == old(asked) + 1 && fault == env.Raise(site, old(asked), kinds)
      ensures raised == if fault.Some? then fault else old(raised)
      ensures raisedAt == if fault.Some? then Some(site) else old(raisedAt)
      ensures events == old(events) + EventsOf(site, fault)
      ensures Quiet(trouble, site) ==> fault.None?
      ensures fault == Some(Uncaught) ==> env.RaisesOther()
    {
      fault := Attempt(site, kinds);
      if fault.Some? {
        raised, raisedAt := fault, Some(site);
      }
      events := events + EventsOf(site, fault);
    }

    /** Whether what was hoped for is there. */
    method Finds(site: Site) returns (found: bool)
      requires Settled()
      ensures found == env.holds(site, asked)
      ensures found ==> Seen(site)
      ensures Quiet(trouble, site) ==> found
    {
      assert Quiet(trouble, site) ==> env.Calm(site);
      found := env.holds(site, asked);
    }

    method AcquireExecution() returns (fault: Option<Fault>)
      requires Settled() && Clear()
      requires OwnsLock()
      modifies `asked, `raised, `raisedAt, `executionFd, `openFds, `acquired
      ensures OwnsLock() && (fault.None? ==> executionFd.Some?)
      ensures fault.Some? ==> fault.value in {EnvironmentError, Aborted, Uncaught}
      ensures Escapes(fault)
      ensures fault == Some(EnvironmentError) ==> executionFd == old(executionFd)
      ensures trouble != Anything ==> fault.None?
      ensures old(asked) <= asked
      ensures fault.Some? ==> RaisedBetween()
    {
      if executionFd.Some? {
        return None;
      }
      fault := Call(OpenLock, {OsError, Uncaught});   // the account may be unknown
      if fault.None? {
        var fd: int := *;
        openFds := openFds + {fd};
        fault := Call(Flock, {OsError});
        if fault.Some? {
          openFds := openFds - {fd};
        } else {
          executionFd, acquired := Some(fd), true;
        }
      }
      var received := Call(LockAborts, {Aborted});
      if received.Some? {
        fault := received;
      } else if fault == Some(OsError) {
        fault := Some(EnvironmentError);
      }
    }

    /** `git rev-parse HEAD`, then `git status`; either may raise. */
    method LookAt(place: Place) returns (sha: string, clean: bool, fault: Option<Fault>)
      requires Settled() && Clear()
      modifies `asked, `raised, `raisedAt, `looks
      ensures sha == env.heads(Head(place), old(asked)) && clean == env.holds(Status(place), old(asked))
      ensures fault.Some? ==> fault.value in {EnvironmentError, Aborted, Uncaught} && looks == old(looks)
      ensures Escapes(fault)
      ensures fault.None? ==> looks == old(looks) + [Look(place, sha, clean)]
      ensures trouble != Anything ==> fault.None? && sha == env.commit && clean
      ensures old(asked) <= asked
      ensures fault.Some? ==> RaisedIn(if place.AtPreflight? then Preflight else Build)
    {
      assert trouble != Anything ==> env.Calm(Head(place)) && env.Calm(Status(place));
      sha, clean := env.heads(Head(place), asked), env.holds(Status(place), asked);
      fault := Call(Head(place), {EnvironmentError, Aborted, Uncaught});
      if fault.None? {
        fault := Call(Status(place), {EnvironmentError, Aborted, Uncaught});
        if fault.None? {
          looks := looks + [Look(place, sha, clean)];
        }
      }
    }

    method DoPreflight() returns (step: Step, sha: string, fault: Option<Fault>)
      requires Settled() && Clear()
      modifies `asked, `raised, `raisedAt, `looks
      ensures Escapes(fault)
      ensures fault.None? ==> step.name == Preflight && step.verdict in {Pass, Blocked}
      ensures fault.None? && step.verdict == Pass ==>
                && looks == old(looks) + [Look(AtPreflight, sha, true)]
                && (expected.Some? ==> sha == expected.value)
      ensures trouble != Anything ==> fault.None? && step.verdict == Pass && sha == env.commit
      ensures old(asked) <= asked
      ensures fault.None? && step.verdict == Pass ==> Seen(Tools)
      ensures fault.Some? ==> RaisedIn(Preflight)
    {
      step := MakeStep(Preflight, Blocked, Some("checkout cannot be read"));
      var clean: bool;
      sha, clean, fault := LookAt(AtPreflight);
      if fault.Some? {
        if fault.value == EnvironmentError { fault := None; }
        return;
      }
      if expected.Some? && sha != expected.value {
        step := MakeStep(Preflight, Blocked, Some("requested SHA differs from the checkout"));
        return;
      }
      if !clean {
        step := MakeStep(Preflight, Blocked, Some("working copy has changes"));
        return;
      }
      var toolsFound := Finds(Tools);
      fault := Call(Tools, {Aborted, OsError, Uncaught});
      if fault.Some? {
        return;
      }
      step := if toolsFound then MakeStep(Preflight, Pass, None)
              else MakeStep(Preflight, Blocked, Some("tools are missing"));
    }

    /** Makes the private clone the build reads; aborts wait until its directory is recorded. */
    method SnapshotCheckout(source: string) returns (fault: Option<Fault>)
      requires Settled() && Clear()
      requires OwnsBuild() && snapshot == None
      modifies `asked, `raised, `raisedAt, `snapshot, `tempDirs, `looks
      ensures OwnsBuild() && Escapes(fault)
      ensures fault.Some? ==> fault.value in {EnvironmentError, OsError, Aborted, Uncaught}
      ensures old(looks) <= looks
      ensures fault.None? ==> looks == old(looks) + [Look(SnapshotBefore, source, true)]
      ensures trouble != Anything && source == env.commit ==> fault.None?
      ensures !LookedAfter(old(looks)) ==> !LookedAfter(looks)
      ensures old(asked) <= asked
      ensures fault.Some? && fault != Some(EnvironmentError) ==> RaisedIn(Build)
    {
      fault := Call(CloneRoot, {EnvironmentError, OsError, Aborted});
      if fault.Some? {
        return;
      }
      var dir: int := *;
      snapshot, tempDirs := Some(dir), tempDirs + {dir};
      fault := Call(CloneAborts, {Aborted});
      if fault.Some? {
        return;
      }
      fault := Call(Clone, {EnvironmentError, Aborted, Uncaught});
      if fault.Some? {
        return;
      }
      var head, clean;
      head, clean, fault := LookAt(SnapshotBefore);
      if fault.None? && (head != source || !clean) {
        fault := Some(EnvironmentError);
      }
    }

    /** Cargo, and the clone it read looked at again. */
    method RunCargo(source: string) returns (fault: Option<Fault>)
      requires Settled() && Clear()
      requires events == {}
      modifies `asked, `raised, `raisedAt, `events, `looks
      ensures old(looks) <= looks && Passes(fault)
      ensures fault.None? ==> looks == old(looks) + [Look(SnapshotAfter, source, true)]
      ensures Builds() && source == env.commit ==> fault.None?
      ensures events == if fault == Some(BuildFailure) then {BuildBroke} else {}
      ensures !LookedAfter(old(looks)) ==> !LookedAfter(looks)
      ensures trouble == AtCargo ==> fault == Some(BuildFailure)
      ensures old(asked) <= asked
      ensures fault.Some? && fault != Some(EnvironmentError) ==> RaisedIn(Build)
    {
      fault := Tell(Cargo, {BuildFailure, Aborted, Uncaught});
      if fault.Some? {
        return;
      }
      var head, clean;
      head, clean, fault := LookAt(SnapshotAfter);
      if fault.Some? {
        return;
      }
      if head != source || !clean {
        fault := Some(EnvironmentError);
        return;
      }
      fault := Tell(Artifact, {BuildFailure, OsError, Aborted, Uncaught});
    }

    method RunBuild(source: string) returns (snapshotSha: string, fault: Option<Fault>)
      requires Settled() && Clear()
      requires OwnsBuild() && snapshot == None
      requires events == {}
      modifies `asked, `raised, `raisedAt, `events, `snapshot, `tempDirs, `looks
      ensures OwnsBuild() && old(looks) <= looks && Passes(fault)
      ensures fault.None? ==>
                looks == old(looks) + [Look(SnapshotBefore, snapshotSha, true), Look(SnapshotAfter, snapshotSha, true)]
      ensures fault.None? && source != "" ==> snapshotSha == source
      ensures Builds() && source == env.commit ==> fault.None?
      ensures events == if fault == Some(BuildFailure) then {BuildBroke} else {}
      ensures !LookedAfter(old(looks)) ==> !LookedAfter(looks)
      ensures trouble == AtCargo && source == env.commit ==> fault == Some(BuildFailure)
      ensures old(asked) <= asked
      ensures fault.Some? && fault != Some(EnvironmentError) ==> RaisedIn(Build)
    {
      snapshotSha := source;
      fault := None;
      if source == "" {
        assert trouble != Anything ==> env.Calm(SourceHead);
        snapshotSha := env.heads(SourceHead, asked);
        fault := Call(SourceHead, {EnvironmentError, Aborted, Uncaught});
      }
      if fault.None? {
        fault := SnapshotCheckout(snapshotSha);
        if fault.None? {
          fault := RunCargo(snapshotSha);
        }
      }
    }

    /** The checkout looked at once more after the build, and the verdict. */
    method AfterTheBuild(baseline: string, initial: string, buildFailed: bool)
      returns (step: Step, fault: Option<Fault>)
      requires Settled() && Clear()
      requires |looks| > 1 && looks[0].sha == baseline && looks[1].sha == initial && !LookedAfter(looks)
      modifies `asked, `raised, `raisedAt, `looks
      ensures Escapes(fault)
      ensures fault.None? ==> step.name == Build
      ensures fault.None? ==>
                step.verdict == if !Undisturbed(looks, expected) then Blocked else if buildFailed then Fail else Pass
      ensures fault.Some? ==> !Undisturbed(looks, expected)
      ensures old(looks) <= looks && |looks| <= |old(looks)| + 1
      ensures trouble != Anything && initial == env.commit && baseline == env.commit ==>
                fault.None? && step.verdict == if buildFailed then Fail else Pass
      ensures old(asked) <= asked
      ensures fault.Some? ==> RaisedIn(Build)
    {
      step := MakeStep(Build, Blocked, Some("checkout cannot be verified around the build"));
      var actual, clean;
      actual, clean, fault := LookAt(AfterBuild);
      if fault.Some? {
        if fault.value == EnvironmentError { fault := None; }
        return;
      }
      if actual != initial || !CheckoutAccepted(expected, baseline, actual, clean) {
        step := MakeStep(Build, Blocked, Some("checkout changed during the build"));
        return;
      }
      step := if buildFailed then MakeStep(Build, Fail, Some("build failed")) else MakeStep(Build, Pass, None);
    }

    method DoBuild(baseline: string) returns (step: Step, fault: Option<Fault>)
      requires Settled() && Clear()
      requires OwnsBuild() && snapshot == None && events == {}
      requires looks == [Look(AtPreflight, baseline, true)] && (expected.Some? ==> baseline == expected.value)
      modifies `asked, `raised, `raisedAt, `events, `snapshot, `tempDirs, `looks
      ensures OwnsBuild() && Escapes(fault)
      ensures fault.None? ==> step.name == Build && step.verdict in {Pass, Fail, Blocked}
      ensures fault.None? && step.verdict == Pass ==> Validated(looks, expected)
      // It fails exactly when compiler or artifact check broke and the checkout was undisturbed.
      ensures events <= {BuildBroke}
      ensures fault.None? ==> (step.verdict == Fail <==> BuildBroke in events && Undisturbed(looks, expected))
      ensures fault.None? && step.verdict == Pass ==> events == {}
      ensures fault.Some? ==> !Failing()
      ensures Builds() && baseline == env.commit ==> fault.None? && step.verdict == Pass
      ensures trouble == AtCargo && baseline == env.commit ==> fault.None? && step.verdict == Fail
      ensures old(asked) <= asked
      ensures fault.Some? ==> RaisedIn(Build)
    {
      step := MakeStep(Build, Blocked, Some("checkout cannot be verified around the build"));
      var initial, clean;
      initial, clean, fault := LookAt(BeforeBuild);
      if fault.Some? {
        if fault.value == EnvironmentError { fault := None; }
        return;
      }
      if !CheckoutAccepted(expected, baseline, initial, clean) {
        step := MakeStep(Build, Blocked, Some("checkout changed before the build"));
        return;
      }
      var snapshotSha;
      snapshotSha, fault := RunBuild(initial);
      var buildFailed := fault == Some(BuildFailure);
      if fault.Some? && !buildFailed {
        if fault.value == EnvironmentError { fault := None; }
        return;
      }
      step, fault := AfterTheBuild(baseline, initial, buildFailed);
    }

    /** Starts the child; its log file is closed last, whatever happened. */
    method LaunchChild() returns (pid: int, fault: Option<Fault>)
      requires Settled() && Clear()
      requires launched == None && !logCloseFailed
      requires events == {}
      modifies `asked, `raised, `raisedAt, `events, `launched, `logCloseFailed, `childAlive
      ensures Escapes(fault) && (fault.Some? ==> fault.value in {EnvironmentError, OsError, Uncaught})
      ensures fault.None? ==> launched == Some(pid) && childAlive && !logCloseFailed
      ensures launched.Some? && fault.Some? ==> logCloseFailed
      ensures logCloseFailed ==> fault == Some(OsError)
      ensures launched.None? ==> !logCloseFailed && childAlive == old(childAlive)
      ensures LaunchesWell() ==> fault.None?
      ensures trouble == AtLog ==> logCloseFailed && launched.Some? && childAlive
      ensures events <= {NotStarted, LogBroke} && (fault.None? ==> events == {})
      ensures fault == Some(EnvironmentError) <==> NotStarted in events && LogBroke !in events
      ensures old(asked) <= asked
      ensures fault.Some? && fault != Some(EnvironmentError) ==> RaisedIn(Launch)
    {
      pid := *;
      fault := Call(OpenLog, {OsError});
      if fault.Some? {
        return;
      }
      var started := Tell(Popen, {OsError, Uncaught});
      if started.None? {
        launched, childAlive := Some(pid), true;
      }
      fault := Tell(CloseLog, {OsError});
      if fault.Some? {
        logCloseFailed := launched.Some?;
        return;
      }
      fault := if started == Some(OsError) then Some(EnvironmentError) else started;
    }

    method Sleep()
      requires pollInterval > 0
      modifies `now
      ensures now >= old(now) + pollInterval
    {
      var slack: int := *;
      now := now + pollInterval + if slack > 0 then slack else 0;
    }

    /** Whether the child has exited; it may do so at any time, and never comes back. */
    method Poll(site: Site) returns (exited: bool)
      requires Settled() && site !in {LaunchPoll, WindowPoll}
      modifies `childAlive
      ensures exited <==> !childAlive
      ensures childAlive == (old(childAlive) && !env.exits(site, asked))
      ensures Quiet(trouble, site) ==> childAlive == (old(childAlive) && !site.Terminate?)
    {
      assert Quiet(trouble, site) ==> env.Calm(site);
      childAlive := childAlive && !env.exits(site, asked);
      exited := !childAlive;
    }

    /** The same while the child is still expected to be there. */
    method Watch(site: Site) returns (exited: bool)
      requires Settled() && site in {LaunchPoll, WindowPoll}
      modifies `childAlive, `events
      ensures exited <==> !childAlive
      ensures childAlive == (old(childAlive) && !env.exits(site, asked))
      ensures events == old(events) + if exited then {ExitedEarly} else {}
      ensures Quiet(trouble, site) ==> childAlive == old(childAlive)
    {
      assert Quiet(trouble, site) ==> env.Calm(site);
      childAlive := childAlive && !env.exits(site, asked);
      exited := !childAlive;
      events := events + if exited then {ExitedEarly} else {};
    }

    method DoLaunch() returns (step: Step, fault: Option<Fault>)
      requires Settled() && Clear()
      requires pollInterval > 0 && launched == None && !logCloseFailed && process == None
      requires events == {}
      modifies `asked, `raised, `raisedAt, `events, `process, `launched, `logCloseFailed, `childAlive, `now
      ensures ChildKept(fault) && Escapes(fault)
      ensures fault.None? ==> step.name == Launch && step.verdict in {Pass, Fail, Blocked}
      ensures fault.None? && step.verdict == Pass ==> process.Some?
      ensures fault.None? && step.verdict == Fail ==> launched == None || !childAlive
      ensures fault.None? && step.verdict == Blocked ==> process.Some? && now >= old(now) + startupTimeout
      ensures LaunchesWell() ==> fault.None? && step.verdict == Pass && childAlive
      ensures trouble == AtLog ==> Lost(fault)
      ensures fault.None? ==> (step.verdict == Fail <==> Failing())
      ensures fault.Some? ==> !Failing()
      ensures fault.None? && step.verdict == Pass ==> events == {}
      ensures old(asked) <= asked
      ensures fault.None? && step.verdict == Pass ==> Seen(LaunchPoll)
      ensures fault.Some? ==> RaisedIn(Launch)
    {
      step := MakeStep(Launch, Fail, Some("could not be started"));
      var pid;
      pid, fault := LaunchChild();
      if fault.None? {
        process := Some(pid);
      }
      var received := Tell(LaunchAborts, {Aborted});
      if received.Some? {
        return step, received;
      }
      if fault.Some? {
        if fault.value == EnvironmentError { fault := None; }
        return;
      }
      step, fault := AwaitReady();
    }

    /** A child was started and nobody knows it. */
    ghost predicate Lost(fault: Option<Fault>)
      reads `launched, `logCloseFailed, `process, `childAlive
    {
      fault == Some(OsError) && launched.Some? && logCloseFailed && childAlive && process == None
    }

    /** The loop that waits until the child reports that it is ready. */
    method AwaitReady() returns (step: Step, fault: Option<Fault>)
      requires Settled() && Clear()
      requires pollInterval > 0
      requires events == {}
      modifies `asked, `raised, `raisedAt, `events, `childAlive, `now
      ensures Escapes(fault)
      ensures fault.None? ==> step.name == Launch && step.verdict in {Pass, Fail, Blocked}
      ensures fault.None? && step.verdict == Fail ==> !childAlive
      ensures fault.None? && step.verdict == Blocked ==> now >= old(now) + startupTimeout
      ensures LaunchesWell() && old(childAlive) ==> fault.None? && step.verdict == Pass && childAlive
      ensures fault.None? ==> (step.verdict == Fail <==> Failing())
      ensures fault.Some? ==> !Failing()
      ensures fault.None? && step.verdict == Pass ==> events == {}
      ensures old(asked) <= asked
      ensures fault.None? && step.verdict == Pass ==> Seen(LaunchPoll)
      ensures fault.Some? ==> RaisedIn(Launch)
    {
      step := MakeStep(Launch, Blocked, Some("not ready in time"));
      var deadline := now + startupTimeout;
      while true
        invariant Clear() && events == {} && old(asked) <= asked
        invariant deadline == old(now) + startupTimeout
        invariant step == MakeStep(Launch, Blocked, Some("not ready in time"))
        invariant LaunchesWell() && old(childAlive) ==> childAlive
        decreases deadline - now
      {
        fault := Call(LaunchPoll, {Aborted, OsError, Uncaught});
        if fault.Some? {
          return;
        }
        var exited := Watch(LaunchPoll);
        if exited {
          return MakeStep(Launch, Fail, Some("exited before it was ready")), None;
        }
        var ready := Finds(LaunchPoll);
        if ready {
          return MakeStep(Launch, Pass, None), None;
        }
        if now >= deadline {
          return;
        }
        Sleep();
      }
    }

    method DoWindowDiscovery() returns (step: Step, fault: Option<Fault>)
      requires Settled() && Clear()
      requires pollInterval > 0
      requires events == {}
      modifies `asked, `raised, `raisedAt, `events, `childAlive, `now
      ensures Escapes(fault)
      ensures fault.None? ==> step.name == WindowDiscovery && step.verdict in {Pass, Fail, Blocked}
      ensures fault.None? && step.verdict == Fail ==> !childAlive
      ensures fault.None? && step.verdict == Blocked ==> now >= old(now) + windowTimeout
      ensures LaunchesWell() && old(childAlive) ==> fault.None? && step.verdict == Pass
      ensures fault.None? ==> (step.verdict == Fail <==> Failing())
      ensures fault.Some? ==> !Failing()
      ensures fault.None? && step.verdict == Pass ==> events == {}
      ensures old(asked) <= asked
      ensures fault.None? && step.verdict == Pass ==> Seen(WindowPoll)
      ensures fault.Some? ==> RaisedIn(WindowDiscovery)
    {
      var deadline := now + windowTimeout;
      step := MakeStep(WindowDiscovery, Blocked, Some("no window in time"));
      while true
        invariant Clear() && events == {} && old(asked) <= asked
        invariant deadline == old(now) + windowTimeout
        invariant step == MakeStep(WindowDiscovery, Blocked, Some("no window in time"))
        invariant LaunchesWell() && old(childAlive) ==> childAlive && now == old(now)
        decreases deadline - now
      {
        fault := Call(WindowPoll, {Aborted, OsError, Uncaught});
        if fault.Some? {
          return;
        }
        var exited := Watch(WindowPoll);
        if exited {
          return MakeStep(WindowDiscovery, Fail, Some("exited before its window was seen")), None;
        }
        var seen := Finds(WindowPoll);
        if now < deadline && seen {
          return MakeStep(WindowDiscovery, Pass, None), None;
        }
        if now >= deadline {
          return;
        }
        Sleep();
      }
    }

    /** The capture command and the check of its image; unless the caller chose the command, a bad
        image is taken once more by screen rectangle.  What that second attempt raises is an
        environment error, and what the first check raises is not. */
    method CaptureImage() returns (written: bool, fault: Option<Fault>)
      requires Settled() && Clear()
      modifies `asked, `raised, `raisedAt
      ensures Escapes(fault) && (written ==> fault.None?)
      ensures trouble == AtImage ==> fault == Some(Uncaught)
      ensures trouble == Nothing ==> written
      ensures old(asked) <= asked
      ensures written ==> Seen(ImageCheck) || Seen(Fallback)
      ensures fault.Some? ==> RaisedIn(Capture)
    {
      written := false;
      fault := Call(CaptureCommand, {EnvironmentError, Aborted, Uncaught});
      if fault.None? {
        var succeeded := Finds(CaptureCommand);
        if succeeded {
          fault := Call(ImageCheck, {OsError, Aborted, Uncaught});
          var valid := Finds(ImageCheck);
          written := fault.None? && valid;
        }
        if fault.None? && !written && !ownCommand {
          fault := Call(Fallback, {EnvironmentError, Aborted, Uncaught});
          var valid := Finds(Fallback);
          written := fault.None? && valid;
        }
      }
    }

    method DoCapture() returns (step: Step, fault: Option<Fault>)
      requires Settled() && Clear()
      modifies `asked, `raised, `raisedAt
      ensures Escapes(fault)
      ensures fault.None? ==> step.name == Capture && step.verdict in {Pass, Blocked}
      ensures trouble == AtImage ==> fault == Some(Uncaught)
      ensures trouble == Nothing ==> fault.None? && step.verdict == Pass
      ensures old(asked) <= asked
      ensures fault.None? && step.verdict == Pass ==> Seen(ImageCheck) || Seen(Fallback)
      ensures fault.Some? ==> RaisedIn(Capture)
    {
      step := MakeStep(Capture, Blocked, Some("capture command failed"));
      var written;
      written, fault := CaptureImage();
      if fault == Some(EnvironmentError) {
        fault := None;
      } else if fault.None? {
        step := if written then MakeStep(Capture, Pass, None)
                else MakeStep(Capture, Blocked, Some("no image was made"));
      }
    }

    method Append(step: Step, ghost k: nat)
      requires Good(steps, k) && k < 5 && step.name == STAGES[k]
      requires step.verdict == Skipped ==> Bad(steps)
      modifies `steps
      ensures steps == old(steps) + [step] && Good(steps, k + 1)
      ensures step.verdict != Pass ==> Bad(steps)
      ensures AllPass(steps) <==> AllPass(old(steps)) && step.verdict == Pass
      ensures Failed() <==> old(Failed()) || step.verdict == Fail
    {
      HasVerdictAppend(steps, step, Fail);
      GoodAppend(steps, k, step);
      steps := steps + [step];
    }

    /** The remaining stages after one that did not pass; an abort may cut the list short, or come
        right after its end. */
    method SkipRest(from: nat, reason: string) returns (fault: Option<Fault>, ghost k: nat)
      requires Settled() && Clear()
      requires from <= 5 && Good(steps, from) && !AllPass(steps)
      requires Bad(steps)
      modifies `asked, `raised, `raisedAt, `steps
      ensures from <= k && Good(steps, k) && !AllPass(steps)
      ensures Escapes(fault) && (fault.Some? ==> fault.value == Aborted)
      ensures fault.None? ==> k == 5
      ensures Failed() <==> old(Failed())
      ensures trouble != Anything ==> fault.None?
      ensures old(asked) <= asked
      ensures fault.Some? ==> RaisedBetween()
    {
      k := from;
      for i := from to 5
        invariant Good(steps, i) && k == i && !AllPass(steps)
        invariant Bad(steps) && Clear() && (Failed() <==> old(Failed())) && old(asked) <= asked
      {
        fault := Call(Skipping, {Aborted});
        if fault.Some? {
          return;
        }
        Append(MakeStep(STAGES[i], Skipped, Some(reason)), i);
        k := i + 1;
      }
      fault := Call(Skipping, {Aborted});
    }

    /** How the try suite ends where that is known. */
    ghost predicate Foretold(fault: Option<Fault>)
      reads `launched, `logCloseFailed, `process, `childAlive, `steps
    {
      match trouble
      case Anything => true
      case Nothing => fault.None? && AllPass(steps)
      case AtLog => Lost(fault)
      case AtImage => fault == Some(Uncaught)
      case AtCargo => fault.None? && Failed()
    }

    ghost predicate Started()
      reads this
    {
      && steps == [] && looks == [] && events == {}
      && launched == None && !logCloseFailed && process == None && snapshot == None
      && Owns()
    }

    /** After a stage: either the run goes on, or every stage is recorded, or something was raised. */
    ghost predicate StageDone(fault: Option<Fault>, more: bool, k: nat, next: nat)
      reads `steps, `raised, `raisedAt
    {
      && Good(steps, k) && Escapes(fault)
      && (more ==> k == next && fault.None? && AllPass(steps))
      && (fault.None? && !more ==> k == 5 && !AllPass(steps))
    }

    method RecordPass(step: Step, i: nat) returns (fault: Option<Fault>)
      requires Settled() && Clear()
      requires i < 5 && Good(steps, i) && AllPass(steps) && step.name == STAGES[i] && step.verdict == Pass
      modifies `asked, `raised, `raisedAt, `steps
      ensures Good(steps, i + 1) && AllPass(steps) && Escapes(fault)
      ensures trouble != Anything ==> fault.None?
      ensures Failed() <==> old(Failed()) || step.verdict == Fail
      ensures old(asked) <= asked
      ensures fault.Some? ==> RaisedBetween()
    {
      Append(step, i);
      fault := Call(AfterStep, {Aborted});
    }

    method RecordOther(step: Step, i: nat, reason: string) returns (fault: Option<Fault>, ghost k: nat)
      requires Settled() && Clear()
      requires i < 5 && Good(steps, i) && step.name == STAGES[i] && step.verdict in {Fail, Blocked}
      modifies `asked, `raised, `raisedAt, `steps
      ensures Good(steps, k) && !AllPass(steps) && Escapes(fault) && (fault.None? ==> k == 5)
      ensures Failed() <==> old(Failed()) || step.verdict == Fail
      ensures trouble != Anything ==> fault.None?
      ensures old(asked) <= asked
      ensures fault.Some? ==> RaisedBetween()
    {
      Append(step, i);
      fault, k := SkipRest(i + 1, reason);
    }

    /** Appends the step of stage `i`; unless it passed, the stages after it are skipped. */
    method RecordStage(step: Step, i: nat, reason: string) returns (fault: Option<Fault>, more: bool, ghost k: nat)
      requires Settled() && Clear()
      requires i < 5 && Good(steps, i) && AllPass(steps) && step.name == STAGES[i] && step.verdict != Skipped
      modifies `asked, `raised, `raisedAt, `steps
      ensures StageDone(fault, more, k, i + 1) && (more ==> step.verdict == Pass)
      ensures step.verdict == Pass && trouble != Anything ==> more
      ensures Failed() <==> old(Failed()) || step.verdict == Fail
      ensures trouble != Anything ==> fault.None?
      ensures old(asked) <= asked
      ensures fault.Some? ==> RaisedBetween()
    {
      if step.verdict == Pass {
        k := i + 1;
        fault := RecordPass(step, i);
        more := fault.None?;
      } else {
        more := false;
        fault, k := RecordOther(step, i, reason);
      }
    }

    method CaptureStage() returns (fault: Option<Fault>, ghost k: nat)
      requires Settled() && Clear()
      requires Good(steps, 4) && AllPass(steps)
      modifies `asked, `raised, `raisedAt, `steps, `activeStage
      ensures Good(steps, k) && (fault.None? ==> k == 5) && Escapes(fault)
      ensures trouble == AtImage ==> fault == Some(Uncaught)
      ensures trouble == Nothing ==> fault.None? && AllPass(steps)
      ensures !Failed()
      ensures old(asked) <= asked
      ensures fault.None? && AllPass(steps) ==> Seen(ImageCheck) || Seen(Fallback)
      ensures fault.Some? ==> Located(k)
    {
      k := 4;
      activeStage := Some(Capture);
      var step;
      step, fault := DoCapture();
      if fault.None? {
        var more;
        fault, more, k := RecordStage(step, 4, "");
      }
    }

    method WindowStages() returns (fault: Option<Fault>, ghost k: nat)
      requires Settled() && Clear()
      requires pollInterval > 0 && Good(steps, 3) && AllPass(steps)
      requires events == {}
      modifies `asked, `raised, `raisedAt, `events, `steps, `activeStage, `childAlive, `now
      ensures Good(steps, k) && (fault.None? ==> k == 5) && Escapes(fault)
      ensures trouble == AtImage && old(childAlive) ==> fault == Some(Uncaught)
      ensures trouble == Nothing && old(childAlive) ==> fault.None? && AllPass(steps)
      ensures Failed() <==> Failing()
      ensures old(asked) <= asked
      ensures fault.None? && AllPass(steps) ==> Seen(WindowPoll) && (Seen(ImageCheck) || Seen(Fallback))
      ensures fault.Some? ==> Located(k)
    {
      k := 3;
      activeStage := Some(WindowDiscovery);
      var step;
      step, fault := DoWindowDiscovery();
      if fault.None? {
        var more;
        fault, more, k := RecordStage(step, 3, "window_discovery did not pass");
        if more {
          fault, k := CaptureStage();
        }
      }
    }

    method LaunchStage() returns (fault: Option<Fault>, more: bool, ghost k: nat)
      requires Settled() && Clear()
      requires pollInterval > 0 && Good(steps, 2) && AllPass(steps)
      requires launched == None && !logCloseFailed && process == None
      requires events == {}
      modifies `asked, `raised, `raisedAt, `events, `steps, `activeStage, `process, `launched, `logCloseFailed,
               `childAlive, `now
      ensures ChildKept(fault) && StageDone(fault, more, k, 3)
      ensures trouble == AtLog ==> Lost(fault)
      ensures LaunchesWell() ==> more && childAlive
      ensures Failed() <==> Failing()
      ensures more ==> events == {}
      ensures old(asked) <= asked
      ensures more ==> Seen(LaunchPoll)
      ensures fault.Some? ==> Located(k)
    {
      k, more := 2, false;
      activeStage := Some(Launch);
      var step;
      step, fault := DoLaunch();
      if fault.None? {
        fault, more, k := RecordStage(step, 2, "launch did not pass");
      }
    }

    method LaunchOn() returns (fault: Option<Fault>, ghost k: nat)
      requires Settled() && Clear()
      requires pollInterval > 0 && Good(steps, 2) && AllPass(steps)
      requires launched == None && !logCloseFailed && process == None
      requires events == {}
      modifies `asked, `raised, `raisedAt, `events, `steps, `activeStage, `process, `launched, `logCloseFailed,
               `childAlive, `now
      ensures ChildKept(fault) && Good(steps, k) && (fault.None? ==> k == 5) && Escapes(fault)
      ensures trouble == AtLog ==> Lost(fault)
      ensures trouble == AtImage ==> fault == Some(Uncaught)
      ensures trouble == Nothing ==> fault.None? && AllPass(steps)
      ensures Failed() <==> Failing()
      ensures old(asked) <= asked
      ensures fault.None? && AllPass(steps) ==>
                Seen(LaunchPoll) && Seen(WindowPoll) && (Seen(ImageCheck) || Seen(Fallback))
      ensures fault.Some? ==> Located(k)
    {
      var more;
      fault, more, k := LaunchStage();
      if more {
        fault, k := WindowStages();
      }
    }

    method LaunchStages() returns (fault: Option<Fault>, ghost k: nat)
      requires Settled() && Clear()
      requires pollInterval > 0 && Good(steps, 2) && AllPass(steps)
      requires launched == None && !logCloseFailed && process == None
      requires events == {}
      modifies `asked, `raised, `raisedAt, `events, `steps, `activeStage, `process, `launched, `logCloseFailed,
               `childAlive, `now
      ensures ChildKept(fault) && Good(steps, k) && (fault.None? ==> k == 5) && Escapes(fault)
      ensures trouble == AtLog ==> Lost(fault)
      ensures trouble == AtImage ==> fault == Some(Uncaught)
      ensures trouble == Nothing ==> fault.None? && AllPass(steps)
      ensures Failed() <==> Failing()
      ensures old(asked) <= asked
      ensures fault.None? && AllPass(steps) ==>
                Seen(LaunchPoll) && Seen(WindowPoll) && (Seen(ImageCheck) || Seen(Fallback))
      ensures fault.Some? ==> Located(k)
    {
      k := 2;
      activeStage := Some(Setup);
      fault := Call(Prepare, {EnvironmentError, Aborted, Uncaught});
      if fault.None? {
        fault, k := LaunchOn();
      }
    }

    method BuildStage(baseline: string) returns (fault: Option<Fault>, more: bool, ghost k: nat)
      requires Settled() && Clear()
      requires Good(steps, 1) && AllPass(steps) && OwnsBuild() && snapshot == None
      requires looks == [Look(AtPreflight, baseline, true)] && (expected.Some? ==> baseline == expected.value)
      requires events == {}
      modifies `asked, `raised, `raisedAt, `events, `steps, `activeStage, `snapshot, `tempDirs, `looks
      ensures OwnsBuild() && StageDone(fault, more, k, 2) && (more ==> Validated(looks, expected))
      ensures Builds() && baseline == env.commit ==> more
      ensures Failed() <==> Failing()
      ensures more ==> events == {}
      ensures trouble == AtCargo && baseline == env.commit ==> fault.None? && Failed()
      ensures old(asked) <= asked
      ensures fault.Some? ==> Located(k)
    {
      k, more := 1, false;
      activeStage := Some(Build);
      var step;
      step, fault := DoBuild(baseline);
      if fault.None? {
        fault, more, k := RecordStage(step, 1, "build did not pass");
      }
    }

    method PreflightStage() returns (fault: Option<Fault>, more: bool, sha: string, ghost k: nat)
      requires Settled() && Clear()
      requires steps == [] && looks == []
      modifies `asked, `raised, `raisedAt, `steps, `activeStage, `looks
      ensures StageDone(fault, more, k, 1)
      ensures more ==> looks == [Look(AtPreflight, sha, true)] && (expected.Some? ==> sha == expected.value)
      ensures trouble != Anything ==> more && sha == env.commit
      ensures !Failed()
      ensures old(asked) <= asked
      ensures more ==> Seen(Tools)
      ensures fault.Some? ==> Located(k)
    {
      k, more := 0, false;
      activeStage := Some(Preflight);
      var step;
      step, sha, fault := DoPreflight();
      if fault.None? {
        fault, more, k := RecordStage(step, 0, "preflight did not pass");
      }
    }

    method CheckAndBuild() returns (fault: Option<Fault>, more: bool, ghost k: nat)
      requires Settled() && Clear()
      requires steps == [] && looks == [] && OwnsBuild() && snapshot == None
      requires events == {}
      modifies `asked, `raised, `raisedAt, `events, `steps, `activeStage, `snapshot, `tempDirs, `looks
      ensures OwnsBuild() && StageDone(fault, more, k, 2) && (more ==> Validated(looks, expected))
      ensures Builds() ==> more
      ensures Failed() <==> Failing()
      ensures more ==> events == {}
      ensures trouble == AtCargo ==> fault.None? && Failed()
      ensures old(asked) <= asked
      ensures more ==> Seen(Tools)
      ensures fault.Some? ==> Located(k)
    {
      var sha;
      fault, more, sha, k := PreflightStage();
      if more {
        fault, more, k := BuildStage(sha);
      }
    }

    method FiveStages() returns (fault: Option<Fault>, ghost k: nat)
      requires Settled() && Clear() && pollInterval > 0
      requires steps == [] && looks == [] && events == {} && OwnsBuild() && snapshot == None
      requires launched == None && !logCloseFailed && process == None
      modifies `asked, `raised, `raisedAt, `events, `steps, `activeStage, `snapshot, `tempDirs, `looks, `process,
               `launched, `logCloseFailed, `childAlive, `now
      ensures OwnsBuild() && ChildKept(fault) && Good(steps, k) && (fault.None? ==> k == 5) && Escapes(fault)
      ensures Validated(looks, expected) || fault.Some? || !AllPass(steps)
      ensures Failed() <==> Failing()
      ensures Foretold(fault)
      ensures old(asked) <= asked
      ensures fault.None? && AllPass(steps) ==> AllSeen()
      ensures fault.Some? ==> Located(k)
    {
      var more;
      fault, more, k := CheckAndBuild();
      if more {
        fault, k := LaunchStages();
      }
    }

    /** The try suite. */
    method TryStages() returns (fault: Option<Fault>, ghost k: nat)
      requires Settled() && Clear()
      requires pollInterval > 0 && Started()
      modifies `asked, `raised, `raisedAt, `events, `steps, `activeStage, `snapshot, `tempDirs, `looks, `process,
               `launched, `logCloseFailed, `childAlive, `now, `executionFd, `openFds, `acquired
      ensures Owns() && ChildKept(fault) && Good(steps, k) && (fault.None? ==> k == 5 && acquired)
      ensures Escapes(fault)
      ensures Validated(looks, expected) || fault.Some? || !AllPass(steps)
      ensures Failed() <==> Failing()
      ensures Foretold(fault)
      ensures old(asked) <= asked
      ensures fault.None? && AllPass(steps) ==> AllSeen()
      ensures fault.Some? ==> Located(k)
    {
      k := 0;
      fault := AcquireExecution();
      if fault.None? {
        fault, k := FiveStages();
      }
    }

    /** Stops the child if there is one, by terminating and then killing it. */
    method CleanupProcess() returns (step: Step, fault: Option<Fault>)
      requires Settled()
      modifies `asked, `childAlive
      ensures fault.Some? ==> fault.value == OsError
      ensures fault.None? ==> step.name == Cleanup && step.verdict in {Pass, Blocked}
      ensures fault.None? ==> (step.verdict == Pass <==> process.None? || !childAlive)
      ensures process.None? ==> childAlive == old(childAlive)
      ensures trouble == Nothing ==> fault.None? && step.verdict == Pass
      ensures old(asked) <= asked
    {
      if process.None? {
        return MakeStep(Cleanup, Pass, None), None;
      }
      step := MakeStep(Cleanup, Blocked, Some("child could not be stopped"));
      var exited := Poll(CleanupPoll);
      if exited {
        return MakeStep(Cleanup, Pass, None), None;
      }
      fault := Attempt(Terminate, {OsError});
      if fault.Some? {
        return;
      }
      exited := Poll(Terminate);
      if !exited {
        fault := Attempt(Kill, {OsError});
        if fault.Some? {
          return;
        }
        exited := Poll(Kill);
      }
      if exited {
        step := MakeStep(Cleanup, Pass, None);
      }
    }

    /** Cleanup with aborts deferred; one that arrives makes the step blocked. */
    method DoCleanup() returns (step: Step)
      requires Settled()
      modifies `asked, `childAlive, `handed
      ensures handed == old(handed) + [process]
      ensures step.name == Cleanup && step.verdict in {Pass, Blocked}
      ensures step.verdict == Pass && process.Some? ==> !childAlive
      ensures process.None? ==> childAlive == old(childAlive)
      ensures trouble == Nothing ==> step.verdict == Pass
      ensures old(asked) <= asked
    {
      handed := handed + [process];
      var fault;
      step, fault := CleanupProcess();
      if fault.Some? {
        step := MakeStep(Cleanup, Blocked, Some("cleanup did not complete"));
      }
      var interrupted := Attempt(CleanupAborts, {Aborted});
      if interrupted.Some? {
        var received: seq<int> := *;
        step := Step(Cleanup, Blocked, Some("interrupted during cleanup"), received);
      }
    }

    method CleanupBuild()
      requires Settled()
      requires OwnsBuild()
      modifies `asked, `snapshot, `tempDirs, `snapshotError
      ensures OwnsBuild() && snapshotError == (old(snapshotError) || snapshot.Some?)
      ensures trouble == Nothing ==> snapshot.None?
      ensures old(asked) <= asked
    {
      if snapshot.Some? {
        var fault := Attempt(RemoveBuild, {OsError});
        if fault.None? {
          snapshot, tempDirs := None, tempDirs - {snapshot.value};
        } else {
          snapshotError := true;
        }
      }
    }

    /** The stages not recorded yet: the one that was active is blocked, the others were never reached. */
    method RecordMissing(ghost k: nat)
      requires Shape(steps, k)
      modifies `steps
      ensures steps == old(steps) + MissingSteps(k, activeStage)
    {
      for i := 0 to 5
        invariant Filled(old(steps), steps, k, i, activeStage)
      {
        FillNext(old(steps), steps, k, i, activeStage);
        if !Has(steps, STAGES[i]) {
          steps := steps + [MissingStep(i, activeStage)];
        }
      }
    }

    /** The except clauses. */
    method RecordFault(fault: Option<Fault>, ghost k: nat)
      requires Good(steps, k) && (fault.None? ==> k == 5) && fault != Some(BuildFailure)
      modifies `steps
      ensures Good(steps, k) && old(steps) <= steps
      ensures k == 5 || Bad(steps) || fault == Some(Uncaught)
      ensures fault in {None, Some(Uncaught)} ==> steps == old(steps)
      ensures fault !in {None, Some(Uncaught)} ==>
                && |steps| == |old(steps)| + 1 && steps[|old(steps)|].verdict == Blocked
                && steps[|old(steps)|].name == (if fault == Some(Aborted) then Run else Setup)
      ensures fault !in {None, Some(Uncaught)} ==> !AllPass(steps)
      ensures Failed() <==> old(Failed())
    {
      if fault.None? || fault == Some(Uncaught) {
        return;
      }
      var step := if fault == Some(Aborted) then MakeStep(Run, Blocked, Some("interrupted"))
                  else MakeStep(Setup, Blocked, Some("environment error"));
      GoodAppendOther(steps, k, step);
      steps := steps + [step];
    }

    method CleanUp()
      requires Settled()
      requires Shape(steps, 5) && OwnsBuild()
      modifies `asked, `steps, `childAlive, `handed, `snapshot, `tempDirs, `snapshotError
      ensures Complete(steps)
      ensures Explained(old(steps)) ==> Explained(steps)
      ensures AllPass(steps) ==> AllPass(old(steps)) && (process.Some? ==> !childAlive)
      ensures handed == old(handed) + [process]
      ensures OwnsBuild() && snapshotError == (old(snapshotError) || snapshot.Some?)
      ensures process.None? ==> childAlive == old(childAlive)
      ensures trouble == Nothing && AllPass(old(steps)) ==> AllPass(steps) && snapshot.None?
      ensures Failed() <==> old(Failed())
      ensures old(asked) <= asked
    {
      var step := DoCleanup();
      CompleteByCleanup(steps, step);
      steps := steps + [step];
      CleanupBuild();
    }

    /** The snapshot that could not be removed, if so, and the verdict. */
    method Conclude() returns (result: ValidationRecord.Record)
      requires Complete(steps) && Explained(steps)
      modifies `steps
      ensures Complete(steps) && result == Finalize(steps) && Consistent(result)
      ensures result.overall == Pass <==> AllPass(steps)
      ensures AllPass(steps) <==> AllPass(old(steps)) && !snapshotError
      ensures Failed() <==> old(Failed())
    {
      if snapshotError {
        var step := MakeStep(SnapshotCleanup, Blocked, Some("build directory could not be removed"));
        CompleteAppend(steps, step);
        steps := steps + [step];
      }
      assert steps != [];
      PassMeansAllPass(steps);
      return Finalize(steps);
    }

    /** The except clauses, and what the finally suite records before it cleans up. */
    method RecordRest(fault: Option<Fault>, ghost k: nat)
      requires Good(steps, k) && (fault.None? ==> k == 5) && fault != Some(BuildFailure)
      modifies `steps, `finalizing
      ensures finalizing && Shape(steps, 5) && (Explained(steps) || fault == Some(Uncaught))
      ensures AllPass(steps) && fault != Some(Uncaught) ==> fault.None? && AllPass(old(steps))
      ensures fault.None? && AllPass(old(steps)) ==> AllPass(steps)
      ensures Failed() <==> old(Failed())
      ensures k < 5 && activeStage == Some(STAGES[k]) ==> BlockedAt(steps, STAGES[k])
    {
      RecordFault(fault, k);
      finalizing := true;
      MissingAppend(steps, k, activeStage);
      MissingNotFail(steps, k, activeStage);
      if k < 5 && activeStage == Some(STAGES[k]) {
        MissingExactly(k, k, activeStage);
        assert (steps + MissingSteps(k, activeStage))[|steps|] == MissingSteps(k, activeStage)[0];
      }
      RecordMissing(k);
    }

    /** The try suite, the except clauses, and what the finally suite records before it cleans up. */
    method TryExcept() returns (fault: Option<Fault>)
      requires Settled() && Clear()
      requires pollInterval > 0 && Started()
      modifies `asked, `steps, `activeStage, `snapshot, `tempDirs, `looks, `process, `launched, `logCloseFailed,
               `childAlive, `now, `executionFd, `openFds, `acquired, `finalizing, `raised, `raisedAt, `events
      ensures finalizing && Owns() && ChildKept(fault) && Escapes(fault)
      ensures Shape(steps, 5) && (Explained(steps) || fault == Some(Uncaught))
      ensures AllPass(steps) && fault != Some(Uncaught) ==>
                fault.None? && Validated(looks, expected) && AllSeen() && acquired
      ensures Failed() <==> Failing()
      ensures trouble == AtLog ==> Lost(fault)
      ensures trouble == AtImage ==> fault == Some(Uncaught)
      ensures trouble == AtCargo ==> fault.None? && Failed()
      ensures trouble == Nothing ==> fault.None? && AllPass(steps)
      ensures old(asked) <= asked
      ensures fault.Some? ==> raisedAt.Some?
      ensures fault.Some? && StageOf(raisedAt.value).Some? && StageOf(raisedAt.value).value in STAGES ==>
                BlockedAt(steps, StageOf(raisedAt.value).value)
    {
      ghost var k;
      fault, k := TryStages();
      RecordRest(fault, k);
    }

    /** Called last, after publication. */
    method ReleaseExecution()
      requires Settled()
      requires Owns()
      modifies `asked, `snapshot, `tempDirs, `snapshotError, `executionFd, `openFds
      ensures executionFd == None && openFds == {}
      ensures old(asked) <= asked
    {
      CleanupBuild();
      if executionFd.Some? {
        openFds, executionFd := openFds - {executionFd.value}, None;
      }
    }

    method ResetRecord()
      modifies `finalizing, `acquired, `steps, `activeStage, `process
      ensures steps == [] && process == None && !acquired
    {
      finalizing, acquired, steps, activeStage, process := false, false, [], None, None;
    }

    ghost method ResetLog()
      modifies `looks, `launched, `logCloseFailed, `handed, `raised, `raisedAt, `events
      ensures looks == [] && launched == None && !logCloseFailed && handed == [] && raised == None && events == {}
    {
      raisedAt := None;
      looks, launched, logCloseFailed, handed, raised, events := [], None, false, [], None, {};
    }

    method Reset()
      requires Ready()
      modifies `finalizing, `acquired, `steps, `activeStage, `process, `looks, `launched, `logCloseFailed, `handed,
               `raised, `raisedAt, `events
      ensures Started() && Clear() && handed == [] && !snapshotError
    {
      ResetRecord();
      ResetLog();
    }

    /** The result, unless what was raised is what no clause catches. */
    method Decide(fault: Option<Fault>) returns (result: Option<ValidationRecord.Record>)
      requires Complete(steps) && (Explained(steps) || fault == Some(Uncaught))
      modifies `steps
      ensures Complete(steps) && (result.None? <==> fault == Some(Uncaught))
      ensures result.Some? ==> result.value == Finalize(steps) && Consistent(result.value)
      ensures result.Some? ==> (result.value.overall == Pass <==> AllPass(steps))
      ensures result.Some? ==> (AllPass(steps) <==> AllPass(old(steps)) && !snapshotError)
      ensures result.Some? ==> (result.value.overall == Fail <==> old(Failed()))
    {
      result := None;
      if fault != Some(Uncaught) {
        var concluded := Conclude();
        WorstIs(steps);
        result := Some(concluded);
      }
    }

    /** Cleaning up, and the result. */
    method FinishUp(fault: Option<Fault>) returns (result: Option<ValidationRecord.Record>)
      requires Settled() && Shape(steps, 5) && Owns() && !snapshotError && handed == []
      requires Explained(steps) || fault == Some(Uncaught)
      modifies `asked, `steps, `childAlive, `handed, `snapshot, `tempDirs, `snapshotError
      ensures Owns() && Complete(steps) && handed == [process]
      ensures result.None? <==> fault == Some(Uncaught)
      ensures result.Some? ==> result.value == Finalize(steps) && Consistent(result.value)
      ensures result.Some? ==> (result.value.overall == Pass <==> AllPass(steps))
      ensures result.Some? && AllPass(steps) ==>
                AllPass(old(steps)) && snapshot == None && (process.Some? ==> !childAlive)
      ensures result.Some? ==> (result.value.overall == Fail <==> old(Failed()))
      ensures process.None? ==> childAlive == old(childAlive)
      ensures trouble == Nothing && AllPass(old(steps)) && result.Some? ==> AllPass(steps)
      ensures old(asked) <= asked
    {
      CleanUp();
      result := Decide(fault);
    }

    /** A fresh run up to the cleanup. */
    method RunStages() returns (fault: Option<Fault>)
      requires pollInterval > 0 && Ready()
      modifies this
      ensures finalizing && Owns() && ChildKept(fault) && handed == [] && !snapshotError
      ensures Shape(steps, 5) && (Explained(steps) || fault == Some(Uncaught))
      ensures fault == Some(Uncaught) <==> raised == Some(Uncaught)
      ensures fault == Some(Uncaught) ==> env.RaisesOther()
      ensures AllPass(steps) && fault != Some(Uncaught) ==>
                Validated(looks, expected) && AllSeen() && acquired && !logCloseFailed
      ensures Failed() <==> Failing()
      ensures trouble == AtLog ==> Lost(fault)
      ensures trouble == AtImage ==> fault == Some(Uncaught)
      ensures trouble == AtCargo ==> fault.None? && Failed()
      ensures trouble == Nothing ==> fault.None? && AllPass(steps)
      ensures fault.Some? ==> raisedAt.Some?
      ensures fault.Some? && StageOf(raisedAt.value).Some? && StageOf(raisedAt.value).value in STAGES ==>
                BlockedAt(steps, StageOf(raisedAt.value).value)
    {
      Reset();
      fault := TryExcept();
    }

    method RunValidation() returns (result: Option<ValidationRecord.Record>)
      requires pollInterval > 0 && Ready()
      modifies this
      ensures finalizing && Owns()
      // Whatever was raised, every stage is recorded exactly once, in order, and so is cleanup.
      ensures Complete(steps)
      ensures handed == [process] && (process == None || process == launched)
      ensures launched.Some? ==> (handed == [launched] <==> !logCloseFailed)
      // There is no result exactly when what the try suite's calls raised last is what no clause catches.
      ensures result.None? <==> raised == Some(Uncaught)
      ensures result.None? ==> env.RaisesOther()
      ensures result.Some? ==> result.value == Finalize(steps) && Consistent(result.value)
      // Passing means everything passed, on one clean checkout, and left nothing behind.
      ensures result.Some? ==> (result.value.overall == Pass <==> AllPass(steps))
      ensures result.Some? && result.value.overall == Pass ==>
                && Validated(looks, expected) && AllSeen() && acquired && snapshot == None
                && (launched.Some? ==> !childAlive)
      // It fails exactly when the build, the start or the child itself did; otherwise it is blocked.
      ensures result.Some? ==> (result.value.overall == Fail <==> Failing())
      // Four environments: nothing goes wrong, the first image check times out, closing the log fails, or
      // the compiler does.
      ensures trouble == Nothing ==> result.Some? && result.value.overall == Pass
      ensures trouble == AtImage ==> result.None?
      ensures trouble == AtLog ==>
                result.Some? && launched.Some? && childAlive && handed == [None]
      ensures trouble == AtCargo ==> result.Some? && result.value.overall == Fail
    {
      var fault := RunStages();
      result := FinishUp(fault);
    }
  }

  // ---- Four runs

  /** A calm environment, except that one site always raises. */
  function Failing(site: Site, fault: Option<Fault>): Environment {
    Environment((s, n) => if s == site then fault else None, (s, n) => true, (s: Site, n) => s.Terminate?,
                (s, n) => "c0ffee", "c0ffee")
  }

  lemma FailingIs(site: Site, fault: Option<Fault>, trouble: Trouble)
    requires match trouble
      case Anything => true
      case Nothing => fault.None?
      case AtLog => site == CloseLog && fault == Some(OsError)
      case AtImage => site == ImageCheck && fault == Some(Uncaught)
      case AtCargo => site == Cargo && fault == Some(BuildFailure)
    ensures Describes(trouble, Failing(site, fault), None, 5)
  {
    forall s: Site | Quiet(trouble, s) ensures Failing(site, fault).Calm(s) {
      FailingElsewhere(site, fault, s);
    }
  }

  lemma FailingElsewhere(site: Site, fault: Option<Fault>, s: Site)
    requires s != site || fault.None?
    ensures Failing(site, fault).Calm(s)
  {
  }

  method NothingGoesWrong() returns (v: Validator, result: Option<ValidationRecord.Record>)
    ensures fresh(v) && result.Some? && result.value.overall == Pass && AllPass(v.steps)
  {
    FailingIs(Flock, None, Nothing);
    v := new Validator(Failing(Flock, None), None, 15, 5, 1, false, Nothing);
    result := v.RunValidation();
  }

  /** Every stage is recorded and cleaned up after, and nothing is published. */
  method ImageCheckTimesOut() returns (v: Validator, result: Option<ValidationRecord.Record>)
    ensures fresh(v) && v.env == Failing(ImageCheck, Some(Uncaught))
    ensures result.None? && v.raised == Some(Uncaught) && Complete(v.steps)
  {
    FailingIs(ImageCheck, Some(Uncaught), AtImage);
    v := new Validator(Failing(ImageCheck, Some(Uncaught)), None, 15, 5, 1, false, AtImage);
    result := v.RunValidation();
  }

  /** The child is running when the run is over, and cleanup was told there is none. */
  method LogCannotBeClosed() returns (v: Validator, result: Option<ValidationRecord.Record>)
    ensures fresh(v) && v.env == Failing(CloseLog, Some(OsError))
    ensures result.Some? && v.launched.Some? && v.childAlive && v.handed == [None]
  {
    FailingIs(CloseLog, Some(OsError), AtLog);
    v := new Validator(Failing(CloseLog, Some(OsError)), None, 15, 5, 1, false, AtLog);
    result := v.RunValidation();
  }

  /** A clean commit that does not compile fails. */
  method CompilerFails() returns (v: Validator, result: Option<ValidationRecord.Record>)
    ensures fresh(v) && v.env == Failing(Cargo, Some(BuildFailure))
    ensures result.Some? && result.value.overall == Fail
  {
    FailingIs(Cargo, Some(BuildFailure), AtCargo);
    v := new Validator(Failing(Cargo, Some(BuildFailure)), None, 15, 5, 1, false, AtCargo);
    result := v.RunValidation();
  }

  lemma StagesPrefixHas(k: nat, i: nat)
    requires k <= 5 && i < 5
    ensures STAGES[i] in STAGES[..k] <==> i < k
  {
    assert i < k ==> STAGES[..k][i] == STAGES[i];
  }

  /** With a SHA from preflight, everything looked at in a passing run is that one commit, unchanged. */
  lemma OneCommit(looks: seq<Look>, expected: Option<string>, i: nat)
    requires Validated(looks, expected) && looks[0].sha != "" && i < 5
    ensures looks[i].sha == looks[0].sha && looks[i].clean
    ensures expected.Some? ==> looks[i].sha == expected.value
  {
    assert i == 0 || i == 1 || i == 2 || i == 3 || i == 4;
  }
}
