/** The inline-syntax scenario: a chain of subtests that edit one open document,
    each followed by a restore of the baseline text unless it passed.

    The editor is an adversary: every read of the fixture may return anything,
    every helper call may fail, and every sleep may take longer than asked. */
module InlineScenario {
  import opened Wrappers
  import opened Insertion

  const BASELINE_RESTORE_MAX_UNDOS := 8

  const BOUNDARY_MARK := "Z"

  datatype Outcome = Pass | FailResult | BlockedResult | Skipped

  /** What a boundary check saw after typing the mark. */
  datatype Evidence = Evidence(actual: string, offset: Option<nat>, landing: Landing)
  {
    predicate Sound(baseline: string, canonical: nat)
      requires canonical <= |baseline|
    {
      && offset == LocateSingleInsertionOffset(baseline, actual, BOUNDARY_MARK)
      && landing == ClassifyLanding(baseline, BOUNDARY_MARK, canonical, actual).1
    }

    predicate Ambiguous() {
      landing == FarMiss || landing == AmbiguousNearCanonical
    }
  }

  /** After an ambiguous landing, the same offset again means the same text and the same landing. */
  lemma SameOffsetSameEvidence(baseline: string, canonical: nat, first: Evidence, second: Evidence)
    requires canonical <= |baseline| && first.Sound(baseline, canonical) && second.Sound(baseline, canonical)
    requires first.Ambiguous()
    ensures first.offset.Some? && (second.offset == first.offset <==> second == first)
    ensures ClassifyLanding(baseline, BOUNDARY_MARK, canonical, first.actual).0 == Blocked
  {
    assert Explains(baseline, first.actual, BOUNDARY_MARK, first.offset.value);
    if second.offset == first.offset {
      assert Explains(baseline, second.actual, BOUNDARY_MARK, second.offset.value);
    }
  }

  /** One action of a subtest.  `Await` polls for exact fixture text, `Judge`
      compares pixel digests, `Boundary` is a whole boundary click check. */
  datatype Action =
    | Act
    | Capture
    | Await(expected: string)
    | Judge
    | Boundary(canonical: nat)

  /** The text a passing run of the script read last, if it reads at all. */
  function FinalExpectation(script: seq<Action>, baseline: string): Option<string> {
    if script == [] then None
    else match script[|script| - 1]
      case Await(expected) => Some(expected)
      case Boundary(_) => Some(baseline)
      case _ => FinalExpectation(script[..|script| - 1], baseline)
  }

  /** The texts an action awaits, and the helper calls it makes if every wait is met at once. */
  function TextsOf(action: Action, baseline: string): seq<string>
    requires action.Boundary? ==> action.canonical <= |baseline|
  {
    match action
    case Await(expected) => [expected]
    case Boundary(canonical) => [InsertAt(baseline, BOUNDARY_MARK, canonical), baseline]
    case _ => []
  }

  function CallsOf(action: Action): nat {
    match action
    case Await(_) => 0
    case Boundary(_) => 4
    case _ => 1
  }

  function Texts(script: seq<Action>, baseline: string): seq<string>
    requires WellPlaced(script, baseline)
  {
    if script == [] then [] else TextsOf(script[0], baseline) + Texts(script[1..], baseline)
  }

  function Calls(script: seq<Action>): nat {
    if script == [] then 0 else CallsOf(script[0]) + Calls(script[1..])
  }

  /** How something ends, told from what the editor will answer: with so many reads and replies used up it
      goes on, it stops here, or it depends on when the reads happen. */
  datatype Foresight = GoesOn(nextRead: nat, nextReply: nat) | Stops(outcome: Outcome) | Open

  predicate WellPlaced(script: seq<Action>, baseline: string) {
    forall i :: 0 <= i < |script| && script[i].Boundary? ==> script[i].canonical <= |baseline|
  }

  /** The mark at this place is told from a mark anywhere else. */
  predicate Located(baseline: string, canonical: nat)
    requires canonical <= |baseline|
  {
    LocateSingleInsertionOffset(baseline, InsertAt(baseline, BOUNDARY_MARK, canonical), BOUNDARY_MARK)
    == Some(canonical)
  }

  lemma FreshMarkIsLocated(baseline: string, canonical: nat)
    requires canonical <= |baseline| && 'Z' !in baseline
    ensures Located(baseline, canonical)
  {
    assert 'Z' in BOUNDARY_MARK;
    FreshMarkLocated(baseline, BOUNDARY_MARK, canonical);
  }

  class EditorSession {
    const contents: nat -> string
    const replies: nat -> bool
    const delays: nat -> nat
    const hasProcess: bool
    const hasWindow: bool
    var readCount: nat
    var replyCount: nat
    var sleepCount: nat
    var now: int
    /** The text most recently written or read by the harness. */
    var lastObserved: string
    var undoCalls: nat

    constructor (contents: nat -> string, replies: nat -> bool, delays: nat -> nat, hasProcess: bool, hasWindow: bool,
                 now: int, written: string)
      ensures lastObserved == written && undoCalls == 0
      ensures this.hasProcess == hasProcess && this.hasWindow == hasWindow
    {
      this.contents, this.replies, this.delays := contents, replies, delays;
      this.hasProcess, this.hasWindow := hasProcess, hasWindow;
      this.readCount, this.replyCount, this.sleepCount, this.undoCalls := 0, 0, 0, 0;
      this.now, this.lastObserved := now, written;
    }

    method ReadFixture() returns (text: string)
      modifies `readCount, `lastObserved
      ensures text == lastObserved == contents(old(readCount))
      ensures readCount == old(readCount) + 1
    {
      text := contents(readCount);
      readCount := readCount + 1;
      lastObserved := text;
    }

    method Helper() returns (ok: bool)
      modifies `replyCount
      ensures ok == replies(old(replyCount)) && replyCount == old(replyCount) + 1
    {
      ok := replies(replyCount);
      replyCount := replyCount + 1;
    }

    method UndoSave() returns (ok: bool)
      modifies `replyCount, `undoCalls
      ensures replyCount == old(replyCount) + 1
      ensures ok == replies(old(replyCount)) && undoCalls == old(undoCalls) + 1
    {
      ok := Helper();
      undoCalls := undoCalls + 1;
    }

    method Sleep(interval: nat)
      modifies `now, `sleepCount
      ensures now == old(now) + interval + delays(old(sleepCount)) && sleepCount == old(sleepCount) + 1
    {
      now := now + interval + delays(sleepCount);
      sleepCount := sleepCount + 1;
    }

    /** Every read from the kth on found this text. */
    ghost predicate SurvivesFrom(k: nat, expected: string)
      reads `readCount
    {
      forall i :: k <= i < readCount ==> contents(i) == expected
    }

    /** Accepts the first matching read; gives up at the deadline. */
    method WaitForFixtureBytes(expected: string, timeout: nat, interval: nat) returns (matched: bool, last: string)
      requires interval > 0
      modifies `readCount, `lastObserved, `now, `sleepCount
      ensures last == lastObserved && (matched <==> last == expected)
      ensures old(readCount) < readCount && last == contents(readCount - 1)
      ensures forall k :: old(readCount) <= k < readCount - 1 ==> contents(k) != expected
      ensures !matched ==> now >= old(now) + timeout
      // One sleep between any two reads.
      ensures sleepCount - old(sleepCount) == readCount - old(readCount) - 1
      ensures readCount == old(readCount) + 1 ==> now == old(now)
    {
      var deadline := now + timeout;
      while true
        invariant deadline == old(now) + timeout && old(readCount) <= readCount
        invariant forall k :: old(readCount) <= k < readCount ==> contents(k) != expected
        invariant sleepCount - old(sleepCount) == readCount - old(readCount)
        invariant readCount == old(readCount) ==> now == old(now)
        decreases deadline - now
      {
        last := ReadFixture();
        if last == expected {
          return true, last;
        }
        if now >= deadline {
          return false, last;
        }
        Sleep(interval);
      }
    }

    /** Keeps reading to the deadline; some match survived every later read exactly when the final
        read matches. */
    method WaitForFixtureSettledBytes(expected: string, timeout: nat, interval: nat)
      returns (matched: bool, last: string)
      requires interval > 0
      modifies `readCount, `lastObserved, `now, `sleepCount
      ensures last == lastObserved && (matched <==> last == expected) && old(readCount) < readCount
      ensures matched <==> exists k: nat {:trigger SurvivesFrom(k, expected)} ::
                             old(readCount) <= k < readCount && SurvivesFrom(k, expected)
      ensures now >= old(now) + timeout
    {
      var deadline := now + timeout;
      var matchedSince: Option<int> := None;
      while true
        invariant deadline == old(now) + timeout && old(readCount) <= readCount
        decreases deadline - now
      {
        last := ReadFixture();
        if last == expected {
          if matchedSince.None? {
            matchedSince := Some(now);
          }
        } else {
          matchedSince := None;
        }
        if now >= deadline {
          assert last == expected ==> SurvivesFrom(readCount - 1, expected);
          return matchedSince.Some?, last;
        }
        Sleep(interval);
      }
    }

    /** The click, its parsed evidence and the typed mark. */
    predicate FirstReplies(n: nat) {
      replies(n) && replies(n + 1) && replies(n + 2)
    }

    /** No read from the nth on finds this text. */
    ghost predicate Never(n: nat, text: string) {
      forall k :: n <= k ==> contents(k) != text
    }

    ghost function ForeseenWait(text: string, n: nat, m: nat): Foresight {
      if contents(n) == text then GoesOn(n + 1, m)
      else if Never(n, text) then Stops(FailResult)
      else Open
    }

    ghost function ForeseenUndo(baseline: string, n: nat, m: nat): Foresight {
      if !replies(m) then Stops(FailResult) else ForeseenWait(baseline, n, m + 1)
    }

    /** Without click and mark a boundary check blocks; a mark at its place, explained in no other way, is
        undone, and everything has to go back to the baseline. */
    ghost function ForeseenBoundary(baseline: string, canonical: nat, n: nat, m: nat): Foresight
      requires canonical <= |baseline|
    {
      if !FirstReplies(m) then Stops(BlockedResult)
      else if contents(n) != InsertAt(baseline, BOUNDARY_MARK, canonical) then Open
      else if !Located(baseline, canonical) then Stops(BlockedResult)
      else ForeseenUndo(baseline, n + 1, m + 3)
    }

    ghost function ForeseenAction(action: Action, baseline: string, n: nat, m: nat): Foresight
      requires action.Boundary? ==> action.canonical <= |baseline|
    {
      match action
      case Await(expected) => ForeseenWait(expected, n, m)
      case Boundary(canonical) => ForeseenBoundary(baseline, canonical, n, m)
      case Judge => if replies(m) then GoesOn(n, m + 1) else Stops(FailResult)
      case _ => if replies(m) then GoesOn(n, m + 1) else Stops(BlockedResult)
    }

    /** The first action that does not go on decides. */
    ghost function Foreseen(script: seq<Action>, baseline: string, n: nat, m: nat): Foresight
      requires WellPlaced(script, baseline)
    {
      if script == [] then GoesOn(n, m)
      else
        var first := ForeseenAction(script[0], baseline, n, m);
        if first.GoesOn? then Foreseen(script[1..], baseline, first.nextRead, first.nextReply) else first
    }

    /** So many helper calls in a row were answered. */
    predicate Answered(from: nat, count: nat) {
      forall i: nat :: from <= i < from + count ==> replies(i)
    }

    /** The reads from the nth on find these texts. */
    predicate Shows(n: nat, texts: seq<string>) {
      forall i :: 0 <= i < |texts| ==> contents(n + i) == texts[i]
    }

    lemma ShowsSplit(n: nat, a: seq<string>, b: seq<string>)
      requires Shows(n, a + b)
      ensures Shows(n, a) && Shows(n + |a|, b)
    {
      assert forall i :: 0 <= i < |a| ==> (a + b)[i] == a[i];
      forall i | 0 <= i < |b| ensures contents(n + |a| + i) == b[i] {
        assert (a + b)[|a| + i] == b[i];
      }
    }

    lemma ObligedAction(action: Action, baseline: string, n: nat, m: nat)
      requires action.Boundary? ==> action.canonical <= |baseline|
      requires 'Z' !in baseline && Answered(m, CallsOf(action)) && Shows(n, TextsOf(action, baseline))
      ensures ForeseenAction(action, baseline, n, m)
              == GoesOn(n + |TextsOf(action, baseline)|, m + CallsOf(action))
    {
      match action {
        case Boundary(canonical) =>
          FreshMarkIsLocated(baseline, canonical);
          assert TextsOf(action, baseline)[0] == contents(n + 0);
          assert TextsOf(action, baseline)[1] == contents(n + 1);
        case Await(expected) => assert TextsOf(action, baseline)[0] == contents(n + 0);
        case _ =>
      }
    }

    /** An editor that answers every call and shows every text awaited, in a document without the mark's
        character, gets through the whole script with one read for each text. */
    lemma {:induction false} ObligingEditor(script: seq<Action>, baseline: string, n: nat, m: nat)
      requires WellPlaced(script, baseline) && 'Z' !in baseline
      requires Answered(m, Calls(script)) && Shows(n, Texts(script, baseline))
      ensures Foreseen(script, baseline, n, m) == GoesOn(n + |Texts(script, baseline)|, m + Calls(script))
    {
      if script != [] {
        var own, rest := TextsOf(script[0], baseline), Texts(script[1..], baseline);
        ShowsSplit(n, own, rest);
        ObligedAction(script[0], baseline, n, m);
        ObligingEditor(script[1..], baseline, n + |own|, m + CallsOf(script[0]));
      }
    }

    /** The state after something that was foreseen. */
    ghost predicate AsForeseen(f: Foresight, outcome: Outcome)
      reads `readCount, `replyCount
    {
      match f
      case GoesOn(n, m) => outcome == Pass && readCount == n && replyCount == m
      case Stops(o) => outcome == o
      case Open => true
    }

    /** Force-save, then undo until the fixture settles on the baseline, then park the caret.
        Passing means the last text read was the baseline; at most eight undos are spent,
        and all eight are spent before an unmatched restore gives up. */
    method RestoreScenarioBaseline(baseline: string, timeout: nat, interval: nat)
      returns (restored: bool, attempts: nat, gaveUp: bool)
      requires interval > 0
      modifies this
      ensures attempts <= 8 && undoCalls <= old(undoCalls) + 8
      // Each answered undo is followed by a wait of its own.
      ensures old(readCount) + (if Answered(old(replyCount), 1) then attempts + 1 else 0) <= readCount
      // The save, every undo and the caret move were answered, and the last wait ended on the baseline.
      ensures restored <==> Answered(old(replyCount), attempts + 2) && lastObserved == baseline
      // Otherwise something was not answered, or eight undos were.
      ensures gaveUp <==> Answered(old(replyCount), attempts + 1) && lastObserved != baseline && attempts == 8
      ensures lastObserved != baseline && !gaveUp ==> !Answered(old(replyCount), attempts + 2)
    {
      restored, attempts, gaveUp := false, 0, false;
      var ok := Helper();
      if !ok {
        return;
      }
      var matched, actual := WaitForFixtureSettledBytes(baseline, timeout, interval);
      while !matched && attempts < BASELINE_RESTORE_MAX_UNDOS
        invariant attempts <= BASELINE_RESTORE_MAX_UNDOS
        invariant undoCalls == old(undoCalls) + attempts
        invariant replyCount == old(replyCount) + attempts + 1 && Answered(old(replyCount), attempts + 1)
        invariant (matched <==> lastObserved == baseline) && old(readCount) + attempts + 1 <= readCount
      {
        ok := UndoSave();
        if !ok {
          return;
        }
        attempts := attempts + 1;
        matched, actual := WaitForFixtureSettledBytes(baseline, timeout, interval);
      }
      if !matched {
        gaveUp := true;
        return;
      }
      restored := Helper();
    }

    method ClickAndType() returns (ok: bool)
      modifies `replyCount
      ensures ok <==> FirstReplies(old(replyCount))
      ensures ok ==> replyCount == old(replyCount) + 3
    {
      ok := Helper();
      if ok {
        ok := Helper();
        if ok {
          ok := Helper();
        }
      }
    }

    method UndoMark(baseline: string, timeout: nat, interval: nat) returns (outcome: Outcome)
      requires interval > 0
      modifies this
      ensures outcome in {Pass, FailResult} && old(readCount) <= readCount
      ensures outcome == Pass <==> replies(old(replyCount)) && lastObserved == baseline
      ensures AsForeseen(ForeseenUndo(baseline, old(readCount), old(replyCount)), outcome)
    {
      var undone := UndoSave();
      if !undone { return FailResult; }
      var matched, _ := WaitForFixtureBytes(baseline, timeout, interval);
      outcome := if matched then Pass else FailResult;
    }

    /** Click a boundary, type the mark, classify where it landed, undo.  Without the click and the
        mark there is no evidence; with them, the text read decides, except that a mark at its
        place also has to be undone. */
    method BoundaryEditCheck(baseline: string, canonical: nat, timeout: nat, interval: nat)
      returns (outcome: Outcome, evidence: Option<Evidence>)
      requires interval > 0 && canonical <= |baseline|
      modifies this
      ensures evidence.Some? <==> FirstReplies(old(replyCount))
      ensures evidence.None? ==> outcome == BlockedResult
      ensures evidence.Some? ==>
                && evidence.value.Sound(baseline, canonical)
                && (exists k :: old(readCount) <= k < readCount && contents(k) == evidence.value.actual)
                && match ClassifyLanding(baseline, BOUNDARY_MARK, canonical, evidence.value.actual).0
                   case Fail => outcome == FailResult
                   case Blocked => outcome == BlockedResult
                   case Continue =>
                     && outcome in {Pass, FailResult}
                     && (outcome == Pass <==> replies(old(replyCount) + 3) && lastObserved == baseline)
      ensures outcome == Pass ==> evidence.Some? && evidence.value.landing == AtCanonical && lastObserved == baseline
      ensures AsForeseen(ForeseenBoundary(baseline, canonical, old(readCount), old(replyCount)), outcome)
    {
      var typed := ClickAndType();
      if !typed { return BlockedResult, None; }
      var expected := InsertAt(baseline, BOUNDARY_MARK, canonical);
      var matched, actual := WaitForFixtureBytes(expected, timeout, interval);
      var (verdict, landing) := ClassifyLanding(baseline, BOUNDARY_MARK, canonical, actual);
      evidence := Some(Evidence(actual, LocateSingleInsertionOffset(baseline, actual, BOUNDARY_MARK), landing));
      match verdict {
        case Fail => return FailResult, evidence;
        case Blocked => return BlockedResult, evidence;
        case Continue =>
      }
      outcome := UndoMark(baseline, timeout, interval);
    }

    /** A second attempt after an ambiguous landing only gathers evidence: the outcome never changes,
        and the mismatch counts as reproduced exactly when the second attempt saw the same text,
        offset and landing as the first. */
    method ConfirmReproducibility(baseline: string, canonical: nat, timeout: nat, interval: nat,
                                  first: Outcome, evidence: Evidence)
      returns (outcome: Outcome, second: Option<(Outcome, Option<Evidence>)>, reproduced: bool)
      requires interval > 0 && canonical <= |baseline|
      requires evidence.Sound(baseline, canonical) && evidence.Ambiguous()
      modifies this
      ensures outcome == first
      ensures second.Some? && second.value.1.Some? ==> second.value.1.value.Sound(baseline, canonical)
      ensures reproduced <==> second.Some? && second.value.1 == Some(evidence)
      ensures reproduced ==> second.value.0 == BlockedResult
    {
      outcome, second, reproduced := first, None, false;
      var restored, _, _ := RestoreScenarioBaseline(baseline, timeout, interval);
      if !restored { return; }
      var captured := Helper();
      if !captured { return; }
      var again, landed := BoundaryEditCheck(baseline, canonical, timeout, interval);
      second := Some((again, landed));
      if landed.Some? {
        SameOffsetSameEvidence(baseline, canonical, evidence, landed.value);
      }
      if again == Pass { return; }
      reproduced := evidence.offset.Some? && landed.Some? && landed.value.offset == evidence.offset;
    }

    method RunAction(action: Action, baseline: string, timeout: nat, interval: nat) returns (outcome: Outcome)
      requires interval > 0
      requires action.Boundary? ==> action.canonical <= |baseline|
      modifies this
      ensures outcome != Skipped
      ensures outcome == Pass ==>
                match action
                case Await(expected) => lastObserved == expected
                case Boundary(_) => lastObserved == baseline
                case _ => lastObserved == old(lastObserved)
      // A call that is not answered blocks, except where it is the judgement itself.
      ensures action in {Act, Capture, Judge} ==>
                outcome ==
                if replies(old(replyCount)) then Pass else if action == Judge then FailResult else BlockedResult
      ensures action.Await? ==> outcome == if lastObserved == action.expected then Pass else FailResult
      ensures AsForeseen(ForeseenAction(action, baseline, old(readCount), old(replyCount)), outcome)
    {
      match action {
        case Act =>
          var ok := Helper();
          outcome := if ok then Pass else BlockedResult;
        case Capture =>
          var ok := Helper();
          outcome := if ok then Pass else BlockedResult;
        case Judge =>
          var ok := Helper();
          outcome := if ok then Pass else FailResult;
        case Await(expected) =>
          var matched, _ := WaitForFixtureBytes(expected, timeout, interval);
          outcome := if matched then Pass else FailResult;
        case Boundary(canonical) =>
          var evidence;
          outcome, evidence := BoundaryEditCheck(baseline, canonical, timeout, interval);
          if outcome == BlockedResult && evidence.Some? && evidence.value.Ambiguous() {
            var second, reproduced;
            outcome, second, reproduced :=
              ConfirmReproducibility(baseline, canonical, timeout, interval, outcome, evidence.value);
          }
      }
    }

    /** Runs the actions in order and stops at the first that does not pass. */
    method RunScript(script: seq<Action>, baseline: string, timeout: nat, interval: nat) returns (outcome: Outcome)
      requires interval > 0 && WellPlaced(script, baseline)
      modifies this
      ensures outcome == Pass && FinalExpectation(script, baseline).Some? ==>
                lastObserved == FinalExpectation(script, baseline).value
      ensures outcome == Skipped <==> !hasProcess || !hasWindow
      ensures hasProcess && hasWindow ==>
                AsForeseen(Foreseen(script, baseline, old(readCount), old(replyCount)), outcome)
    {
      if !hasProcess || !hasWindow {
        return Skipped;
      }
      outcome := Pass;
      var i := 0;
      ghost var foreseen := Foreseen(script, baseline, readCount, replyCount);
      assert script[0..] == script;
      while i < |script| && outcome == Pass
        invariant i <= |script| && outcome != Skipped
        invariant outcome == Pass && !foreseen.Open? ==>
                    Foreseen(script[i..], baseline, readCount, replyCount) == foreseen
        invariant outcome != Pass ==> AsForeseen(foreseen, outcome)
        invariant outcome == Pass && FinalExpectation(script[..i], baseline).Some? ==>
                    lastObserved == FinalExpectation(script[..i], baseline).value
      {
        assert script[i..][1..] == script[i + 1..];
        outcome := RunAction(script[i], baseline, timeout, interval);
        assert script[..i + 1][..i] == script[..i];
        i := i + 1;
      }
      assert script[..|script|] == script;
    }

    ghost predicate SomeUnanswered() {
      exists i: nat :: !replies(i)
    }

    /** A subtest that did not pass must be followed by a successful restore to go on. */
    method RunMutatingSubtest(script: seq<Action>, baseline: string, timeout: nat, interval: nat)
      returns (outcome: Outcome, goOn: bool)
      requires interval > 0 && WellPlaced(script, baseline)
      requires FinalExpectation(script, baseline) == Some(baseline)
      modifies this
      ensures goOn ==> lastObserved == baseline
      ensures outcome == Pass ==> goOn
      ensures outcome == Skipped <==> !hasProcess || !hasWindow
      ensures hasProcess && hasWindow ==>
                AsForeseen(Foreseen(script, baseline, old(readCount), old(replyCount)), outcome)
      // It does not go on only without a process, or when the helper or the editor failed it.
      ensures !goOn ==> !hasProcess || SomeUnanswered() || lastObserved != baseline
    {
      outcome := RunScript(script, baseline, timeout, interval);
      if outcome == Pass {
        return outcome, true;
      }
      if !hasProcess {
        return outcome, false;
      }
      var attempts, gaveUp;
      goOn, attempts, gaveUp := RestoreScenarioBaseline(baseline, timeout, interval);
    }

    /** The first outcomes of the subtests, as far as they can be told. */
    ghost function ForeseenRun(subtests: seq<Subtest>, baseline: string, n: nat, m: nat): seq<Outcome>
      requires forall i :: 0 <= i < |subtests| ==> subtests[i].Valid(baseline)
    {
      if subtests == [] then []
      else
        EverySubtestEndsAtBaseline(subtests[0], baseline);
        match Foreseen(subtests[0].Script(baseline), baseline, n, m)
        case GoesOn(nextRead, nextReply) => [Pass] + ForeseenRun(subtests[1..], baseline, nextRead, nextReply)
        case Stops(outcome) => [outcome]
        case Open => []
    }

    lemma ForeseenNext(outcomes: seq<Outcome>, rest: seq<Subtest>, baseline: string, n: nat, m: nat)
      requires rest != [] && forall i :: 0 <= i < |rest| ==> rest[i].Valid(baseline)
      ensures WellPlaced(rest[0].Script(baseline), baseline)
      ensures var foreseen := outcomes + ForeseenRun(rest, baseline, n, m);
        match Foreseen(rest[0].Script(baseline), baseline, n, m)
        case GoesOn(a, b) => foreseen == (outcomes + [Pass]) + ForeseenRun(rest[1..], baseline, a, b)
        case Stops(outcome) => foreseen == outcomes + [outcome]
        case Open => foreseen == outcomes
    {
      EverySubtestEndsAtBaseline(rest[0], baseline);
    }

    /** The scenario loop.  `starts[i]` is the text last observed when subtest `i` began;
        the executed subtests are a prefix of the list, it ends early only right after a
        failed restore, and every executed subtest began on the baseline. */
    method RunSubtests(subtests: seq<Subtest>, baseline: string, timeout: nat, interval: nat)
      returns (outcomes: seq<Outcome>, starts: seq<string>, lastRestoreFailed: bool)
      requires interval > 0 && lastObserved == baseline
      requires forall i :: 0 <= i < |subtests| ==> subtests[i].Valid(baseline)
      modifies this
      ensures |outcomes| == |subtests| && |starts| <= |subtests|
      ensures forall i :: 0 <= i < |starts| ==> starts[i] == baseline
      ensures forall i :: |starts| <= i < |subtests| ==> outcomes[i] == Skipped
      ensures |starts| < |subtests| ==> lastRestoreFailed && |starts| > 0 && outcomes[|starts| - 1] != Pass
      ensures !lastRestoreFailed ==> lastObserved == baseline
      ensures lastRestoreFailed ==> !hasProcess || SomeUnanswered() || lastObserved != baseline
      // What can be told of the outcomes from the editor's answers comes about.
      ensures forall i :: 0 <= i < |starts| ==> (outcomes[i] == Skipped <==> !hasProcess || !hasWindow)
      ensures hasProcess && hasWindow ==> ForeseenRun(subtests, baseline, old(readCount), old(replyCount)) <= outcomes
    {
      outcomes, starts := [], [];
      var continueOk := true;
      ghost var foreseen := ForeseenRun(subtests, baseline, readCount, replyCount);
      ghost var told := true;   // the counts are those foreseen
      assert subtests[0..] == subtests;
      for i := 0 to |subtests|
        invariant |outcomes| == i && |starts| <= i
        invariant forall k :: 0 <= k < |starts| ==> starts[k] == baseline
        invariant forall k :: |starts| <= k < i ==> outcomes[k] == Skipped
        invariant continueOk ==> |starts| == i && lastObserved == baseline
        invariant !continueOk ==> |starts| > 0 && outcomes[|starts| - 1] != Pass
        invariant !continueOk ==> !hasProcess || SomeUnanswered() || lastObserved != baseline
        invariant forall k :: 0 <= k < |starts| ==> (outcomes[k] == Skipped <==> !hasProcess || !hasWindow)
        invariant hasProcess && hasWindow && told ==>
                    continueOk && foreseen == outcomes + ForeseenRun(subtests[i..], baseline, readCount, replyCount)
        invariant hasProcess && hasWindow && !told ==> foreseen <= outcomes
      {
        if !continueOk {
          outcomes := outcomes + [Skipped];
          continue;
        }
        starts := starts + [lastObserved];
        EverySubtestEndsAtBaseline(subtests[i], baseline);
        assert subtests[i..][1..] == subtests[i + 1..];
        ForeseenNext(outcomes, subtests[i..], baseline, readCount, replyCount);
        ghost var next := Foreseen(subtests[i].Script(baseline), baseline, readCount, replyCount);
        told := told && next.GoesOn?;
        var outcome;
        outcome, continueOk := RunMutatingSubtest(subtests[i].Script(baseline), baseline, timeout, interval);
        outcomes := outcomes + [outcome];
      }
      lastRestoreFailed := !continueOk;
    }
  }

  // ---- The scenario's own subtests

  function BoundaryScript(offsets: seq<nat>): seq<Action> {
    if offsets == [] then [] else [Capture, Boundary(offsets[0]), Act] + BoundaryScript(offsets[1..])
  }

  function NavigationScript(expected: seq<string>, baseline: string): seq<Action> {
    if expected == [] then [Act]
    else
      [Act, Capture, Act, Act, Act, Await(expected[0]), Act, Await(baseline)]
      + NavigationScript(expected[1..], baseline)
  }

  function ImeScript(inserted: string, baseline: string): seq<Action> {
    [Act, Act, Act, Act, Capture, Act, Act, Await(inserted), Act, Await(baseline), Act]
  }

  function DragScript(deleted: string, baseline: string): seq<Action> {
    [Capture, Act, Act, Await(deleted), Act, Await(baseline), Act, Await(deleted), Act, Await(baseline), Act]
  }

  function DelimiterScript(unclosed: string, closed: string, baseline: string): seq<Action> {
    [Act, Await(closed), Act, Capture, Act, Act, Act, Act, Await(unclosed), Act, Capture, Act, Act, Act,
     Await(closed), Act, Capture, Act, Judge, Act, Act, Act, Await(baseline), Act]
  }

  function CodeSpanScript(unclosed: string, baseline: string): seq<Action> {
    [Act, Capture, Act, Act, Act, Act, Await(unclosed), Act, Capture, Act, Act, Act,
     Await(baseline), Act, Capture, Act, Judge, Act]
  }

  /** The kinds of subtest the scenario chains together, with the texts each awaits. */
  datatype Subtest =
    | BoundaryClicks(offsets: seq<nat>)
    | CaretNavigation(moved: seq<string>)
    | ImeInput(inserted: string)
    | DragSelect(deleted: string)
    | DelimiterToggle(unclosed: string, closed: string)
    | CodeSpanToggle(unclosed: string)
  {
    function Script(baseline: string): seq<Action> {
      match this
      case BoundaryClicks(offsets) => BoundaryScript(offsets)
      case CaretNavigation(moved) => NavigationScript(moved, baseline)
      case ImeInput(inserted) => ImeScript(inserted, baseline)
      case DragSelect(deleted) => DragScript(deleted, baseline)
      case DelimiterToggle(unclosed, closed) => DelimiterScript(unclosed, closed, baseline)
      case CodeSpanToggle(unclosed) => CodeSpanScript(unclosed, baseline)
    }

    /** At least one check per subtest, each mark somewhere in the text. */
    predicate Valid(baseline: string) {
      match this
      case BoundaryClicks(offsets) => offsets != [] && forall k :: 0 <= k < |offsets| ==> offsets[k] <= |baseline|
      case CaretNavigation(moved) => moved != []
      case _ => true
    }
  }

  lemma {:induction false} FinalExpectationOfConcat(a: seq<Action>, b: seq<Action>, baseline: string)
    ensures FinalExpectation(a + b, baseline) ==
            if FinalExpectation(b, baseline).Some? then FinalExpectation(b, baseline) else FinalExpectation(a, baseline)
  {
    if b == [] {
      assert a + b == a;
    } else {
      assert (a + b)[..|a + b| - 1] == a + b[..|b| - 1];
      FinalExpectationOfConcat(a, b[..|b| - 1], baseline);
    }
  }

  lemma {:induction false} BoundaryScriptEndsAtBaseline(offsets: seq<nat>, baseline: string)
    requires offsets != [] && forall k :: 0 <= k < |offsets| ==> offsets[k] <= |baseline|
    ensures WellPlaced(BoundaryScript(offsets), baseline)
    ensures FinalExpectation(BoundaryScript(offsets), baseline) == Some(baseline)
  {
    var head := [Capture, Boundary(offsets[0]), Act];
    assert head[..2][..1] == [Capture];
    FinalExpectationOfConcat(head, BoundaryScript(offsets[1..]), baseline);
    if |offsets| > 1 {
      BoundaryScriptEndsAtBaseline(offsets[1..], baseline);
    }
  }

  lemma {:induction false} NavigationScriptEndsAtBaseline(expected: seq<string>, baseline: string)
    requires expected != []
    ensures WellPlaced(NavigationScript(expected, baseline), baseline)
    ensures FinalExpectation(NavigationScript(expected, baseline), baseline) == Some(baseline)
  {
    var head := [Act, Capture, Act, Act, Act, Await(expected[0]), Act, Await(baseline)];
    FinalExpectationOfConcat(head, NavigationScript(expected[1..], baseline), baseline);
    if |expected| > 1 {
      NavigationScriptEndsAtBaseline(expected[1..], baseline);
    } else {
      assert [Act][..0] == [];
    }
  }

  /** Whatever the marks and texts, a passing subtest of the scenario has just read
      the baseline back, so the loop's guarantee applies to any list of them. */
  lemma EverySubtestEndsAtBaseline(subtest: Subtest, baseline: string)
    requires subtest.Valid(baseline)
    ensures WellPlaced(subtest.Script(baseline), baseline)
    ensures FinalExpectation(subtest.Script(baseline), baseline) == Some(baseline)
  {
    var script := subtest.Script(baseline);
    match subtest {
      case BoundaryClicks(offsets) => BoundaryScriptEndsAtBaseline(offsets, baseline);
      case CaretNavigation(moved) => NavigationScriptEndsAtBaseline(moved, baseline);
      case ImeInput(_) => EndsAtAwait(script, 9, baseline);
      case DragSelect(_) => EndsAtAwait(script, 9, baseline);
      case DelimiterToggle(_, _) => EndsAtAwait(script, 22, baseline);
      case CodeSpanToggle(_) => EndsAtAwait(script, 12, baseline);
    }
  }

  /** An `Await` followed by no other read decides the final expectation. */
  lemma {:induction false} EndsAtAwait(script: seq<Action>, at: nat, baseline: string)
    requires at < |script| && script[at].Await?
    requires forall k :: at < k < |script| ==> !script[k].Await? && !script[k].Boundary?
    ensures FinalExpectation(script, baseline) == Some(script[at].expected)
  {
    if at < |script| - 1 {
      EndsAtAwait(script[..|script| - 1], at, baseline);
    }
  }
}
