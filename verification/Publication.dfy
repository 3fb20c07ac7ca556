/** Publishing the result document of a GUI validation while abort signals may arrive at any
    moment and every file operation may fail.

    From the end of validation on, abort signals are only recorded; the publisher folds them
    into the document at three kinds of point and writes it again if it changed. */
module Publication {
  import opened ValidationRecord
  import opened Wrappers

  const EXIT_PASS := 0
  const EXIT_FAIL := 1
  const EXIT_BLOCKED := 2

  const ABORT_REASON := "interrupted"

  function ExitCode(v: Verdict): int {
    match v
    case Pass => EXIT_PASS
    case Fail => EXIT_FAIL
    case _ => EXIT_BLOCKED
  }

  /** What a caller sees: 0 for a pass, 1 for a failure, 2 for anything else. */
  lemma ExitCodes(v: Verdict)
    ensures ExitCode(v) == 0 <==> v == Pass
    ensures ExitCode(v) == 1 <==> v == Fail
    ensures ExitCode(v) in {0, 1, 2}
  {
  }

  /** The document after an abort: marked, never left passing, its summary rewritten. */
  function Downgraded(r: Record, signals: seq<int>): Record {
    var overall := if r.overall == Pass then Blocked else r.overall;
    var reasons := r.reasons + [ABORT_REASON];
    Record(r.steps + [Step(PublicationAbort, Blocked, Some(ABORT_REASON), signals)], overall, reasons,
        Summary(overall, reasons))
  }

  predicate Marked(r: Record) {
    Has(r.steps, PublicationAbort)
  }

  /** Consistent, and not passing once an abort has been folded in. */
  predicate Sound(r: Record) {
    Consistent(r) && (Marked(r) ==> r.overall != Pass)
  }

  /** The verdict is worse only if it was a pass; what was recorded stays, and the abort comes last. */
  lemma DowngradedIsMarked(r: Record, signals: seq<int>)
    ensures Marked(Downgraded(r, signals)) && Downgraded(r, signals).overall != Pass
    ensures Consistent(r) ==> Sound(Downgraded(r, signals))
    ensures r.overall == Pass ==> Downgraded(r, signals).overall == Blocked
    ensures r.overall != Pass ==> Downgraded(r, signals).overall == r.overall
    ensures r.steps < Downgraded(r, signals).steps && r.reasons < Downgraded(r, signals).reasons
    ensures var last := Downgraded(r, signals).steps[|r.steps|];
      last.name == PublicationAbort && last.verdict == Blocked && last.signals == signals
  {
    assert Downgraded(r, signals).steps[|r.steps|].name == PublicationAbort;
  }

  /** What a file in the run directory holds: the whole of a value, or a torn write. */
  datatype File<T> = Whole(value: T) | Torn

  class Publisher {
    const acquired: bool             // this run holds the display lock
    const disk: nat -> bool          // whether the nth file operation works
    var attempts: nat                // file operations so far
    var reserved: bool               // this run owns the run directory
    const directoryEmpty: bool       // nothing in it before it is reserved
    var pending: seq<int>            // abort signals recorded so far
    var record: Record
    var receipt: Option<File<Record>>       // result.json
    var summary: Option<File<Summary>>      // summary.md
    var receiptTemp: Option<File<Record>>
    var summaryTemp: Option<File<Summary>>
    var unlinkFailed: bool           // some invalidation failed
    ghost var checked: seq<int>      // the signals seen by the last check
    ghost var passes: nat            // completed or attempted writes of the document

    constructor (disk: nat -> bool, acquired: bool, reserved: bool, directoryEmpty: bool, pending: seq<int>,
                 record: Record, receipt: Option<File<Record>>, summary: Option<File<Summary>>)
      ensures this.disk == disk && attempts == 0 && this.acquired == acquired && this.reserved == reserved
              && this.directoryEmpty == directoryEmpty
      ensures this.pending == pending && this.record == record && this.receipt == receipt && this.summary == summary
      ensures !unlinkFailed && passes == 0
    {
      this.acquired, this.reserved, this.directoryEmpty := acquired, reserved, directoryEmpty;
      this.disk, attempts, this.pending, this.record := disk, 0, pending, record;
      this.receipt, this.summary, receiptTemp, summaryTemp := receipt, summary, None, None;
      unlinkFailed, checked, passes := false, [], 0;
    }

    /** Whether some file operation since then did not work. */
    ghost predicate FailedSince(n: nat)
      reads `attempts
    {
      Fails(n, attempts)
    }

    ghost predicate Fails(from: nat, to: nat) {
      exists i: nat :: from <= i < to && !disk(i)
    }

    lemma FailsSplit(from: nat, middle: nat, to: nat)
      requires from <= middle <= to
      ensures Fails(from, to) <==> Fails(from, middle) || Fails(middle, to)
    {
      if i: nat :| from <= i < to && !disk(i) {
        assert i < middle ==> Fails(from, middle);
        assert middle <= i ==> Fails(middle, to);
      }
    }

    /** A file operation, which works or not. */
    method Attempt() returns (ok: bool)
      modifies `attempts
      ensures attempts == old(attempts) + 1 && ok == disk(old(attempts))
    {
      ok := disk(attempts);
      attempts := attempts + 1;
    }

    /** Any number of abort signals arrive. */
    method Interrupted()
      modifies `pending
      ensures old(pending) <= pending
    {
      var more: seq<int> := *;
      pending := pending + more;
    }

    /** Claims the run directory, unless already claimed; fails where another run's files are. */
    method Reserve() returns (ok: bool)
      modifies `reserved, `pending, `attempts
      ensures old(pending) <= pending && reserved == ok && old(attempts) <= attempts
      ensures ok <==> old(reserved) || (directoryEmpty && !FailedSince(old(attempts)))
      ensures old(reserved) ==> ok && pending == old(pending) && attempts == old(attempts)
      ensures !old(reserved) && ok ==> directoryEmpty
    {
      if reserved {
        return true;
      }
      Interrupted();
      ok := Attempt();
      ok := ok && directoryEmpty;
      reserved := ok;
    }

    /** Folds recorded aborts into the document, once; true if that changed it. */
    method IncorporateAborts() returns (changed: bool)
      modifies `record, `checked
      ensures checked == pending
      ensures changed <==> pending != [] && !Marked(old(record))
      ensures record == if changed then Downgraded(old(record), pending) else old(record)
      ensures pending != [] ==> Marked(record)
      ensures Sound(old(record)) ==> Sound(record)
    {
      checked := pending;
      if pending == [] || Has(record.steps, PublicationAbort) {
        return false;
      }
      DowngradedIsMarked(record, pending);
      record := Downgraded(record, pending);
      return true;
    }

    method WriteTemps() returns (ok: bool)
      modifies `receiptTemp, `summaryTemp, `pending, `attempts
      ensures old(pending) <= pending && old(attempts) < attempts
      ensures ok <==> !FailedSince(old(attempts))
      ensures ok ==> receiptTemp == Some(Whole(record)) && summaryTemp == Some(Whole(record.summary))
    {
      Interrupted();
      ok := Attempt();
      if !ok {
        receiptTemp := *;
        return;
      }
      receiptTemp := Some(Whole(record));
      Interrupted();
      ok := Attempt();
      if !ok {
        summaryTemp := *;
        return;
      }
      summaryTemp := Some(Whole(record.summary));
    }

    /** Writes the document beside the old one, then moves the summary and, last, the receipt into place. */
    method WriteDocument() returns (ok: bool)
      modifies `receipt, `summary, `receiptTemp, `summaryTemp, `pending, `passes, `attempts
      ensures old(pending) <= pending && passes == old(passes) + 1 && old(attempts) < attempts
      ensures ok <==> !FailedSince(old(attempts))
      ensures ok ==> receipt == Some(Whole(record)) && summary == Some(Whole(record.summary))
      ensures !ok ==> receipt == old(receipt) && summary in {old(summary), Some(Whole(record.summary))}
    {
      passes := passes + 1;
      ok := WriteTemps();
      if !ok {
        return;
      }
      Interrupted();
      ok := Attempt();
      if !ok {
        return;
      }
      summary, summaryTemp := summaryTemp, None;
      Interrupted();
      ok := Attempt();
      if !ok {
        return;
      }
      receipt, receiptTemp := receiptTemp, None;
      Interrupted();
    }

    /** Removes whatever an earlier pass published. */
    method Invalidate()
      modifies `receipt, `summary, `unlinkFailed, `pending, `attempts
      ensures old(pending) <= pending && old(attempts) < attempts
      ensures unlinkFailed <==> old(unlinkFailed) || FailedSince(old(attempts))
      ensures receipt == None || (receipt == old(receipt) && unlinkFailed)
      ensures summary == None || (summary == old(summary) && unlinkFailed)
      ensures old(unlinkFailed) ==> unlinkFailed
    {
      Interrupted();
      var ok := Attempt();
      if ok { receipt := None; } else { unlinkFailed := true; }
      Interrupted();
      ok := Attempt();
      if ok { summary := None; } else { unlinkFailed := true; }
    }

    /** The document is the one given, or its downgrade by signals that really arrived; it is
        downgraded for certain if some had arrived already. */
    ghost predicate Follows(r: Record, arrived: seq<int>)
      reads this
    {
      || (record == r && (arrived == [] || Marked(r)))
      || (!Marked(r) && exists signals {:trigger Downgraded(r, signals)} ::
            signals != [] && arrived <= signals <= pending && record == Downgraded(r, signals))
    }

    lemma ArrivedMeansMarked(r: Record, arrived: seq<int>)
      requires Follows(r, arrived) && arrived != []
      ensures Marked(record)
    {
      if record != r {
        var signals :| signals != [] && arrived <= signals <= pending && record == Downgraded(r, signals);
        DowngradedIsMarked(r, signals);
      }
    }

    lemma FollowsUnmarked(r: Record, arrived: seq<int>)
      requires Follows(r, arrived)
      ensures Marked(record) || (record == r && arrived == [])
    {
      if arrived != [] {
        ArrivedMeansMarked(r, arrived);
      } else if record != r {
        var signals :| signals != [] && arrived <= signals <= pending && record == Downgraded(r, signals);
        DowngradedIsMarked(r, signals);
      }
    }

    lemma FollowsOverall(r: Record, arrived: seq<int>)
      requires Follows(r, arrived)
      ensures record.overall == if record != r && r.overall == Pass then Blocked else r.overall
    {
      if record != r {
        var signals :| signals != [] && arrived <= signals <= pending && record == Downgraded(r, signals);
        DowngradedIsMarked(r, signals);
      }
    }

    ghost predicate Published()
      reads this
    {
      receipt == Some(Whole(record)) && summary == Some(Whole(record.summary))
    }

    ghost predicate Invalidated()
      reads this
    {
      (receipt == None || unlinkFailed) && (summary == None || unlinkFailed)
    }

    /** Whether a reader of the run directory finds a passing receipt. */
    predicate ShowsPass()
      reads this
    {
      receipt.Some? && receipt.value.Whole? && receipt.value.value.overall == Pass
    }

    /** Writes until the document on disk includes every abort seen.  False if a write failed. */
    method WriteUntilCurrent() returns (ok: bool)
      requires Sound(record)
      modifies this
      ensures reserved == old(reserved) && old(pending) <= pending && Follows(old(record), old(pending))
              && Sound(record)
      ensures passes == old(passes) + 1
              || (passes == old(passes) + 2 && !Marked(old(record)) && old(pending) == [] && Marked(record))
      ensures old(attempts) < attempts && (ok <==> !FailedSince(old(attempts)))
      ensures ok ==> Published() && unlinkFailed == old(unlinkFailed)
      ensures !ok ==> Invalidated()
    {
      while true
        invariant reserved == old(reserved) && old(pending) <= pending && unlinkFailed == old(unlinkFailed)
        invariant Sound(record) && old(attempts) <= attempts && !FailedSince(old(attempts))
        invariant passes > old(passes) ==> old(attempts) < attempts
        invariant || (passes == old(passes) && record == old(record))
                  || (passes == old(passes) + 1 && !Marked(old(record)) && old(pending) == [] && Marked(record)
                      && Follows(old(record), old(pending)))
        decreases !Marked(record)
      {
        var changed := IncorporateAborts();
        var written := WriteDocument();
        if !written {
          Invalidate();
          return false;
        }
        changed := IncorporateAborts();
        if !changed {
          return true;
        }
      }
    }

    method Publish() returns (code: int)
      requires Sound(record)
      modifies this
      ensures reserved || !old(reserved)
      ensures old(pending) <= pending && Sound(record)
      ensures !acquired ==> passes == old(passes)
      ensures acquired && old(reserved) ==> passes > old(passes)
      // Without the lock or the directory, nothing is written at all.
      ensures passes == old(passes) ==>
                code == EXIT_BLOCKED && receipt == old(receipt) && summary == old(summary) && record == old(record)
      // At most one extra write.
      ensures passes <= old(passes) + if Marked(old(record)) || old(pending) != [] then 1 else 2
      ensures passes > old(passes) ==> Follows(old(record), old(pending))
      // The complete document is on disk and the code says the same, exactly when this run holds the
      // lock, the directory is its own, and every file operation worked; otherwise it is withdrawn.
      ensures old(attempts) <= attempts
      ensures acquired && (old(reserved) || directoryEmpty) && !FailedSince(old(attempts)) ==>
                passes > old(passes) && Published() && code == ExitCode(record.overall)
                && (checked == [] || Marked(record))
      ensures !(acquired && (old(reserved) || directoryEmpty) && !FailedSince(old(attempts))) ==>
                code == EXIT_BLOCKED && (passes > old(passes) ==> Invalidated())
      ensures acquired && !FailedSince(old(attempts)) ==> (reserved <==> old(reserved) || directoryEmpty)
      ensures Marked(record) || record == old(record)
      ensures record.overall ==
              if record != old(record) && old(record).overall == Pass then Blocked else old(record).overall
      ensures code == EXIT_PASS ==> Published() && record == old(record) && record.overall == Pass && checked == []
      ensures passes > old(passes) && ShowsPass() && code != EXIT_PASS ==> unlinkFailed
      decreases !Marked(record)
    {
      if !acquired {
        return EXIT_BLOCKED;
      }
      var owned := Reserve();
      if !owned {
        return EXIT_BLOCKED;
      }
      ghost var reservedAt := attempts;
      var written := WriteUntilCurrent();
      FailsSplit(old(attempts), reservedAt, attempts);
      FollowsUnmarked(old(record), old(pending));
      FollowsOverall(old(record), old(pending));
      if !written {
        return EXIT_BLOCKED;
      }
      Interrupted();
      var changed := IncorporateAborts();
      if changed {
        ghost var seen, writtenAt := pending, attempts;
        DowngradedIsMarked(old(record), seen);
        code := Publish();
        FailsSplit(old(attempts), writtenAt, attempts);
        assert record == Downgraded(old(record), seen);
        return;
      }
      return ExitCode(record.overall);
    }
  }
}
