/** `readScrollEventTiming`: the first usable record a growing timing log holds
    after a given offset.  Parsing of one line is a parameter. */
module TimingLog {
  import opened Wrappers

  const NEWLINE: byte := 10

  datatype Timing = Timing(receiptTicks: nat, paintTicks: nat, timebaseNumer: nat, timebaseDenom: nat)

  type LineParser = seq<byte> -> Option<Timing>

  /** Index just past the last newline; zero when there is none. */
  function CompleteLength(data: seq<byte>): (n: nat)
    ensures n <= |data| && (n > 0 ==> data[n - 1] == NEWLINE)
    ensures NEWLINE !in data[n..]
  {
    if data == [] then 0
    else if data[|data| - 1] == NEWLINE then |data|
    else
      var n := CompleteLength(data[..|data| - 1]);
      assert data[n..] == data[..|data| - 1][n..] + [data[|data| - 1]];
      n
  }

  /** The non-empty lines of newline-terminated text, in order. */
  function Lines(data: seq<byte>, current: seq<byte>): seq<seq<byte>> {
    if data == [] then []
    else if data[0] == NEWLINE then (if current == [] then [] else [current]) + Lines(data[1..], [])
    else Lines(data[1..], current + [data[0]])
  }

  predicate Usable(parse: LineParser, line: seq<byte>, eventTicks: nat) {
    parse(line).Some? && parse(line).value.receiptTicks >= eventTicks
  }

  function FirstUsable(parse: LineParser, lines: seq<seq<byte>>, eventTicks: nat): (r: Option<Timing>)
    ensures r.Some? ==> r.value.receiptTicks >= eventTicks
    ensures r.Some? ==> exists i :: 0 <= i < |lines| && parse(lines[i]) == r && Usable(parse, lines[i], eventTicks)
    ensures r.None? ==> forall i :: 0 <= i < |lines| ==> !Usable(parse, lines[i], eventTicks)
    ensures r.None? ==>
              forall i :: 0 <= i < |lines| && parse(lines[i]).Some? ==> parse(lines[i]).value.receiptTicks < eventTicks
  {
    if lines == [] then None
    else if Usable(parse, lines[0], eventTicks) then parse(lines[0])
    else
      var r := FirstUsable(parse, lines[1..], eventTicks);
      assert forall i :: 1 <= i < |lines| ==> lines[i] == lines[1..][i - 1];
      assert forall i :: 0 <= i < |lines| - 1 ==> lines[1..][i] == lines[i + 1];
      r
  }

  /** The bytes appended since `offset`; none when the log is still shorter than that. */
  function Appended(log: seq<byte>, offset: nat): seq<byte> {
    if offset <= |log| then log[offset..] else []
  }

  /** The complete lines of a text that need not end in a newline. */
  function Whole(data: seq<byte>): seq<seq<byte>> {
    Lines(data[..CompleteLength(data)], [])
  }

  function CompleteLines(log: seq<byte>, offset: nat): seq<seq<byte>> {
    Whole(Appended(log, offset))
  }

  function ReadScrollEventTiming(parse: LineParser, log: seq<byte>, offset: nat, eventTicks: nat): Option<Timing> {
    FirstUsable(parse, CompleteLines(log, offset), eventTicks)
  }

  /** Each line followed by a newline. */
  function Terminated(lines: seq<seq<byte>>): seq<byte> {
    if lines == [] then [] else lines[0] + [10] + Terminated(lines[1..])
  }

  lemma {:induction false} OneLine(line: seq<byte>, rest: seq<byte>, current: seq<byte>)
    requires NEWLINE !in line && current + line != []
    ensures Lines(line + [NEWLINE] + rest, current) == [current + line] + Lines(rest, [])
    decreases |line|
  {
    var data := line + [NEWLINE] + rest;
    if line == [] {
      assert data[1..] == rest && current + line == current;
    } else {
      assert data[1..] == line[1..] + [NEWLINE] + rest;
      OneLine(line[1..], rest, current + [line[0]]);
      assert current + [line[0]] + line[1..] == current + line;
    }
  }

  /** Lines written one after the other are read as they were written. */
  lemma {:induction false} LinesReadBack(lines: seq<seq<byte>>)
    requires forall i :: 0 <= i < |lines| ==> lines[i] != [] && NEWLINE !in lines[i]
    ensures Lines(Terminated(lines), []) == lines
  {
    if lines != [] {
      OneLine(lines[0], Terminated(lines[1..]), []);
      LinesReadBack(lines[1..]);
      assert [] + lines[0] == lines[0];
    }
  }

  // ---- Growth

  lemma {:induction false} LinesOfConcat(a: seq<byte>, b: seq<byte>, current: seq<byte>)
    requires a != [] ==> a[|a| - 1] == NEWLINE
    requires a == [] ==> current == []
    ensures Lines(a + b, current) == Lines(a, current) + Lines(b, [])
  {
    if a == [] {
      assert a + b == b;
    } else {
      assert (a + b)[1..] == a[1..] + b;
      if a[0] == NEWLINE {
        LinesOfConcat(a[1..], b, []);
        assert forall x: seq<seq<byte>>, y: seq<seq<byte>>, z: seq<seq<byte>> {:trigger x + (y + z)} ::
               x + (y + z) == x + y + z;
      } else {
        LinesOfConcat(a[1..], b, current + [a[0]]);
      }
    }
  }

  lemma {:induction false} CompleteLengthGrows(a: seq<byte>, b: seq<byte>)
    ensures CompleteLength(a + b) >= CompleteLength(a)
    ensures NEWLINE !in b ==> CompleteLength(a + b) == CompleteLength(a)
  {
    if b == [] {
      assert a + b == a;
    } else {
      assert (a + b)[..|a + b| - 1] == a + b[..|b| - 1];
      CompleteLengthGrows(a, b[..|b| - 1]);
    }
  }

  /** Appending to the log only appends complete lines. */
  lemma {:induction false} GrowthAppendsLines(log: seq<byte>, more: seq<byte>, offset: nat)
    requires offset <= |log|
    ensures CompleteLines(log, offset) <= CompleteLines(log + more, offset)
    ensures NEWLINE !in more ==> CompleteLines(log, offset) == CompleteLines(log + more, offset)
  {
    var before := Appended(log, offset);
    var after := Appended(log + more, offset);
    assert after == before + more;
    CompleteLengthGrows(before, more);
    var (n, m) := (CompleteLength(before), CompleteLength(after));
    assert after[..m] == before[..n] + after[n..m];
    LinesOfConcat(before[..n], after[n..m], []);
  }

  lemma {:induction false} FirstUsableStable(parse: LineParser, lines: seq<seq<byte>>, longer: seq<seq<byte>>,
                                             eventTicks: nat)
    requires lines <= longer && FirstUsable(parse, lines, eventTicks).Some?
    ensures FirstUsable(parse, longer, eventTicks) == FirstUsable(parse, lines, eventTicks)
  {
    if !Usable(parse, lines[0], eventTicks) {
      FirstUsableStable(parse, lines[1..], longer[1..], eventTicks);
    }
  }

  /** Once a record is returned, every longer log returns the same one. */
  lemma {:induction false} ReadingIsStableUnderGrowth(parse: LineParser, log: seq<byte>, more: seq<byte>,
                                                      offset: nat, eventTicks: nat)
    requires ReadScrollEventTiming(parse, log, offset, eventTicks).Some?
    ensures ReadScrollEventTiming(parse, log + more, offset, eventTicks)
            == ReadScrollEventTiming(parse, log, offset, eventTicks)
  {
    assert offset <= |log|;
    GrowthAppendsLines(log, more, offset);
    FirstUsableStable(parse, CompleteLines(log, offset), CompleteLines(log + more, offset), eventTicks);
  }

  /** A partial last line contributes nothing, whether or not something was found before it. */
  lemma PartialLineIgnored(parse: LineParser, log: seq<byte>, partial: seq<byte>, offset: nat, eventTicks: nat)
    requires NEWLINE !in partial
    ensures ReadScrollEventTiming(parse, log + partial, offset, eventTicks)
            == ReadScrollEventTiming(parse, log, offset, eventTicks)
  {
    if offset <= |log| {
      GrowthAppendsLines(log, partial, offset);
    } else {
      assert NEWLINE !in Appended(log + partial, offset);
      CompleteLengthGrows([], Appended(log + partial, offset));
      assert [] + Appended(log + partial, offset) == Appended(log + partial, offset);
    }
  }

  /** Whatever the log held before the offset cannot change the answer. */
  lemma EarlierBytesIgnored(parse: LineParser, before: seq<byte>, before': seq<byte>, appended: seq<byte>,
                            eventTicks: nat)
    ensures ReadScrollEventTiming(parse, before + appended, |before|, eventTicks)
         == ReadScrollEventTiming(parse, before' + appended, |before'|, eventTicks)
  {
    assert (before + appended)[|before|..] == appended == (before' + appended)[|before'|..];
  }

  lemma {:induction false} StaleRows(parse: LineParser, stale: seq<seq<byte>>, rest: seq<seq<byte>>, eventTicks: nat)
    requires forall i :: 0 <= i < |stale| ==> !Usable(parse, stale[i], eventTicks)
    ensures FirstUsable(parse, stale + rest, eventTicks) == FirstUsable(parse, rest, eventTicks)
  {
    if stale == [] {
      assert stale + rest == rest;
    } else {
      assert (stale + rest)[1..] == stale[1..] + rest;
      StaleRows(parse, stale[1..], rest, eventTicks);
    }
  }

  predicate WholeLines(data: seq<byte>) {
    data != [] ==> data[|data| - 1] == NEWLINE
  }

  /** None of the lines of this text parses to a record received after the event. */
  predicate AllStale(parse: LineParser, data: seq<byte>, eventTicks: nat) {
    forall i :: 0 <= i < |Lines(data, [])| ==> !Usable(parse, Lines(data, [])[i], eventTicks)
  }

  lemma {:induction false} CompleteLengthOfConcat(a: seq<byte>, b: seq<byte>)
    requires WholeLines(a)
    ensures CompleteLength(a + b) == |a| + CompleteLength(b)
    decreases |b|
  {
    if b == [] {
      assert a + b == a;
    } else {
      assert (a + b)[..|a + b| - 1] == a + b[..|b| - 1];
      assert (a + b)[|a + b| - 1] == b[|b| - 1];
      CompleteLengthOfConcat(a, b[..|b| - 1]);
    }
  }

  lemma {:induction false} WholeOfConcat(a: seq<byte>, b: seq<byte>)
    requires WholeLines(a)
    ensures Whole(a + b) == Lines(a, []) + Whole(b)
  {
    CompleteLengthOfConcat(a, b);
    assert (a + b)[..|a| + CompleteLength(b)] == a + b[..CompleteLength(b)];
    LinesOfConcat(a, b[..CompleteLength(b)], []);
  }

  lemma CompleteLinesAfter(log: seq<byte>, data: seq<byte>)
    ensures CompleteLines(log + data, |log|) == Whole(data)
  {
    assert Appended(log + data, |log|) == data;
  }

  /** Bytes inserted in the log between two complete lines change nothing, if they are complete lines
      that do not parse or were received before the event: what was found before is still found, and
      what was not is looked for behind them. */
  lemma {:induction false} StaleRowsIgnored(parse: LineParser, log: seq<byte>, head: seq<byte>, stale: seq<byte>,
                                            rest: seq<byte>, eventTicks: nat)
    requires WholeLines(head) && WholeLines(stale) && AllStale(parse, stale, eventTicks)
    ensures ReadScrollEventTiming(parse, log + head + stale + rest, |log|, eventTicks)
         == ReadScrollEventTiming(parse, log + head + rest, |log|, eventTicks)
  {
    var lines, later := Lines(stale, []), Whole(rest);
    Regroup(log, head, stale, rest);
    CompleteLinesAfter(log, head + (stale + rest));
    CompleteLinesAfter(log, head + rest);
    WholeOfConcat(head, stale + rest);
    WholeOfConcat(stale, rest);
    WholeOfConcat(head, rest);
    StaleBetween(parse, Lines(head, []), lines, later, eventTicks);
  }

  lemma Regroup<T>(a: seq<T>, b: seq<T>, c: seq<T>, d: seq<T>)
    ensures a + b + c + d == a + (b + (c + d)) && a + b + d == a + (b + d)
  {
  }

  lemma {:induction false} StaleBetween(parse: LineParser, head: seq<seq<byte>>, stale: seq<seq<byte>>,
                                        rest: seq<seq<byte>>, eventTicks: nat)
    requires forall i :: 0 <= i < |stale| ==> !Usable(parse, stale[i], eventTicks)
    ensures FirstUsable(parse, head + (stale + rest), eventTicks) == FirstUsable(parse, head + rest, eventTicks)
    decreases |head|
  {
    if head == [] {
      assert head + (stale + rest) == stale + rest && head + rest == rest;
      StaleRows(parse, stale, rest, eventTicks);
    } else {
      assert (head + (stale + rest))[1..] == head[1..] + (stale + rest);
      assert (head + rest)[1..] == head[1..] + rest;
      StaleBetween(parse, head[1..], stale, rest, eventTicks);
    }
  }
}
