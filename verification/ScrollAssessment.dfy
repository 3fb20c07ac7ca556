/** The two readers of a scroll measurement: the harness parser, which also wants the screenshots'
    times, and the independent assessor, which wants Hane's own timing too. */
module ScrollAssessment {
  import opened ScrollCollector
  import opened ScrollFields
  import opened Wrappers

  // ---- What both read

  function EventOf(f: Fields): Option<nat> {
    UInt(Get(f.header, EventPostTicks))
  }

  function TimebaseFrom(numer: Option<nat>, denom: Option<nat>): Option<Timebase> {
    if numer.Some? && denom.Some? && Timebase(numer.value, denom.value).Valid()
        then Some(Timebase(numer.value, denom.value))
    else None
  }

  function TimebaseOf(f: Fields): Option<Timebase> {
    TimebaseFrom(UInt(Get(f.header, Numer)), UInt(Get(f.header, Denom)))
  }

  function StartedAt(f: Fields, i: nat): Option<nat> {
    if i in f.frames then UInt(f.frames[i].started) else None
  }

  function CompletedAt(f: Fields, i: nat): Option<nat> {
    if i in f.frames then UInt(f.frames[i].completed) else None
  }

  predicate HasFrame(f: Fields, i: nat) {
    StartedAt(f, i).Some? && CompletedAt(f, i).Some?
  }

  function FrameAt(f: Fields, i: nat): Frame
    requires HasFrame(f, i)
  {
    Frame(StartedAt(f, i).value, CompletedAt(f, i).value)
  }

  // ---- The harness parser

  /** Screenshot `i` is present, after the event, and not before the one before it; in ticks. */
  predicate FrameOkAt(f: Fields, event: nat, i: nat) {
    && HasFrame(f, i) && event <= FrameAt(f, i).started <= FrameAt(f, i).completed
    && (i > 0 && HasFrame(f, i - 1) ==>
          FrameAt(f, i - 1).started <= FrameAt(f, i).started && FrameAt(f, i - 1).completed <= FrameAt(f, i).completed)
  }

  ghost predicate FramesOk(f: Fields, event: nat, n: nat) {
    forall i :: 0 <= i < n ==> FrameOkAt(f, event, i)
  }

  /** The screenshots' elapsed milliseconds, and the responses unless those were refused. */
  datatype Capture = Capture(started: seq<real>, completed: seq<real>, displays: Option<seq<Reading>>)

  ghost predicate Converted(f: Fields, event: nat, t: Timebase, started: seq<real>, completed: seq<real>)
    requires t.Valid()
  {
    && |started| == |completed|
    && forall i :: 0 <= i < |started| ==>
         HasFrame(f, i) && started[i] == t.Milliseconds(FrameAt(f, i).started - event)
         && completed[i] == t.Milliseconds(FrameAt(f, i).completed - event)
  }

  method ReadFrames(f: Fields, event: nat, t: Timebase, n: nat) returns (r: Result<(seq<real>, seq<real>), ParseError>)
    requires t.Valid()
    ensures r.Ok? <==> forall i :: 0 <= i < n ==> HasFrame(f, i)
    ensures r.Ok? ==> Converted(f, event, t, r.value.0, r.value.1) && |r.value.0| == n
  {
    var started: seq<real>, completed: seq<real> := [], [];
    for i := 0 to n
      invariant |started| == i && Converted(f, event, t, started, completed)
    {
      if !HasFrame(f, i) {
        return Err(ParseError);
      }
      started := started + [t.Milliseconds(FrameAt(f, i).started - event)];
      completed := completed + [t.Milliseconds(FrameAt(f, i).completed - event)];
    }
    return Ok((started, completed));
  }

  predicate InOrderAt(started: seq<real>, completed: seq<real>, i: nat)
    requires |started| == |completed| && i < |started|
  {
    && 0.0 <= started[i] <= completed[i]
    && (i > 0 ==> started[i - 1] <= started[i] && completed[i - 1] <= completed[i])
  }

  method FramesInOrder(started: seq<real>, completed: seq<real>) returns (ok: bool)
    requires |started| == |completed|
    ensures ok <==> forall i :: 0 <= i < |started| ==> InOrderAt(started, completed, i)
  {
    for i := 0 to |started|
      invariant forall j :: 0 <= j < i ==> InOrderAt(started, completed, j)
    {
      if !InOrderAt(started, completed, i) {
        return false;
      }
    }
    return true;
  }

  /** Order in milliseconds is order in ticks. */
  lemma OrderInTicks(f: Fields, event: nat, t: Timebase, started: seq<real>, completed: seq<real>)
    requires t.Valid() && Converted(f, event, t, started, completed)
    ensures (forall i :: 0 <= i < |started| ==> InOrderAt(started, completed, i)) <==> FramesOk(f, event, |started|)
  {
    forall i | 0 <= i < |started| ensures InOrderAt(started, completed, i) <==> FrameOkAt(f, event, i) {
      OneFrameInTicks(f, event, t, started, completed, i);
    }
  }

  lemma OneFrameInTicks(f: Fields, event: nat, t: Timebase, started: seq<real>, completed: seq<real>, i: nat)
    requires t.Valid() && Converted(f, event, t, started, completed) && i < |started|
    ensures InOrderAt(started, completed, i) <==> FrameOkAt(f, event, i)
  {
    var frame := FrameAt(f, i);
    assert t.Milliseconds(0) == 0.0;
    MillisecondsMonotone(t, 0, frame.started - event);
    MillisecondsMonotone(t, frame.started - event, frame.completed - event);
    if i > 0 {
      var earlier := FrameAt(f, i - 1);
      MillisecondsMonotone(t, earlier.started - event, frame.started - event);
      MillisecondsMonotone(t, earlier.completed - event, frame.completed - event);
    }
  }

  /** `parse_wheel_measure_capture_output`: refused responses do not discard the screenshots. */
  method ParseCapture(f: Fields, expected: nat) returns (r: Result<Capture, ParseError>)
    ensures r.Ok? <==> && Get(f.header, EventRoute) == Some(HidEventTap) && EventOf(f).Some? && TimebaseOf(f).Some?
                       && FramesOk(f, EventOf(f).value, expected)
    ensures r.Ok? ==> Converted(f, EventOf(f).value, TimebaseOf(f).value, r.value.started, r.value.completed)
                      && |r.value.started| == expected
    ensures r.Ok? ==> (r.value.displays.Some? <==> ResponsesAccepted(f, EventOf(f).value, TimebaseOf(f).value))
    ensures r.Ok? && r.value.displays.Some? ==> Readings(f, |r.value.displays.value|) == r.value.displays
  {
    if Get(f.header, EventRoute) != Some(HidEventTap) {
      return Err(ParseError);
    }
    var event, t := EventOf(f), TimebaseOf(f);
    if event.None? || t.None? {
      return Err(ParseError);
    }
    var times := ReadFrames(f, event.value, t.value, expected);
    if times.Err? {
      ghost var i :| 0 <= i < expected && !HasFrame(f, i);
      assert !FrameOkAt(f, event.value, i);
      return Err(ParseError);
    }
    var (started, completed) := times.value;
    var ordered := FramesInOrder(started, completed);
    OrderInTicks(f, event.value, t.value, started, completed);
    if !ordered {
      return Err(ParseError);
    }
    var displays := ParseDisplayResponses(f, event.value, t.value);
    if displays.Ok? {
      ReadingsLength(f, UInt(Get(f.header, ResponseCount)).value);
    }
    return Ok(Capture(started, completed, if displays.Ok? then Some(displays.value) else None));
  }

  lemma {:induction false} ReadingsLength(f: Fields, n: nat)
    ensures Readings(f, n).Some? ==> |Readings(f, n).value| == n
    ensures Readings(f, n).Some? ==> forall i :: 0 <= i < n ==> ReadAt(f, i) == Some(Readings(f, n).value[i])
    decreases n
  {
    if n > 0 {
      ReadingsLength(f, n - 1);
    }
  }

  // ---- The independent assessor

  /** The assessor's view of a response: it accepts any image path, and has no upper time bound. */
  function AssessorReading(r: Response): Option<Reading> {
    var id, display := UInt(GetIn(r, SampleId)), UInt(GetIn(r, DisplayTicks));
    var callback, ready, artifact := UInt(GetIn(r, CallbackTicks)), UInt(GetIn(r, ReadyTicks)),
        UInt(GetIn(r, ArtifactTicks));
    var path := GetIn(r, ImagePath);
    if GetIn(r, FrameStatus) == Some(CompleteFrame) && GetIn(r, TimestampSource) == Some(DisplayTimeSource)
       && GetIn(r, ImageSource) == Some(SameBuffer)
       && id.Some? && id.value != 0 && display.Some? && callback.Some? && ready.Some? && artifact.Some?
       && path.Some? && path.value != Text("")
    then Some(Reading(Sample(id.value, display.value, callback.value, ready.value), artifact.value))
    else None
  }

  /** A reading takes each value from its own field, of a complete frame with some image path. */
  lemma AssessorReads(r: Response, x: Reading)
    requires AssessorReading(r) == Some(x)
    ensures UInt(GetIn(r, SampleId)) == Some(x.sample.id) && UInt(GetIn(r, DisplayTicks)) == Some(x.sample.display)
    ensures UInt(GetIn(r, CallbackTicks)) == Some(x.sample.callback)
    ensures UInt(GetIn(r, ReadyTicks)) == Some(x.sample.ready) && UInt(GetIn(r, ArtifactTicks)) == Some(x.artifact)
    ensures x.sample.id > 0 && ImagePath in r && r[ImagePath] != Text("")
    ensures FrameStatus in r && r[FrameStatus] == CompleteFrame
    ensures TimestampSource in r && r[TimestampSource] == DisplayTimeSource
    ensures ImageSource in r && r[ImageSource] == SameBuffer
  {
  }

  function AssessorAt(f: Fields, i: nat): Option<Reading> {
    if i in f.responses then AssessorReading(f.responses[i]) else None
  }

  predicate StageOk(r: Reading, event: nat) {
    event <= r.sample.display <= r.artifact && event <= r.sample.callback <= r.sample.ready <= r.artifact
  }

  /** Response `i` passes the display loop, given the ones before it. */
  ghost predicate DisplayOkAt(f: Fields, event: nat, i: nat) {
    && AssessorAt(f, i).Some? && StageOk(AssessorAt(f, i).value, event)
    && (i > 0 && AssessorAt(f, i - 1).Some? ==>
          AssessorAt(f, i - 1).value.sample.display < AssessorAt(f, i).value.sample.display)
    && forall j :: 0 <= j < i && AssessorAt(f, j).Some? ==>
         AssessorAt(f, j).value.sample.id != AssessorAt(f, i).value.sample.id
  }

  ghost predicate DisplaysOk(f: Fields, event: nat, n: nat) {
    forall i :: 0 <= i < n ==> DisplayOkAt(f, event, i)
  }

  method AssessDisplays(f: Fields, event: nat, n: nat) returns (ok: bool)
    ensures ok <==> DisplaysOk(f, event, n)
  {
    var seen: set<nat> := {};
    var previous: int := event - 1;
    for i := 0 to n
      invariant DisplaysOk(f, event, i)
      invariant seen == set j | 0 <= j < i && AssessorAt(f, j).Some? :: AssessorAt(f, j).value.sample.id
      invariant i == 0 ==> previous == event - 1
      invariant i > 0 ==> AssessorAt(f, i - 1).Some? && previous == AssessorAt(f, i - 1).value.sample.display
    {
      assert i > 0 ==> DisplayOkAt(f, event, i - 1);
      var display := AssessorAt(f, i);
      if display.None? || display.value.sample.id in seen {
        assert !DisplayOkAt(f, event, i);
        return false;
      }
      var s, written := display.value.sample, display.value.artifact;
      if s.display < event || s.callback < event || s.display <= previous || s.ready < s.callback
         || written < s.ready || written < s.display {
        assert !DisplayOkAt(f, event, i);
        return false;
      }
      assert DisplayOkAt(f, event, i);
      seen := seen + {s.id};
      previous := s.display;
    }
    return true;
  }

  datatype Observation = NotAvailable | Ordered | Disordered

  function ReceiptOf(f: Fields): Option<nat> {
    UInt(Get(f.header, ProductReceiptTicks))
  }

  function PaintOf(f: Fields): Option<nat> {
    UInt(Get(f.header, ProductPaintTicks))
  }

  /** All stages were established on one clock. */
  ghost predicate Established(f: Fields, expected: nat) {
    && Get(f.header, EventRoute) == Some(HidEventTap) && EventOf(f).Some? && TimebaseOf(f).Some?
    && expected > 0 && (forall i :: 0 <= i < expected ==> HasFrame(f, i))
    && ReceiptOf(f).Some? && PaintOf(f).Some?
    && TimebaseFrom(UInt(Get(f.header, ProductNumer)), UInt(Get(f.header, ProductDenom))) == TimebaseOf(f)
    && Get(f.header, CollectionValid) == Some(True)
    && UInt(Get(f.header, ResponseCount)).Some? && 1 <= UInt(Get(f.header, ResponseCount)).value <= MAX_FRAMES
    && DisplaysOk(f, EventOf(f).value, UInt(Get(f.header, ResponseCount)).value)
  }

  /** `assess_wheel_measurement` over the parsed record.  The order compared in milliseconds is
      the order of the ticks. */
  method Assess(f: Fields, expected: nat) returns (r: Observation)
    ensures r == NotAvailable <==> !Established(f, expected)
    ensures r == Ordered <==> Established(f, expected) && EventOf(f).value <= ReceiptOf(f).value <= PaintOf(f).value
  {
    if Get(f.header, EventRoute) != Some(HidEventTap) {
      return NotAvailable;
    }
    var event, t := EventOf(f), TimebaseOf(f);
    if event.None? || t.None? || expected == 0 || exists i :: 0 <= i < expected && !HasFrame(f, i) {
      return NotAvailable;
    }
    if ReceiptOf(f).None? || PaintOf(f).None? {
      return NotAvailable;
    }
    if TimebaseFrom(UInt(Get(f.header, ProductNumer)), UInt(Get(f.header, ProductDenom))) != t {
      return NotAvailable;
    }
    var count := UInt(Get(f.header, ResponseCount));
    if Get(f.header, CollectionValid) != Some(True) || count.None? || !(1 <= count.value <= MAX_FRAMES) {
      return NotAvailable;
    }
    var displayed := AssessDisplays(f, event.value, count.value);
    if !displayed {
      return NotAvailable;
    }
    MillisecondsMonotone(t.value, event.value, ReceiptOf(f).value);
    MillisecondsMonotone(t.value, ReceiptOf(f).value, PaintOf(f).value);
    if t.value.Milliseconds(event.value) <= t.value.Milliseconds(ReceiptOf(f).value)
        <= t.value.Milliseconds(PaintOf(f).value) {
      return Ordered;
    }
    return Disordered;
  }

  // ---- How the readers agree

  lemma AssessorReadsWhatParserReads(r: Response, i: nat)
    ensures ReadResponse(r, i).Some? ==> AssessorReading(r) == ReadResponse(r, i)
  {
  }

  /** Whatever responses the parser accepts, the assessor's display loop accepts. */
  lemma AcceptedIsAssessed(f: Fields, event: nat, t: Timebase)
    requires t.Valid() && ResponsesAccepted(f, event, t)
    ensures DisplaysOk(f, event, UInt(Get(f.header, ResponseCount)).value)
  {
    var n := UInt(Get(f.header, ResponseCount)).value;
    var rs := Readings(f, n).value;
    ReadingsLength(f, n);
    forall i | 0 <= i < n ensures AssessorAt(f, i) == Some(rs[i]) && WellTimed(rs[i], event, t) {
      assert ReadAt(f, i) == Some(rs[i]);
      AssessorReadsWhatParserReads(f.responses[i], i);
    }
    assert InOrder(rs) && DistinctIds(rs);
    forall i | 0 <= i < n ensures DisplayOkAt(f, event, i) {
      assert i > 0 ==> Follows(rs[i - 1], rs[i]);
    }
  }

  /** From collector to verdict: a valid collection with screenshots, printed beside Hane's own
      timing on the same clock, is always assessed, and judged by Hane's timing alone. */
  lemma {:induction false} MeasurementIsAssessed(f: Fields, m: Measurement)
    requires Measured(m) && Shows(f, m) && m.samples != [] && m.valid
    requires m.frames != [] && forall i :: 0 <= i < |m.frames| ==>
             m.frames[i].started <= U64_MAX && m.frames[i].completed <= U64_MAX
    requires m.product.Some? && m.product.value.timebase == m.timebase
    requires m.product.value.receipt <= U64_MAX && m.product.value.paint <= U64_MAX
    ensures Established(f, |m.frames|)
    ensures EventOf(f) == Some(m.event) && ReceiptOf(f) == Some(m.product.value.receipt)
            && PaintOf(f) == Some(m.product.value.paint)
  {
    CollectionAccepted(f, m);
    HeaderShown(f, m);
    AcceptedIsAssessed(f, m.event, m.timebase);
    forall i | 0 <= i < |m.frames| ensures HasFrame(f, i) {
      assert i in f.frames;
    }
  }

  lemma HeaderShown(f: Fields, m: Measurement)
    requires f.header == HeaderOf(m) && m.timebase.Valid() && m.event <= U64_MAX
    ensures Get(f.header, EventRoute) == Some(HidEventTap) && EventOf(f) == Some(m.event)
            && TimebaseOf(f) == Some(m.timebase)
    ensures Get(f.header, CollectionValid) == Some(if m.valid then True else False)
    ensures m.product.Some? && m.product.value.receipt <= U64_MAX ==> ReceiptOf(f) == Some(m.product.value.receipt)
    ensures m.product.Some? && m.product.value.paint <= U64_MAX ==> PaintOf(f) == Some(m.product.value.paint)
    ensures m.product.Some? && m.product.value.timebase == m.timebase ==>
              TimebaseFrom(UInt(Get(f.header, ProductNumer)), UInt(Get(f.header, ProductDenom))) == Some(m.timebase)
  {
  }

  /** A finished collector run leaves a measurement of the kind the readers are proved for. */
  method Finish(capture: DisplayCapture, directory: string, frames: seq<Frame>, product: Option<Product>)
    returns (m: Measurement, f: Fields)
    requires capture.Valid() && capture.frames != [] && capture.nextId <= U64_MAX
    modifies capture
    ensures Measured(m) && Shows(f, m)
    // The images were written, and their tick was read, after the last frame had been displayed and was ready.
    ensures old(capture.now) <= m.artifact == capture.now
    ensures forall i :: 0 <= i < |m.samples| ==> m.samples[i].display <= m.artifact && m.samples[i].ready <= m.artifact
    ensures m.samples == old(capture.frames) && m.valid == old(capture.valid) && m.event == old(capture.event).value
    ensures ResponsesAccepted(f, m.event, m.timebase) <==> m.valid
    ensures Readings(f, |m.samples|) == Some(AsReadings(m.samples, m.artifact))
  {
    var event := capture.event.value;
    var samples, valid := capture.WaitForDisplayResponses();
    var written := capture.WriteImages();
    m := Measurement(event, capture.timebase, samples, valid, written, directory, frames, product);
    f := Print(m);
    CollectionAccepted(f, m);
  }
}
