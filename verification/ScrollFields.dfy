/** The fields a scroll measurement prints, and the parser that reads them back.  Fields of one
    response share their two-digit prefix, so they are kept together here. */
module ScrollFields {
  import opened ScrollCollector
  import opened Wrappers

  datatype ResponseField =
    | SampleId | FrameStatus | TimestampSource | ImageSource
    | DisplayTicks | CallbackTicks | ReadyTicks | ArtifactTicks | ImagePath

  datatype HeaderField =
    | EventRoute | EventPostTicks | Numer | Denom
    | ProductReceiptTicks | ProductPaintTicks | ProductNumer | ProductDenom
    | ResponseCount | CollectionValid

  datatype Value =
    | Num(n: nat)
    | Unavailable
    | HidEventTap | True | False
    | CompleteFrame | DisplayTimeSource | SameBuffer
    | File(directory: string, index: nat)
    | Text(text: string)

  type Response = map<ResponseField, Value>
  type Header = map<HeaderField, Value>

  /** A screenshot's two fields. */
  datatype FrameFields = FrameFields(started: Option<Value>, completed: Option<Value>)

  datatype Fields = Fields(header: Header, responses: map<nat, Response>, frames: map<nat, FrameFields>)

  /** A non-negative number of 64 bits, or nothing. */
  function UInt(v: Option<Value>): Option<nat> {
    if v.Some? && v.value.Num? && v.value.n <= U64_MAX then Some(v.value.n) else None
  }

  function Get(h: Header, field: HeaderField): Option<Value> {
    if field in h then Some(h[field]) else None
  }

  function GetIn(r: Response, field: ResponseField): Option<Value> {
    if field in r then Some(r[field]) else None
  }

  datatype Reading = Reading(sample: Sample, artifact: nat)

  /** One screenshot: capture start and end. */
  datatype Frame = Frame(started: nat, completed: nat)

  datatype Product = Product(receipt: nat, paint: nat, timebase: Timebase)

  datatype Measurement = Measurement(event: nat, timebase: Timebase, samples: seq<Sample>, valid: bool, artifact: nat,
                                     directory: string, frames: seq<Frame>, product: Option<Product>)

  // ---- Printing

  function ResponseOf(s: Sample, artifact: nat, directory: string, i: nat): Response {
    map[SampleId := Num(s.id), FrameStatus := CompleteFrame, TimestampSource := DisplayTimeSource,
        ImageSource := SameBuffer, DisplayTicks := Num(s.display),
        CallbackTicks := Num(s.callback), ReadyTicks := Num(s.ready),
        ArtifactTicks := Num(artifact), ImagePath := File(directory, i)]
  }

  function HeaderOf(m: Measurement): Header {
    var known := m.product.Some?;
    map[EventRoute := HidEventTap, EventPostTicks := Num(m.event),
        Numer := Num(m.timebase.numer), Denom := Num(m.timebase.denom),
        ProductReceiptTicks := if known then Num(m.product.value.receipt) else Unavailable,
        ProductPaintTicks := if known then Num(m.product.value.paint) else Unavailable,
        ProductNumer := if known then Num(m.product.value.timebase.numer) else Unavailable,
        ProductDenom := if known then Num(m.product.value.timebase.denom) else Unavailable,
        ResponseCount := Num(|m.samples|), CollectionValid := if m.valid then True else False]
  }

  ghost predicate Shows(f: Fields, m: Measurement) {
    && f.header == HeaderOf(m)
    && (forall i :: 0 <= i < |m.samples| ==>
          i in f.responses && f.responses[i] == ResponseOf(m.samples[i], m.artifact, m.directory, i))
    && (forall i :: 0 <= i < |m.frames| ==>
          i in f.frames && f.frames[i] == FrameFields(Some(Num(m.frames[i].started)), Some(Num(m.frames[i].completed))))
  }

  /** Without the product's own timing its four fields say so, and with it they show it. */
  lemma ProductShown(m: Measurement, f: Fields)
    requires Shows(f, m)
    ensures m.product.None? ==>
              && Get(f.header, ProductReceiptTicks) == Some(Unavailable)
              && Get(f.header, ProductPaintTicks) == Some(Unavailable)
              && Get(f.header, ProductNumer) == Some(Unavailable) && Get(f.header, ProductDenom) == Some(Unavailable)
    ensures m.product.Some? ==>
              && Get(f.header, ProductReceiptTicks) == Some(Num(m.product.value.receipt))
              && Get(f.header, ProductPaintTicks) == Some(Num(m.product.value.paint))
              && Get(f.header, ProductNumer) == Some(Num(m.product.value.timebase.numer))
              && Get(f.header, ProductDenom) == Some(Num(m.product.value.timebase.denom))
  {
  }

  /** Writes the measurement as fields. */
  method Print(m: Measurement) returns (f: Fields)
    ensures Shows(f, m)
  {
    var responses: map<nat, Response> := map[];
    for i := 0 to |m.samples|
      invariant forall j :: 0 <= j < i ==>
                  j in responses && responses[j] == ResponseOf(m.samples[j], m.artifact, m.directory, j)
    {
      responses := responses[i := ResponseOf(m.samples[i], m.artifact, m.directory, i)];
    }
    var frames: map<nat, FrameFields> := map[];
    for i := 0 to |m.frames|
      invariant forall j :: 0 <= j < i ==>
                  j in frames && frames[j] == FrameFields(Some(Num(m.frames[j].started)),
                      Some(Num(m.frames[j].completed)))
    {
      frames := frames[i := FrameFields(Some(Num(m.frames[i].started)), Some(Num(m.frames[i].completed)))];
    }
    return Fields(HeaderOf(m), responses, frames);
  }

  // ---- Reading one response

  /** The response's values, when its metadata is present and well formed. */
  function ReadResponse(r: Response, i: nat): Option<Reading> {
    var id, display := UInt(GetIn(r, SampleId)), UInt(GetIn(r, DisplayTicks));
    var callback, ready, artifact := UInt(GetIn(r, CallbackTicks)), UInt(GetIn(r, ReadyTicks)),
        UInt(GetIn(r, ArtifactTicks));
    var path := GetIn(r, ImagePath);
    if GetIn(r, FrameStatus) == Some(CompleteFrame) && GetIn(r, TimestampSource) == Some(DisplayTimeSource)
       && GetIn(r, ImageSource) == Some(SameBuffer)
       && id.Some? && id.value != 0 && display.Some? && display.value != 0 && callback.Some? && ready.Some?
          && artifact.Some?
       && path.Some? && path.value.File? && path.value.index == i
    then Some(Reading(Sample(id.value, display.value, callback.value, ready.value), artifact.value))
    else None
  }

  function ReadAt(f: Fields, i: nat): Option<Reading> {
    if i in f.responses then ReadResponse(f.responses[i], i) else None
  }

  lemma ReadBack(s: Sample, artifact: nat, directory: string, i: nat)
    ensures ReadResponse(ResponseOf(s, artifact, directory, i), i) ==
              if 0 < s.id <= U64_MAX && 0 < s.display <= U64_MAX && s.callback <= U64_MAX && s.ready <= U64_MAX
                  && artifact <= U64_MAX
              then Some(Reading(s, artifact)) else None
  {
  }

  /** The first `n` responses, if all can be read. */
  function Readings(f: Fields, n: nat): Option<seq<Reading>> {
    if n == 0 then Some([])
    else
      var before, last := Readings(f, n - 1), ReadAt(f, n - 1);
      if before.Some? && last.Some? then Some(before.value + [last.value]) else None
  }

  lemma {:induction false} ReadingsPrefix(f: Fields, i: nat, n: nat)
    requires i <= n
    ensures Readings(f, n).Some? ==> Readings(f, i).Some? && Readings(f, i).value <= Readings(f, n).value
    decreases n
  {
    if i < n {
      ReadingsPrefix(f, i, n - 1);
    }
  }

  // ---- Accepting the responses

  predicate WellTimed(r: Reading, event: nat, t: Timebase)
    requires t.Valid()
  {
    && event <= r.sample.display && event <= r.sample.callback <= r.sample.ready <= r.artifact
       && r.sample.display <= r.artifact
    && t.Milliseconds(r.sample.display - event) <= WINDOW_MS
  }

  predicate Follows(r: Reading, next: Reading) {
    && r.sample.display < next.sample.display && r.sample.callback <= next.sample.callback
    && r.sample.ready <= next.sample.ready && r.artifact <= next.artifact
  }

  ghost predicate InOrder(rs: seq<Reading>) {
    forall i :: 0 < i < |rs| ==> Follows(rs[i - 1], rs[i])
  }

  ghost predicate AllTimed(rs: seq<Reading>, event: nat, t: Timebase)
    requires t.Valid()
  {
    forall i :: 0 <= i < |rs| ==> WellTimed(rs[i], event, t)
  }

  ghost predicate DistinctIds(rs: seq<Reading>) {
    forall i, j :: 0 <= i < j < |rs| ==> rs[i].sample.id != rs[j].sample.id
  }

  ghost predicate Acceptable(rs: seq<Reading>, event: nat, t: Timebase)
    requires t.Valid()
  {
    AllTimed(rs, event, t) && InOrder(rs) && DistinctIds(rs)
  }

  function Ids(rs: seq<Reading>): set<nat> {
    set i | 0 <= i < |rs| :: rs[i].sample.id
  }

  lemma AcceptableAppend(rs: seq<Reading>, r: Reading, event: nat, t: Timebase)
    requires t.Valid()
    ensures Acceptable(rs + [r], event, t) <==>
              && Acceptable(rs, event, t) && WellTimed(r, event, t) && r.sample.id !in Ids(rs)
              && (rs != [] ==> Follows(rs[|rs| - 1], r))
    ensures Ids(rs + [r]) == Ids(rs) + {r.sample.id}
  {
    var all := rs + [r];
    assert all[|rs|] == r && forall i :: 0 <= i < |rs| ==> all[i] == rs[i];
    IdsAppend(rs, r);
    if Acceptable(all, event, t) {
      forall i | 0 <= i < |rs| ensures WellTimed(rs[i], event, t) && rs[i].sample.id != r.sample.id {
        assert WellTimed(all[i], event, t) && all[i].sample.id != all[|rs|].sample.id;
      }
      forall i | 0 < i < |rs| ensures Follows(rs[i - 1], rs[i]) {
        assert Follows(all[i - 1], all[i]);
      }
      forall i, j | 0 <= i < j < |rs| ensures rs[i].sample.id != rs[j].sample.id {
        assert all[i].sample.id != all[j].sample.id;
      }
      assert rs != [] ==> Follows(all[|rs| - 1], all[|rs|]);
    }
  }

  lemma IdsAppend(rs: seq<Reading>, r: Reading)
    ensures Ids(rs + [r]) == Ids(rs) + {r.sample.id}
  {
    var all := rs + [r];
    forall id ensures id in Ids(all) <==> id in Ids(rs) + {r.sample.id} {
      if id in Ids(rs) {
        var i :| 0 <= i < |rs| && rs[i].sample.id == id;
        assert all[i].sample.id == id;
      }
      if id == r.sample.id {
        assert all[|rs|].sample.id == id;
      }
    }
  }

  lemma AcceptablePrefix(rs: seq<Reading>, more: seq<Reading>, event: nat, t: Timebase)
    requires t.Valid() && rs <= more && Acceptable(more, event, t)
    ensures Acceptable(rs, event, t)
  {
    forall i, j | 0 <= i < j < |rs| ensures rs[i].sample.id != rs[j].sample.id {
      assert more[i].sample.id != more[j].sample.id;
    }
    forall i | 0 < i < |rs| ensures Follows(rs[i - 1], rs[i]) {
      assert Follows(more[i - 1], more[i]);
    }
    forall i | 0 <= i < |rs| ensures WellTimed(rs[i], event, t) {
      assert WellTimed(more[i], event, t);
    }
  }

  ghost predicate ResponsesAccepted(f: Fields, event: nat, t: Timebase)
    requires t.Valid()
  {
    var count := UInt(Get(f.header, ResponseCount));
    && Get(f.header, CollectionValid) == Some(True) && count.Some? && 1 <= count.value <= MAX_FRAMES
    && Readings(f, count.value).Some? && Acceptable(Readings(f, count.value).value, event, t)
  }

  datatype ParseError = ParseError

  /** One response against the running values of the ones before it. */
  method CheckResponse(r: Reading, ghost before: seq<Reading>, seen: set<nat>, previous: Option<Reading>, event: nat,
                       t: Timebase)
    returns (ok: bool)
    requires t.Valid() && Acceptable(before, event, t) && seen == Ids(before)
    requires previous == if before == [] then None else Some(before[|before| - 1])
    ensures ok <==> Acceptable(before + [r], event, t)
  {
    AcceptableAppend(before, r, event, t);
    var s := r.sample;
    if s.id in seen {
      return false;
    }
    var display := if previous.Some? then previous.value.sample.display as int else event - 1;
    var callback := if previous.Some? then previous.value.sample.callback else event;
    var ready := if previous.Some? then previous.value.sample.ready else event;
    var artifact := if previous.Some? then previous.value.artifact else event;
    if s.display < event || s.callback < event || s.display <= display || s.callback < callback
       || s.ready < s.callback || s.ready < ready || r.artifact < artifact || r.artifact < s.ready
          || r.artifact < s.display {
      return false;
    }
    return t.Milliseconds(s.display - event) <= WINDOW_MS;
  }

  method ParseDisplayResponses(f: Fields, event: nat, t: Timebase) returns (r: Result<seq<Reading>, ParseError>)
    requires t.Valid()
    ensures r.Ok? <==> ResponsesAccepted(f, event, t)
    ensures r.Ok? ==> Readings(f, UInt(Get(f.header, ResponseCount)).value) == Some(r.value)
  {
    var count := UInt(Get(f.header, ResponseCount));
    if Get(f.header, CollectionValid) != Some(True) || count.None? || !(1 <= count.value <= MAX_FRAMES) {
      return Err(ParseError);
    }
    var responses: seq<Reading> := [];
    var seen: set<nat> := {};
    var previous: Option<Reading> := None;
    for i := 0 to count.value
      invariant Readings(f, i) == Some(responses) && Acceptable(responses, event, t) && seen == Ids(responses)
      invariant previous == if responses == [] then None else Some(responses[|responses| - 1])
    {
      ReadingsPrefix(f, i + 1, count.value);
      var reading := ReadAt(f, i);
      if reading.None? {
        return Err(ParseError);
      }
      var ok := CheckResponse(reading.value, responses, seen, previous, event, t);
      if !ok {
        RejectedHere(f, i + 1, count.value, event, t);
        return Err(ParseError);
      }
      IdsAppend(responses, reading.value);
      responses, seen, previous := responses + [reading.value], seen + {reading.value.sample.id}, reading;
    }
    return Ok(responses);
  }

  lemma RejectedHere(f: Fields, i: nat, n: nat, event: nat, t: Timebase)
    requires t.Valid() && i <= n && Readings(f, i).Some? && !Acceptable(Readings(f, i).value, event, t)
    ensures !(Readings(f, n).Some? && Acceptable(Readings(f, n).value, event, t))
  {
    ReadingsPrefix(f, i, n);
    if Readings(f, n).Some? && Acceptable(Readings(f, n).value, event, t) {
      AcceptablePrefix(Readings(f, i).value, Readings(f, n).value, event, t);
    }
  }

  // ---- The round trip

  /** What a measurement run leaves: its collection, and the tick by which its images were written. */
  ghost predicate Measured(m: Measurement) {
    && m.timebase.Valid() && m.event <= m.artifact <= U64_MAX
    && Collected(m.samples, m.event, m.timebase.Window(), m.artifact)
    && forall i :: 0 <= i < |m.samples| ==> m.samples[i].id <= U64_MAX && m.samples[i].display <= m.artifact
  }

  function AsReadings(samples: seq<Sample>, artifact: nat): (rs: seq<Reading>)
    ensures |rs| == |samples| && forall i :: 0 <= i < |rs| ==> rs[i] == Reading(samples[i], artifact)
  {
    seq(|samples|, i requires 0 <= i < |samples| => Reading(samples[i], artifact))
  }

  lemma ShownAt(f: Fields, m: Measurement, i: nat)
    requires Measured(m) && Shows(f, m) && i < |m.samples|
    ensures ReadAt(f, i) == Some(Reading(m.samples[i], m.artifact))
  {
    ReadBack(m.samples[i], m.artifact, m.directory, i);
    assert InWindow(m.samples[i], m.event, m.timebase.Window()) && Timed(m.samples[i], m.event, m.artifact);
  }

  lemma {:induction false} ReadingsAre(f: Fields, samples: seq<Sample>, artifact: nat, n: nat)
    requires n <= |samples| && forall i :: 0 <= i < n ==> ReadAt(f, i) == Some(Reading(samples[i], artifact))
    ensures Readings(f, n).Some? && |Readings(f, n).value| == n
    ensures forall i :: 0 <= i < n ==> Readings(f, n).value[i] == Reading(samples[i], artifact)
    decreases n
  {
    if n > 0 {
      ReadingsAre(f, samples, artifact, n - 1);
    }
  }

  lemma {:induction false} ShownIsRead(f: Fields, m: Measurement)
    requires Measured(m) && Shows(f, m)
    ensures Readings(f, |m.samples|) == Some(AsReadings(m.samples, m.artifact))
  {
    forall i | 0 <= i < |m.samples| ensures ReadAt(f, i) == Some(Reading(m.samples[i], m.artifact)) {
      ShownAt(f, m, i);
    }
    ReadingsAre(f, m.samples, m.artifact, |m.samples|);
    assert Readings(f, |m.samples|).value == AsReadings(m.samples, m.artifact);
  }

  lemma {:induction false} CollectedIsAcceptable(m: Measurement)
    requires Measured(m)
    ensures Acceptable(AsReadings(m.samples, m.artifact), m.event, m.timebase)
  {
    var rs := AsReadings(m.samples, m.artifact);
    forall i | 0 <= i < |rs| ensures WellTimed(rs[i], m.event, m.timebase) {
      assert InWindow(m.samples[i], m.event, m.timebase.Window()) && Timed(m.samples[i], m.event, m.artifact);
      WindowBound(m.timebase, m.samples[i].display - m.event);
    }
    forall i | 0 < i < |rs| ensures Follows(rs[i - 1], rs[i]) {
      assert Before(m.samples[i - 1], m.samples[i]);
      assert Timed(m.samples[i - 1], m.event, m.artifact) && Timed(m.samples[i], m.event, m.artifact);
    }
    forall i, j | 0 <= i < j < |rs| ensures rs[i].sample.id != rs[j].sample.id {
      assert Before(m.samples[i], m.samples[j]);
    }
  }

  /** Whatever the collector gathers, if it is not empty, the parser accepts its printout exactly
      when the collection is valid, the 135 ms bound included, and rebuilds the collected samples. */
  lemma {:induction false} CollectionAccepted(f: Fields, m: Measurement)
    requires Measured(m) && Shows(f, m) && m.samples != []
    ensures ResponsesAccepted(f, m.event, m.timebase) <==> m.valid
    ensures UInt(Get(f.header, ResponseCount)) == Some(|m.samples|)
    ensures Readings(f, |m.samples|) == Some(AsReadings(m.samples, m.artifact))
  {
    ShownIsRead(f, m);
    CollectedIsAcceptable(m);
  }
}
