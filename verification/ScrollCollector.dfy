/** The callback-driven collector of the frames displayed after a scroll event. */
module ScrollCollector {
  import opened Wrappers

  const U32_MAX := 0xFFFF_FFFF
  const MAX_FRAMES := 64
  const WINDOW_NANOSECONDS := 135_000_000
  const WINDOW_MS := 135.0

  datatype Sample = Sample(id: nat, display: nat, callback: nat, ready: nat)

  /** The clock's ratio: `numer / denom` nanoseconds per tick. */
  datatype Timebase = Timebase(numer: nat, denom: nat) {
    predicate Valid() {
      0 < numer <= U32_MAX && 0 < denom <= U32_MAX
    }

    /** 135 ms in whole ticks. */
    function Window(): nat
      requires Valid()
    {
      WINDOW_NANOSECONDS * denom / numer
    }

    function Milliseconds(ticks: int): real
      requires Valid()
    {
      ticks as real * numer as real / denom as real / 1_000_000.0
    }
  }

  /** A clock's ratio is of two positive 32-bit numbers. */
  lemma ValidExactly(t: Timebase)
    ensures t.Valid() <==> 1 <= t.numer <= 4294967295 && 1 <= t.denom <= 4294967295
  {
  }

  /** Truncating the window to whole ticks never lets a later sample in. */
  lemma WindowBound(t: Timebase, ticks: nat)
    requires t.Valid() && ticks <= t.Window()
    ensures t.Milliseconds(ticks) <= WINDOW_MS
  {
    var limit := WINDOW_NANOSECONDS * t.denom;
    assert t.Window() * t.numer <= limit;
    assert ticks * t.numer <= t.Window() * t.numer by {
      Scale(ticks, t.Window(), t.numer);
    }
    var product := ticks as real * t.numer as real;
    assert product == (ticks * t.numer) as real;
    assert product <= limit as real;
    assert product / t.denom as real <= WINDOW_NANOSECONDS as real by {
      Divide(product, WINDOW_NANOSECONDS as real, t.denom as real);
    }
  }

  /** One tick is `numer / denom` nanoseconds, and a millisecond a million of them. */
  lemma MillisecondsExact(t: Timebase, ticks: int, ms: int)
    requires t.Valid() && ticks * t.numer == ms * 1_000_000 * t.denom
    ensures t.Milliseconds(ticks) == ms as real
  {
    var product := ticks as real * t.numer as real;
    assert product == (ticks * t.numer) as real == (ms * 1_000_000 * t.denom) as real;
    assert (ms * 1_000_000 * t.denom) as real == (ms as real * 1_000_000.0) * t.denom as real;
    Undo(ms as real * 1_000_000.0, t.denom as real);
  }

  lemma Undo(a: real, b: real)
    requires b > 0.0
    ensures a * b / b == a
  {
  }

  /** The window holds exactly the ticks of at most 135 milliseconds. */
  lemma WindowExact(t: Timebase, ticks: nat)
    requires t.Valid()
    ensures ticks <= t.Window() <==> ticks * t.numer <= 135_000_000 * t.denom
  {
    var limit := WINDOW_NANOSECONDS * t.denom;
    assert t.Window() * t.numer <= limit < (t.Window() + 1) * t.numer;
    if ticks <= t.Window() {
      Scale(ticks, t.Window(), t.numer);
    } else {
      Scale(t.Window() + 1, ticks, t.numer);
    }
  }

  lemma Scale(a: nat, b: nat, c: nat)
    requires a <= b
    ensures a * c <= b * c
  {
  }

  lemma Divide(a: real, b: real, c: real)
    requires c > 0.0 && a <= b * c
    ensures a / c <= b
  {
  }

  /** Milliseconds keep the order of ticks. */
  lemma MillisecondsMonotone(t: Timebase, a: int, b: int)
    requires t.Valid()
    ensures t.Milliseconds(a) <= t.Milliseconds(b) <==> a <= b
  {
    var n, d := t.numer as real, t.denom as real;
    var (x, y) := (a as real, b as real);
    assert n > 0.0 && d > 0.0;
    var scale := n / d / 1_000_000.0;
    assert scale > 0.0;
    assert x * n / d / 1_000_000.0 == x * scale;
    assert y * n / d / 1_000_000.0 == y * scale;
    if a <= b {
      assert x * scale <= y * scale;
    } else {
      assert x * scale > y * scale;
    }
  }

  // ---- The collector

  /** What the monitor may have collected: in order, within the window, on one clock. */
  ghost predicate Collected(frames: seq<Sample>, event: nat, window: nat, now: nat) {
    && |frames| <= MAX_FRAMES && now <= U64_MAX
    && (forall i :: 0 <= i < |frames| ==> InWindow(frames[i], event, window) && Timed(frames[i], event, now))
    && (forall i, j :: 0 <= i < j < |frames| ==> Before(frames[i], frames[j]))
  }

  predicate InWindow(s: Sample, event: nat, window: nat) {
    0 < s.display && event <= s.display <= event + window && s.display <= U64_MAX
  }

  predicate Timed(s: Sample, event: nat, now: nat) {
    0 < s.id && event <= s.callback <= s.ready <= now
  }

  predicate Before(s: Sample, t: Sample) {
    s.id < t.id && s.display < t.display && s.ready <= t.callback
  }

  datatype Status = Complete | Incomplete

  /** A sample buffer as its attachments describe it. */
  datatype Buffer = Malformed | Screen(status: Status, displayTime: Option<nat>, hasImage: bool)

  /** A complete frame with an image, displayed after the event and within the window. */
  predicate Timely(buffer: Buffer, event: nat, window: nat) {
    && buffer.Screen? && buffer.status == Complete && buffer.hasImage
    && buffer.displayTime.Some? && 0 < buffer.displayTime.value && event <= buffer.displayTime.value <= event + window
    && event + window <= U64_MAX
  }

  /** A sample that makes the whole collection unusable: not readable as a frame, or a complete frame
      without a display time, or one in the window without an image. */
  predicate Spoils(buffer: Buffer, event: nat, window: nat) {
    || buffer.Malformed?
    || (buffer.status == Complete
        && (buffer.displayTime.None? || !(0 < buffer.displayTime.value <= 18446744073709551615)))
    || (!buffer.hasImage && Timely(buffer.(hasImage := true), event, window))
  }

  class DisplayCapture {
    const timebase: Timebase
    var now: nat
    var event: Option<nat>
    var nextId: nat
    var frames: seq<Sample>
    var lastDisplay: Option<nat>
    var valid: bool

    ghost predicate Valid()
      reads this
    {
      && timebase.Valid() && now <= U64_MAX
      && (event.Some? ==> event.value <= now && Collected(frames, event.value, timebase.Window(), now))
      && (event.None? ==> frames == [])
      && lastDisplay == (if frames == [] then None else Some(frames[|frames| - 1].display))
      && forall i :: 0 <= i < |frames| ==> frames[i].id <= nextId
    }

    constructor (timebase: Timebase, now: nat)
      requires timebase.Valid() && now <= U64_MAX
      ensures Valid() && this.timebase == timebase && valid && frames == [] && event == None
    {
      this.timebase, this.now := timebase, now;
      event, nextId, frames, lastDisplay, valid := None, 0, [], None, true;
    }

    /** The clock moves, and the input thread may post its event, at any point of a callback. */
    method Tick()
      requires Valid()
      modifies `now, `event
      ensures Valid() && now >= old(now)
      ensures old(event).Some? ==> event == old(event)
    {
      var passed: int := *;
      if passed > 0 && now + passed <= U64_MAX {
        now := now + passed;
      }
      var posted: bool := *;
      var ago: int := *;
      if posted && event.None? && 0 <= ago <= now {
        event := Some(now - ago);
      }
    }

    /** Displayed after every frame collected so far, of which there are fewer than 64. */
    ghost predicate Fits(buffer: Buffer)
      reads `frames, `lastDisplay
    {
      && |frames| < 64
      && (lastDisplay.Some? && buffer.Screen? && buffer.displayTime.Some? ==>
            lastDisplay.value < buffer.displayTime.value)
    }

    method RememberError()
      modifies `valid
      ensures !valid
    {
      valid := false;
    }

    /** The checks before a sample is considered; an unusable buffer spoils the collection. */
    method Examine(buffer: Buffer) returns (candidate: Option<Sample>)
      requires Valid()
      modifies `now, `event, `nextId, `valid
      ensures Valid() && now >= old(now) && (valid ==> old(valid)) && nextId >= old(nextId)
      ensures old(event).Some? ==> event == old(event)
      ensures event.Some? ==> Collected(frames, event.value, timebase.Window(), old(now))
      ensures forall i :: 0 <= i < |frames| ==> frames[i].id <= old(nextId)
      ensures candidate.Some? ==>
                && event.Some? && valid == old(valid) && nextId == old(nextId) + 1
                && InWindow(candidate.value, event.value, timebase.Window()) && Timed(candidate.value, event.value, now)
                && old(now) <= candidate.value.callback && candidate.value.id == nextId
                && buffer == Screen(Complete, Some(candidate.value.display), true)
      ensures old(event).Some? ==> (candidate.Some? <==> Timely(buffer, old(event).value, timebase.Window()))
      ensures old(event).Some? ==> (valid <==> old(valid) && !Spoils(buffer, old(event).value, timebase.Window()))
      ensures buffer.Malformed? ==> !valid
    {
      Tick();
      var received := now;
      Tick();
      if buffer.Malformed? {
        RememberError();
        return None;
      }
      nextId := nextId + 1;
      var id := nextId;
      var input := event;
      Tick();
      if input.None? || buffer.status != Complete {
        return None;
      }
      if buffer.displayTime.None? || buffer.displayTime.value == 0 || buffer.displayTime.value > U64_MAX {
        RememberError();
        return None;
      }
      var display := buffer.displayTime.value;
      if received < input.value || display < input.value {
        return None;
      }
      if input.value + timebase.Window() > U64_MAX || display > input.value + timebase.Window() {
        return None;
      }
      if !buffer.hasImage {
        RememberError();
        return None;
      }
      Tick();
      return Some(Sample(id, display, received, now));
    }

    /** The stream callback, run on a serial queue. */
    method OnSample(buffer: Buffer)
      requires Valid()
      modifies this
      ensures Valid() && now >= old(now) && (valid ==> old(valid))
      ensures frames == old(frames)
              || (valid == old(valid) && |frames| == |old(frames)| + 1 && old(frames) <= frames
                  && buffer == Screen(Complete, Some(frames[|old(frames)|].display), true)
                  && frames[|old(frames)|].id == old(nextId) + 1)
      // Exactly the timely frames that keep the order are collected, up to 64 of them; any other timely
      // frame spoils the collection, as unusable samples do.
      ensures old(event).Some? ==>
                (frames != old(frames) <==> Timely(buffer, old(event).value, timebase.Window()) && old(Fits(buffer)))
      ensures old(event).Some? ==>
                (valid <==> old(valid) && !Spoils(buffer, old(event).value, timebase.Window())
                            && (Timely(buffer, old(event).value, timebase.Window()) ==> old(Fits(buffer))))
      ensures buffer.Malformed? ==> !valid
    {
      var candidate := Examine(buffer);
      if candidate.Some? {
        var sample := candidate.value;
        if lastDisplay.Some? && sample.display <= lastDisplay.value {
          valid := false;
        } else if |frames| >= MAX_FRAMES {
          valid := false;
        } else {
          AppendKeeps(frames, sample, event.value, timebase.Window(), now, old(now));
          frames, lastDisplay := frames + [sample], Some(sample.display);
        }
      }
    }

    /** Called once the stream has stopped; returns only after the clock passed the latest display time. */
    method WaitForDisplayResponses() returns (collected: seq<Sample>, ok: bool)
      requires Valid()
      modifies `now
      ensures Valid() && collected == frames && ok == valid && now >= old(now)
      ensures forall i :: 0 <= i < |frames| ==> frames[i].display <= now && frames[i].ready <= now
    {
      collected, ok := frames, valid;
      if frames != [] {
        var latest := frames[|frames| - 1].display;
        while now < latest
          invariant Valid() && now >= old(now)
          decreases latest - now
        {
          var slept: int := *;
          now := if slept > 0 && now + slept <= U64_MAX then now + slept else now + 1;
        }
      }
      forall i | 0 <= i < |frames| ensures frames[i].display <= now && frames[i].ready <= now {
        assert Timed(frames[i], event.value, now);
        assert i < |frames| - 1 ==> Before(frames[i], frames[|frames| - 1]);
      }
    }

    /** Writes the images, however long that takes, and then reads the clock once for all of them. */
    method WriteImages() returns (written: nat)
      requires Valid()
      modifies `now
      ensures Valid() && written == now >= old(now)
    {
      var spent: int := *;
      if spent > 0 && now + spent <= U64_MAX {
        now := now + spent;
      }
      written := now;
    }
  }

  lemma AppendKeeps(frames: seq<Sample>, s: Sample, event: nat, window: nat, now: nat, before: nat)
    requires Collected(frames, event, window, before) && before <= s.callback && before <= now <= U64_MAX
    requires InWindow(s, event, window) && Timed(s, event, now) && |frames| < MAX_FRAMES
    requires forall i :: 0 <= i < |frames| ==> frames[i].id < s.id
    requires frames != [] ==> frames[|frames| - 1].display < s.display
    ensures Collected(frames + [s], event, window, now)
  {
    var all := frames + [s];
    forall i, j | 0 <= i < j < |all| ensures Before(all[i], all[j]) {
      if j == |frames| {
        assert Timed(frames[i], event, before);
        assert i < |frames| - 1 ==> Before(frames[i], frames[|frames| - 1]);
      } else {
        assert Before(frames[i], frames[j]);
      }
    }
  }
}
