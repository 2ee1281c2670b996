/**
  The sampling driver `SGP4propagate`: one satellite record is built from the two TLE
  lines, the instants `start + i * timestep` seconds for `i` below
  `int(duration_minutes * 60 / timestep)` are propagated in order, the samples whose
  error code is nonzero are skipped, and every other sample becomes one orbit record in
  the requested coordinate frame.

  The astropy frame transformations (TEME to GCRS, GCRS to ITRS) are foreign
  floating-point code and are parameters here.
 */
module OP {
  import opened Wrappers
  import opened DateTimes
  import opened Conveniences
  import opened Model

  /** One row of the result: the keys `datetime`, `x_km`, `y_km`, `z_km`, `vx_kms`,
      `vy_kms` and `vz_kms`, and no others. */
  datatype OrbitRecord = OrbitRecord(datetime: DateTime, xKm: real, yKm: real, zKm: real,
                                     vxKms: real, vyKms: real, vzKms: real)

  /** A change of coordinate frame at an instant: position and velocity in, position
      and velocity out (km and km/s). */
  type Transform = (DateTime, Vec3, Vec3) -> (Vec3, Vec3)

  datatype Transforms = Transforms(temeToGcrs: Transform, gcrsToItrs: Transform)

  const ZeroDivision: string := "ZeroDivisionError: division by zero"

  function UnsupportedFrame(frame: string): string {
    "ValueError: unsupported coordinate frame: " + frame
  }

  predicate KnownFrame(frame: string) {
    frame == "TEME" || frame == "GCRS" || frame == "ITRS"
  }

  function Record(t: DateTime, r: Vec3, v: Vec3): OrbitRecord {
    OrbitRecord(t, r.x, r.y, r.z, v.x, v.y, v.z)
  }

  // ---------------------------------------------------------------- the sample instants

  /** `int((duration_minutes * 60) / timestep)`, or ZeroDivisionError. */
  function Steps(durationMinutes: real, timestep: int): (r: Result<int, string>)
    ensures r.Err? <==> timestep == 0
    ensures r.Err? ==> r.error == ZeroDivision
  {
    if timestep == 0 then Err(ZeroDivision)
    else Ok(Trunc(durationMinutes * 60.0 / timestep as real))
  }

  /** `[start + timedelta(seconds=i * timestep) for i in range(steps)]` from `i = from`;
      the first instant outside years 1..9999 raises OverflowError. */
  function SampleTimes(start: DateTime, timestep: int, from: nat, steps: int): Result<seq<DateTime>, string>
    requires Valid(start)
    decreases steps - from
  {
    if from >= steps then Ok([])
    else
      match AddSeconds(start, from * timestep)
      case Err(e) => Err(e)
      case Ok(t) =>
        match SampleTimes(start, timestep, from + 1, steps)
        case Err(e) => Err(e)
        case Ok(rest) => Ok([t] + rest)
  }

  /** The list holds one instant per step, instant `i` lying `i * timestep` seconds after
      the start; it fails exactly when one of those instants is out of range. */
  lemma {:induction false} SampleTimesMeaning(start: DateTime, timestep: int, from: nat, steps: int)
    requires Valid(start)
    ensures var r := SampleTimes(start, timestep, from, steps);
      (r.Ok? <==> forall i :: from <= i < steps ==> AddSeconds(start, i * timestep).Ok?)
      && (r.Ok? ==> |r.value| == (if from <= steps then steps - from else 0))
      && (r.Ok? ==> forall j :: 0 <= j < |r.value| ==>
            r.value[j] == AddSeconds(start, (from + j) * timestep).value)
    decreases steps - from
  {
    if from < steps {
      SampleTimesMeaning(start, timestep, from + 1, steps);
      match SampleTimes(start, timestep, from + 1, steps)
      case Err(_) =>
        if AddSeconds(start, from * timestep).Ok? {
          var i :| from + 1 <= i < steps && !AddSeconds(start, i * timestep).Ok?;
        }
      case Ok(rest) =>
        if AddSeconds(start, from * timestep).Ok? {
          var all := SampleTimes(start, timestep, from, steps).value;
          forall j | 0 <= j < |all| ensures all[j] == AddSeconds(start, (from + j) * timestep).value {
            if j > 0 {
              assert all[j] == rest[j - 1];
            }
          }
        }
    }
  }

  /** Every sample lies before the end of the span: with a positive step, sample `i` of
      `Steps` is `i * timestep` seconds in, which is less than `duration_minutes * 60`,
      so the end instant itself is never sampled. */
  lemma StepsStayInside(durationMinutes: real, timestep: int, i: int)
    requires timestep > 0 && Steps(durationMinutes, timestep).Ok?
    requires 0 <= i < Steps(durationMinutes, timestep).value
    ensures 0.0 <= (i * timestep) as real < durationMinutes * 60.0
  {
    var q := durationMinutes * 60.0 / timestep as real;
    var n := Steps(durationMinutes, timestep).value;
    assert q >= 0.0;
    assert (i + 1) as real <= n as real <= q;
    assert (i * timestep) as real == i as real * timestep as real;
    assert (i + 1) as real * timestep as real <= q * timestep as real;
  }

  /** A span of at least one step yields the full count of whole steps that fit in it. */
  lemma StepsCount(durationMinutes: real, timestep: int)
    requires timestep > 0 && durationMinutes >= 0.0
    ensures var n := Steps(durationMinutes, timestep).value;
      n >= 0 && (n as real) * (timestep as real) <= durationMinutes * 60.0
      && durationMinutes * 60.0 < ((n + 1) as real) * (timestep as real)
  {
    var q := durationMinutes * 60.0 / timestep as real;
    var n := Steps(durationMinutes, timestep).value;
    assert q * timestep as real == durationMinutes * 60.0;
    assert q >= 0.0;
    assert n as real <= q < (n + 1) as real;
    assert (n as real) * (timestep as real) <= q * timestep as real;
    assert q * timestep as real < ((n + 1) as real) * (timestep as real);
    assert durationMinutes * 60.0 < ((n + 1) as real) * (timestep as real);
  }

  /** Inside the years the day-number formula covers, sample `i` lies `i * timestep`
      seconds after the start on the Julian-date scale as well, so the kernel sees
      `i * timestep / 60` more minutes since epoch than at the start: with a positive
      step the samples reach the kernel in increasing time order. */
  lemma SampleElapsed(start: DateTime, timestep: int, i: int, epochJd: real, epochF: real)
    requires Valid(start) && AddSeconds(start, i * timestep).Ok?
    requires 1901 <= start.year <= 2099 && 1901 <= AddSeconds(start, i * timestep).value.year <= 2099
    ensures var t := AddSeconds(start, i * timestep).value;
      JulianInstant(t) == JulianInstant(start) + (i * timestep) as real / 86400.0
      && ElapsedMinutes(JDayDatetime(t).0, JDayDatetime(t).1, epochJd, epochF)
         == ElapsedMinutes(JDayDatetime(start).0, JDayDatetime(start).1, epochJd, epochF)
            + (i * timestep) as real / 60.0
  {
    var t := AddSeconds(start, i * timestep).value;
    JulianInstantAddSeconds(start, i * timestep);
    ElapsedMinutesOfSum(JDayDatetime(t).0, JDayDatetime(t).1, epochJd, epochF);
    ElapsedMinutesOfSum(JDayDatetime(start).0, JDayDatetime(start).1, epochJd, epochF);
  }

  // ---------------------------------------------------------------- one sample

  /** The kernel output at a civil instant, through `jday_datetime` and `sgp4(jd, fr)`. */
  function Propagated(t: DateTime, kernel: Kernel, epochJd: real, epochF: real): KernelOutput
    requires Valid(t)
  {
    kernel(ElapsedMinutes(JDayDatetime(t).0, JDayDatetime(t).1, epochJd, epochF))
  }

  /** The kernel outputs of a list of instants, in order. */
  function Outputs(times: seq<DateTime>, kernel: Kernel, epochJd: real, epochF: real): seq<KernelOutput>
    requires forall i :: 0 <= i < |times| ==> Valid(times[i])
  {
    seq(|times|, i requires 0 <= i < |times| => Propagated(times[i], kernel, epochJd, epochF))
  }

  /** The record of an error-free sample in the requested frame. */
  function Convert(t: DateTime, out: KernelOutput, frame: string, tr: Transforms): (r: Result<OrbitRecord, string>)
    ensures r.Ok? <==> KnownFrame(frame)
    ensures r.Err? ==> r.error == UnsupportedFrame(frame)
    ensures r.Ok? ==> r.value.datetime == t
  {
    if frame == "TEME" then Ok(Record(t, out.r, out.v))
    else if frame == "GCRS" then
      var (p, v) := tr.temeToGcrs(t, out.r, out.v);
      Ok(Record(t, p, v))
    else if frame == "ITRS" then
      var (gp, gv) := tr.temeToGcrs(t, out.r, out.v);
      var (p, v) := tr.gcrsToItrs(t, gp, gv);
      Ok(Record(t, p, v))
    else Err(UnsupportedFrame(frame))
  }

  // ---------------------------------------------------------------- the loop

  /** The loop from sample `k` on: a sample with a nonzero error code is skipped, any
      other one is converted, and the first conversion that raises ends the call. */
  function OrbitFrom(times: seq<DateTime>, outs: seq<KernelOutput>, k: nat, frame: string,
                     tr: Transforms): Result<seq<OrbitRecord>, string>
    requires |times| == |outs| && k <= |times|
    decreases |times| - k
  {
    if k == |times| then Ok([])
    else if outs[k].error != 0 then OrbitFrom(times, outs, k + 1, frame, tr)
    else
      match Convert(times[k], outs[k], frame, tr)
      case Err(e) => Err(e)
      case Ok(rec) =>
        match OrbitFrom(times, outs, k + 1, frame, tr)
        case Err(e) => Err(e)
        case Ok(rest) => Ok([rec] + rest)
  }

  /** The positions, from `k` on, of the samples with error code 0, ascending. */
  function ErrorFree(outs: seq<KernelOutput>, k: nat): seq<nat>
    requires k <= |outs|
    decreases |outs| - k
  {
    if k == |outs| then []
    else if outs[k].error != 0 then ErrorFree(outs, k + 1)
    else [k] + ErrorFree(outs, k + 1)
  }

  predicate Ascending(idx: seq<nat>) {
    forall i, j :: 0 <= i < j < |idx| ==> idx[i] < idx[j]
  }

  /** The error-free positions are exactly the samples from `k` on whose code is 0, each
      once and in increasing order. */
  lemma {:induction false} ErrorFreeMeaning(outs: seq<KernelOutput>, k: nat)
    requires k <= |outs|
    ensures Ascending(ErrorFree(outs, k))
    ensures forall i :: i in ErrorFree(outs, k) <==> k <= i < |outs| && outs[i].error == 0
    ensures |ErrorFree(outs, k)| <= |outs| - k
    decreases |outs| - k
  {
    if k < |outs| {
      ErrorFreeMeaning(outs, k + 1);
      var tail := ErrorFree(outs, k + 1);
      if outs[k].error == 0 {
        var all := [k] + tail;
        forall i, j | 0 <= i < j < |all| ensures all[i] < all[j] {
          assert all[j] == tail[j - 1] && tail[j - 1] in tail;
          if i > 0 {
            assert all[i] == tail[i - 1];
          }
        }
      }
    }
  }

  /** The records are the error-free samples in order: in a known frame the call succeeds
      with one record per error-free sample, at that sample's instant, and in the TEME
      frame carrying the propagated position and velocity unchanged. In any other frame
      it raises exactly when some sample is error-free, and otherwise returns nothing. */
  lemma {:induction false} OrbitMeaning(times: seq<DateTime>, outs: seq<KernelOutput>, k: nat,
                                        frame: string, tr: Transforms)
    requires |times| == |outs| && k <= |times|
    ensures var r := OrbitFrom(times, outs, k, frame, tr);
      var idx := ErrorFree(outs, k);
      (KnownFrame(frame) ==> r.Ok? && |r.value| == |idx|)
      && (KnownFrame(frame) ==> forall j :: 0 <= j < |idx| ==>
            idx[j] < |times| && r.value[j] == Convert(times[idx[j]], outs[idx[j]], frame, tr).value)
      && (frame == "TEME" ==> forall j :: 0 <= j < |idx| ==>
            idx[j] < |times| && r.value[j] == Record(times[idx[j]], outs[idx[j]].r, outs[idx[j]].v))
      && (!KnownFrame(frame) ==> (r.Err? <==> idx != []))
      && (!KnownFrame(frame) && r.Err? ==> r.error == UnsupportedFrame(frame))
      && (!KnownFrame(frame) && r.Ok? ==> r.value == [])
    decreases |times| - k
  {
    ErrorFreeMeaning(outs, k);
    if k < |times| {
      OrbitMeaning(times, outs, k + 1, frame, tr);
      if outs[k].error == 0 && KnownFrame(frame) {
        var rest := OrbitFrom(times, outs, k + 1, frame, tr).value;
        var tail := ErrorFree(outs, k + 1);
        var all := OrbitFrom(times, outs, k, frame, tr).value;
        forall j | 0 <= j < |ErrorFree(outs, k)|
          ensures all[j] == Convert(times[ErrorFree(outs, k)[j]], outs[ErrorFree(outs, k)[j]], frame, tr).value
        {
          if j > 0 {
            assert all[j] == rest[j - 1] && ErrorFree(outs, k)[j] == tail[j - 1];
          }
        }
      }
    }
  }

  /** The records built so far followed by those of the rest of the loop. */
  function Then(done: seq<OrbitRecord>, rest: Result<seq<OrbitRecord>, string>): Result<seq<OrbitRecord>, string> {
    match rest
    case Err(e) => Err(e)
    case Ok(more) => Ok(done + more)
  }

  // ---------------------------------------------------------------- SGP4propagate

  /** What `SGP4propagate` returns or raises, step by step: the TLE is read with the
      WGS-72 constants, the step count is computed, the instants are listed, and the
      loop runs over the kernel outputs of those instants. */
  function Propagation(start: DateTime, durationMinutes: real, timestep: int, line1: string,
                       line2: string, frame: string, parse: TleParser, tr: Transforms)
    : Result<seq<OrbitRecord>, string>
    requires Valid(start)
  {
    match ParseTle(line1, line2, WGS72, parse)
    case Err(e) => Err(e)
    case Ok(t) =>
      match FinishTle(t)
      case Err(e) => Err(e)
      case Ok(f) =>
        match Steps(durationMinutes, timestep)
        case Err(e) => Err(e)
        case Ok(steps) =>
          SampleTimesMeaning(start, timestep, 0, steps);
          match SampleTimes(start, timestep, 0, steps)
          case Err(e) => Err(e)
          case Ok(times) =>
            SampleTimesValid(start, timestep, steps);
            OrbitFrom(times, Outputs(times, t.kernel, f.jdsatepoch, f.jdsatepochF), 0, frame, tr)
  }

  /** The kernel outputs at the sample instants `start + i * timestep` seconds, i < n. */
  function SampleOutputs(start: DateTime, timestep: int, n: nat, kernel: Kernel, epochJd: real, epochF: real)
    : (o: seq<KernelOutput>)
    requires Valid(start) && forall i :: 0 <= i < n ==> AddSeconds(start, i * timestep).Ok?
    ensures |o| == n
  {
    seq(n, i requires 0 <= i < n => Propagated(AddSeconds(start, i * timestep).value, kernel, epochJd, epochF))
  }

  /** The whole driver once the TLE has read as `t` with derived fields `f` and the step
      is nonzero, when every sample instant stays in years 1..9999: in a known frame,
      record j is the conversion of the j-th error-free sample `start + i * timestep`
      seconds, i below the step count, and in any other frame the call raises exactly
      when some sample is error-free. */
  lemma PropagationMeaning(start: DateTime, durationMinutes: real, timestep: int, line1: string,
                           line2: string, frame: string, parse: TleParser, tr: Transforms,
                           t: TleFields, f: TleEpoch)
    requires Valid(start)
    requires ParseTle(line1, line2, WGS72, parse) == Ok(t) && FinishTle(t) == Ok(f) && timestep != 0
    requires forall i :: 0 <= i < SampleCount(durationMinutes, timestep) ==> AddSeconds(start, i * timestep).Ok?
    ensures RecordsOfSamples(Propagation(start, durationMinutes, timestep, line1, line2, frame, parse, tr),
                             start, timestep,
                             SampleOutputs(start, timestep, SampleCount(durationMinutes, timestep),
                                           t.kernel, f.jdsatepoch, f.jdsatepochF),
                             frame, tr)
  {
    var steps := Steps(durationMinutes, timestep).value;
    SampleTimesAll(start, timestep, steps);
    var times := SampleTimes(start, timestep, 0, steps).value;
    OutputsOfSamples(start, timestep, times, t.kernel, f.jdsatepoch, f.jdsatepochF);
    PropagationOfTimes(start, durationMinutes, timestep, line1, line2, frame, parse, tr, t, f, times);
    OrbitOfSamples(start, timestep, times, Outputs(times, t.kernel, f.jdsatepoch, f.jdsatepochF), frame, tr);
  }

  /** When every instant is in range, the list holds all of them, in order. */
  lemma SampleTimesAll(start: DateTime, timestep: int, steps: int)
    requires Valid(start)
    requires forall i :: 0 <= i < steps ==> AddSeconds(start, i * timestep).Ok?
    ensures SampleTimes(start, timestep, 0, steps).Ok?
    ensures var times := SampleTimes(start, timestep, 0, steps).value;
      |times| == (if steps < 0 then 0 else steps)
      && forall i :: 0 <= i < |times| ==>
           AddSeconds(start, i * timestep).Ok? && times[i] == AddSeconds(start, i * timestep).value
           && Valid(times[i])
  {
    SampleTimesMeaning(start, timestep, 0, steps);
  }

  /** Past the reading of the TLE, the step count and the list of instants, the driver
      is the loop over the kernel outputs at those instants. */
  lemma PropagationOfTimes(start: DateTime, durationMinutes: real, timestep: int, line1: string,
                           line2: string, frame: string, parse: TleParser, tr: Transforms,
                           t: TleFields, f: TleEpoch, times: seq<DateTime>)
    requires Valid(start)
    requires ParseTle(line1, line2, WGS72, parse) == Ok(t) && FinishTle(t) == Ok(f) && timestep != 0
    requires SampleTimes(start, timestep, 0, Steps(durationMinutes, timestep).value) == Ok(times)
    requires forall i :: 0 <= i < |times| ==> Valid(times[i])
    ensures Propagation(start, durationMinutes, timestep, line1, line2, frame, parse, tr)
         == OrbitFrom(times, Outputs(times, t.kernel, f.jdsatepoch, f.jdsatepochF), 0, frame, tr)
  {
  }

  /** The outputs at the listed instants are the outputs at the sample instants. */
  lemma OutputsOfSamples(start: DateTime, timestep: int, times: seq<DateTime>, kernel: Kernel,
                         epochJd: real, epochF: real)
    requires Valid(start)
    requires forall i :: 0 <= i < |times| ==>
      AddSeconds(start, i * timestep).Ok? && times[i] == AddSeconds(start, i * timestep).value
    ensures forall i :: 0 <= i < |times| ==> Valid(times[i])
    ensures Outputs(times, kernel, epochJd, epochF) == SampleOutputs(start, timestep, |times|, kernel, epochJd, epochF)
  {
  }

  /** With the TLE read as `t` with derived fields `f` and a nonzero step, a sample
      instant outside years 1..9999 makes the driver raise. */
  lemma PropagationOverflow(start: DateTime, durationMinutes: real, timestep: int, line1: string,
                            line2: string, frame: string, parse: TleParser, tr: Transforms,
                            t: TleFields, f: TleEpoch, i: int)
    requires Valid(start)
    requires ParseTle(line1, line2, WGS72, parse) == Ok(t) && FinishTle(t) == Ok(f)
    requires timestep != 0 && 0 <= i < SampleCount(durationMinutes, timestep)
    requires AddSeconds(start, i * timestep).Err?
    ensures Propagation(start, durationMinutes, timestep, line1, line2, frame, parse, tr).Err?
  {
    SampleTimesMeaning(start, timestep, 0, Steps(durationMinutes, timestep).value);
  }

  /** The number of sample instants: the step count, or none when it is negative. */
  function SampleCount(durationMinutes: real, timestep: int): nat {
    if timestep == 0 then 0
    else
      var steps := Steps(durationMinutes, timestep).value;
      if steps < 0 then 0 else steps
  }

  /** `r` holds the records of the error-free samples among `outs`, the outputs at the
      instants `start + i * timestep` seconds: in a known frame record j converts the j-th
      error-free sample; in any other frame the call raises exactly when there is one. */
  predicate RecordsOfSamples(r: Result<seq<OrbitRecord>, string>, start: DateTime, timestep: int,
                             outs: seq<KernelOutput>, frame: string, tr: Transforms)
    requires Valid(start) && forall i :: 0 <= i < |outs| ==> AddSeconds(start, i * timestep).Ok?
  {
    var idx := ErrorFree(outs, 0);
    (KnownFrame(frame) ==>
       r.Ok? && |r.value| == |idx|
       && (forall j :: 0 <= j < |idx| ==>
             idx[j] < |outs|
             && r.value[j] == Convert(AddSeconds(start, idx[j] * timestep).value, outs[idx[j]], frame, tr).value))
    && (!KnownFrame(frame) ==> (r.Err? <==> idx != []))
  }

  lemma OrbitOfSamples(start: DateTime, timestep: int, times: seq<DateTime>, outs: seq<KernelOutput>,
                       frame: string, tr: Transforms)
    requires Valid(start) && |times| == |outs|
    requires forall i :: 0 <= i < |times| ==>
      AddSeconds(start, i * timestep).Ok? && times[i] == AddSeconds(start, i * timestep).value
    ensures RecordsOfSamples(OrbitFrom(times, outs, 0, frame, tr), start, timestep, outs, frame, tr)
  {
    OrbitMeaning(times, outs, 0, frame, tr);
    ErrorFreeMeaning(outs, 0);
  }

  /** Every listed instant is a valid datetime. */
  lemma SampleTimesValid(start: DateTime, timestep: int, steps: int)
    requires Valid(start) && SampleTimes(start, timestep, 0, steps).Ok?
    ensures var times := SampleTimes(start, timestep, 0, steps).value;
      forall i :: 0 <= i < |times| ==> Valid(times[i])
  {
    SampleTimesMeaning(start, timestep, 0, steps);
  }

  /** `SGP4propagate(start_datetime, duration_minutes, timestep, tle_line1, tle_line2,
      frame)`; each exception of the source is an `Err`. */
  method SGP4Propagate(start: DateTime, durationMinutes: real, timestep: int, line1: string,
                       line2: string, frame: string, parse: TleParser, tr: Transforms)
    returns (r: Result<seq<OrbitRecord>, string>)
    requires Valid(start)
    ensures r == Propagation(start, durationMinutes, timestep, line1, line2, frame, parse, tr)
  {
    var made := Satrec.TwoLine2rv(line1, line2, WGS72, parse);
    if made.Err? {
      return Err(made.error);
    }
    var satellite := made.value;
    var steps := Steps(durationMinutes, timestep);
    if steps.Err? {
      return Err(steps.error);
    }
    SampleTimesMeaning(start, timestep, 0, steps.value);
    var timeList := SampleTimes(start, timestep, 0, steps.value);
    if timeList.Err? {
      return Err(timeList.error);
    }
    var times := timeList.value;
    SampleTimesValid(start, timestep, steps.value);
    r := Collect(satellite, times, frame, tr);
  }

  /** The `for minute in time_list` loop over one shared satellite record. */
  method Collect(satellite: Satrec, times: seq<DateTime>, frame: string, tr: Transforms)
    returns (r: Result<seq<OrbitRecord>, string>)
    requires satellite.initialized
    requires forall i :: 0 <= i < |times| ==> Valid(times[i])
    modifies satellite`error
    ensures r == OrbitFrom(times, Outputs(times, satellite.kernel, satellite.jdsatepoch, satellite.jdsatepochF),
                           0, frame, tr)
  {
    ghost var outs := Outputs(times, satellite.kernel, satellite.jdsatepoch, satellite.jdsatepochF);
    var orbitData: seq<OrbitRecord> := [];
    ghost var all := OrbitFrom(times, outs, 0, frame, tr);
    if all.Ok? {
      assert [] + all.value == all.value;
    }
    for k := 0 to |times|
      invariant OrbitFrom(times, outs, 0, frame, tr) == Then(orbitData, OrbitFrom(times, outs, k, frame, tr))
    {
      var minute := times[k];
      var (jd, fr) := JDayDatetime(minute);
      var out := satellite.Sgp4(jd, fr);
      var o := out.value;
      assert o == outs[k];
      OrbitFromAt(times, outs, k, frame, tr);
      if o.error != 0 {
        continue;
      }
      var rec := Convert(minute, o, frame, tr);
      if rec.Err? {
        return Err(rec.error);
      }
      ThenStep(orbitData, rec.value, OrbitFrom(times, outs, k + 1, frame, tr));
      orbitData := orbitData + [rec.value];
    }
    assert orbitData + [] == orbitData;
    r := Ok(orbitData);
  }

  /** One step of the loop: skip, raise, or put the converted record in front. */
  lemma OrbitFromAt(times: seq<DateTime>, outs: seq<KernelOutput>, k: nat, frame: string, tr: Transforms)
    requires |times| == |outs| && k < |times|
    ensures outs[k].error != 0 ==> OrbitFrom(times, outs, k, frame, tr) == OrbitFrom(times, outs, k + 1, frame, tr)
    ensures outs[k].error == 0 && !KnownFrame(frame) ==>
      OrbitFrom(times, outs, k, frame, tr) == Err(UnsupportedFrame(frame))
    ensures outs[k].error == 0 && KnownFrame(frame) ==>
      var rec := Convert(times[k], outs[k], frame, tr).value;
      OrbitFrom(times, outs, k, frame, tr)
        == match OrbitFrom(times, outs, k + 1, frame, tr) case Err(e) => Err(e) case Ok(more) => Ok([rec] + more)
  {
  }

  lemma ThenStep(done: seq<OrbitRecord>, rec: OrbitRecord, rest: Result<seq<OrbitRecord>, string>)
    ensures Then(done, match rest case Err(e) => Err(e) case Ok(more) => Ok([rec] + more))
         == Then(done + [rec], rest)
  {
    if rest.Ok? {
      assert done + ([rec] + rest.value) == (done + [rec]) + rest.value;
    }
  }
}
