/**
  The satellite record of the SGP4 wrapper (`Satrec`), the multi-satellite
  driver (`SatrecArray`) and the legacy `Satellite` adapter. The record's epoch
  is kept as two numbers, a Julian day ending in one half (`jdsatepoch`) and a
  fraction of a day (`jdsatepochF`); propagation to a Julian date (jd, fr) hands
  the kernel the minutes elapsed since that epoch.

  The SGP4 kernel itself, the TLE column parser, the kernel initialiser and the
  calendar routines `jday`/`invjday` are foreign code; the model receives them
  as function values. A kernel is the function from minutes since epoch to the
  error code and position/velocity it produces for one initialised record.
 */
module Model {
  import opened Wrappers
  import opened DateTimes
  import Strings
  import Conveniences

  datatype Vec3 = Vec3(x: real, y: real, z: real)

  /** The gravity models, in the order of the `gravity_constants` tuple. */
  datatype GravityModel = Wgs72Old | Wgs72 | Wgs84

  const WGS72OLD: int := 0
  const WGS72: int := 1
  const WGS84: int := 2

  const MinutesPerDay: real := 1440.0

  /** `gravity_constants[whichconst]`: Python tuple indexing, where -1..-3 count from the
      end and any other index raises IndexError. */
  function GravityConstants(whichconst: int): (r: Result<GravityModel, string>)
    ensures r.Ok? <==> -3 <= whichconst < 3
    ensures r.Ok? ==> (r.value == Wgs72Old <==> whichconst % 3 == WGS72OLD)
    ensures r.Ok? ==> (r.value == Wgs72 <==> whichconst % 3 == WGS72)
    ensures r.Ok? ==> (r.value == Wgs84 <==> whichconst % 3 == WGS84)
  {
    var models := [Wgs72Old, Wgs72, Wgs84];
    if 0 <= whichconst < 3 then Ok(models[whichconst])
    else if -3 <= whichconst < 0 then Ok(models[whichconst + 3])
    else Err("IndexError: tuple index out of range")
  }

  /** What the kernel leaves for one elapsed time: the record's error code and the
      position (km) and velocity (km/s) in the kernel's own frame. */
  datatype KernelOutput = KernelOutput(error: int, r: Vec3, v: Vec3)

  /** The SGP4 kernel of one initialised record, from minutes since epoch. */
  type Kernel = real -> KernelOutput

  /** The fields the foreign TLE parser sets and that `twoline2rv` then reads. */
  datatype TleFields = TleFields(
    epochyr: int,        // the four-digit epoch year
    epochdays: real,     // day of the year with its fraction; January 1, 0h is 1.0
    ephtype: string,     // the ephemeris-type column as text
    revnum: string,      // the revolution-number columns as text
    classification: char, // the classification column, 'U' for unclassified
    epoch: DateTime,     // the epoch as a datetime, removed again by twoline2rv
    error: int,          // the code the kernel initialiser left
    kernel: Kernel)

  /** The foreign `io.twoline2rv(line1, line2, gravity, 'i', satrec)`; its parse errors are `Err`. */
  type TleParser = (string, string, GravityModel) -> Result<TleFields, string>

  /** The mean elements `sgp4init` passes on to the kernel initialiser. */
  datatype MeanElements = MeanElements(bstar: real, ndot: real, nddot: real, ecco: real,
                                       argpo: real, inclo: real, mo: real, no_kozai: real,
                                       nodeo: real)

  /** Everything the foreign initialiser `propagation.sgp4init` receives. */
  datatype InitArguments = InitArguments(gravity: GravityModel, opsmode: char, satnum: int,
                                         epoch: real, elements: MeanElements)

  datatype KernelInit = KernelInit(error: int, kernel: Kernel)

  type Initializer = InitArguments -> KernelInit

  /** The foreign `ext.jday(year, month, day, hour, minute, second)`. */
  type JdayFunction = (int, int, int, int, int, real) -> real

  // ---------------------------------------------------------------- round(x, 8)


  /** `x` lies on the grid of multiples of 1e-8. */
  predicate OnGrid8(x: real) {
    (x * 100000000.0).Floor as real == x * 100000000.0
  }

  /** `round(x, 8)`: the nearest multiple of 1e-8, ties to the even multiple. */
  function Round8(x: real): (r: real)
    ensures OnGrid8(r)
    ensures -0.5 / 100000000.0 <= r - x <= 0.5 / 100000000.0
  {
    var n := (x * 100000000.0).Floor;
    var rest := x * 100000000.0 - n as real;
    var k := if rest < 0.5 then n else if rest > 0.5 then n + 1 else if n % 2 == 0 then n else n + 1;
    assert k as real / 100000000.0 * 100000000.0 == k as real;
    k as real / 100000000.0
  }

  /** A number already on the 1e-8 grid is left alone by rounding. */
  lemma Round8OnGrid(x: real)
    requires OnGrid8(x)
    ensures Round8(x) == x
  {
    var n := (x * 100000000.0).Floor;
    assert x * 100000000.0 - n as real == 0.0;
    assert n as real / 100000000.0 == x;
  }

  /** Rounding twice to 8 places is rounding once. */
  lemma Round8Idempotent(x: real)
    ensures Round8(Round8(x)) == Round8(x)
  {
    Round8OnGrid(Round8(x));
  }

  /** Rounding a number of [0, 1) to 8 places stays in [0, 1]. */
  lemma Round8UnitInterval(x: real)
    requires 0.0 <= x < 1.0
    ensures 0.0 <= Round8(x) <= 1.0
  {
    var n := (x * 100000000.0).Floor;
    assert 0 <= n < 100000000;
  }

  // ---------------------------------------------------------------- the TLE epoch

  /** `year * 365 + (year - 1) // 4 + days + 1721044.5`, with `days` the whole part
      of the day of the year: the Julian day of 0h on that day, a whole number plus one half. */
  function JdSatEpoch(year: int, epochdays: real): (jd: real)
    ensures (jd - 0.5).Floor as real == jd - 0.5
  {
    var day := year * 365 + (year - 1) / 4 + epochdays.Floor + 1721044;
    WholeFloor(day);
    day as real + 0.5
  }

  lemma WholeFloor(n: int)
    ensures (n as real + 0.5 - 0.5).Floor == n
  {
  }

  /** `round(fraction, 8)` of the fractional part of the day of the year, in [0, 1]. */
  function JdSatEpochF(epochdays: real): (f: real)
    ensures 0.0 <= f <= 1.0
    ensures -0.5 / 100000000.0 <= f - (epochdays - epochdays.Floor as real) <= 0.5 / 100000000.0
  {
    Round8UnitInterval(epochdays - epochdays.Floor as real);
    Round8(epochdays - epochdays.Floor as real)
  }

  /** The same day of the year one year later is 366 days later after a year divisible
      by 4 and 365 days later otherwise. */
  lemma JdSatEpochNextYear(year: int, epochdays: real)
    ensures JdSatEpoch(year + 1, epochdays) - JdSatEpoch(year, epochdays)
         == if year % 4 == 0 then 366.0 else 365.0
  {
    var q, r := (year - 1) / 4, (year - 1) % 4;
    assert year - 1 == 4 * q + r;
    assert year / 4 == if r == 3 then q + 1 else q;
  }

  /** Day 1 of 2000 is Julian day 2451544.5, the value `jday_datetime` gives for
      2000-01-01 00:00. */
  lemma JdSatEpochOfJanuaryFirst2000()
    ensures JdSatEpoch(2000, 1.0) == 2451544.5
    ensures JdSatEpoch(2000, 1.0) == Conveniences.JDayDatetime(DateTime(2000, 1, 1, 0, 0, 0, 0)).0
  {
    Conveniences.JDayOfJanuaryFirst2000();
  }

  /** `2y - (7y) // 4 == (y - 1) // 4 + 1`: the TLE epoch formula and the Julian-day formula
      count the same leap days. */
  lemma LeapDaysAgree(year: int)
    requires year >= 0
    ensures 2 * year - (7 * year) / 4 == (year - 1) / 4 + 1
  {
    var q, r := year / 4, year % 4;
    assert year == 4 * q + r;
    assert (7 * year) / 4 == 7 * q + (7 * r) / 4;
    assert (year - 1) / 4 == if r == 0 then q - 1 else q;
  }

  /** Day of the year d is "January d": the TLE epoch formula is the Julian-day formula of
      `jday_datetime` at day `floor(d)` of January, for every year from 0 on. */
  lemma JdSatEpochIsJanuaryDay(year: int, epochdays: real)
    requires year >= 0
    ensures JdSatEpoch(year, epochdays) == Conveniences.JulianDay(year, 1, epochdays.Floor)
  {
    Conveniences.JulianDayIsDayNumber(year, 1, epochdays.Floor);
    LeapDaysAgree(year);
  }

  /** `int(field.strip() or '0')`: a blank ephemeris type reads as 0. */
  function EphemerisType(field: string): Option<int> {
    var t := Strings.Strip(field);
    Strings.ParseInt(if t == [] then "0" else t)
  }

  lemma EphemerisTypeBlank(field: string)
    requires forall i :: 0 <= i < |field| ==> Strings.IsSpace(field[i])
    ensures EphemerisType(field) == Some(0)
  {
    var t := Strings.TrimStart(field, Strings.Whitespace);
    assert t == [];
    Strings.ParseShowInt(0);
    assert Strings.ShowInt(0) == "0";
  }

  lemma EphemerisTypeNumber(n: int)
    ensures EphemerisType(Strings.ShowInt(n)) == Some(n)
  {
    Strings.ParseShowInt(n);
    var s := Strings.ShowInt(n);
    Strings.StripNoSpace(s);
  }

  /** The record fields `twoline2rv` writes after the foreign parse. */
  datatype TleEpoch = TleEpoch(ephtype: int, revnum: int, jdsatepoch: real, jdsatepochF: real,
                               epochyr: int)

  /** `twoline2rv`'s own steps after the parse: the ephemeris type and revolution
      number become integers (ValueError otherwise), the epoch is split, the year is
      reduced to two digits. */
  function FinishTle(t: TleFields): (r: Result<TleEpoch, string>)
    ensures r.Ok? <==> EphemerisType(t.ephtype).Some? && Strings.ParseInt(t.revnum).Some?
    ensures r.Ok? ==> 0 <= r.value.epochyr < 100 && r.value.epochyr == t.epochyr % 100
    ensures r.Ok? ==> r.value.ephtype == EphemerisType(t.ephtype).value
    ensures r.Ok? ==> r.value.revnum == Strings.ParseInt(t.revnum).value
    ensures r.Ok? ==> r.value.jdsatepoch == JdSatEpoch(t.epochyr, t.epochdays)
    ensures r.Ok? ==> r.value.jdsatepochF == JdSatEpochF(t.epochdays)
  {
    match EphemerisType(t.ephtype)
    case None => Err("ValueError: invalid literal for int()")
    case Some(eph) =>
      match Strings.ParseInt(t.revnum)
      case None => Err("ValueError: invalid literal for int()")
      case Some(rev) =>
        Ok(TleEpoch(eph, rev, JdSatEpoch(t.epochyr, t.epochdays), JdSatEpochF(t.epochdays),
                    t.epochyr % 100))
  }

  /** The gravity model for `whichconst`, then the foreign parse of the two lines. */
  function ParseTle(line1: string, line2: string, whichconst: int, parse: TleParser): Result<TleFields, string> {
    match GravityConstants(whichconst)
    case Err(e) => Err(e)
    case Ok(gravity) => parse(line1, line2, gravity)
  }

  // ---------------------------------------------------------------- the sgp4init epoch

  /** Julian day of 0h on 1949 December 31, the origin of `sgp4init`'s epoch. */
  const Epoch1950: real := 2433281.5

  /** `divmod(epoch, 1.0)` with the whole part moved to a Julian day, and the fraction
      rounded to 8 places only when the epoch itself is unchanged by that rounding. */
  function InitEpochSplit(epoch: real): (r: (real, real))
    ensures (r.0 - 0.5).Floor as real == r.0 - 0.5
    ensures 0.0 <= r.1 < 1.0
    ensures r.0 + r.1 == epoch + Epoch1950
  {
    var whole := epoch.Floor;
    var fraction := epoch - whole as real;
    WholeFloor(whole + 2433281);
    var wholeJd := (whole + 2433281) as real + 0.5;
    if Round8(epoch) == epoch then
      OnGridFraction(epoch);
      Round8OnGrid(fraction);
      (wholeJd, Round8(fraction))
    else (wholeJd, fraction)
  }

  /** The fractional part of a number on the 1e-8 grid is on the grid too. */
  lemma OnGridFraction(x: real)
    requires Round8(x) == x
    ensures OnGrid8(x - x.Floor as real)
  {
    var k := (x * 100000000.0).Floor;
    assert x * 100000000.0 == k as real;
    var w := x.Floor;
    assert (x - w as real) * 100000000.0 == (k - w * 100000000) as real;
  }

  /** What `sgp4init` leaves in `epochdays`: days since 0h on January 0 of the epoch's
      year `y`, as `jday(y, 1, 0, 0, 0, 0.0)` counts them, plus the day fraction. */
  function InitEpochDays(epoch: real, jan0: real): real {
    var split := InitEpochSplit(epoch);
    split.0 - jan0 + split.1
  }

  datatype InitEpoch = InitEpoch(jdsatepoch: real, jdsatepochF: real, epochyr: int, epochdays: real)

  /** The epoch attributes `sgp4init` sets: the split Julian date, and the two-digit year
      and day of year of the year `invjday` finds for the whole Julian day, counted from
      `jday(y, 1, 0, 0, 0, 0.0)`, January 0 of that year. */
  function InitEpochFields(epoch: real, invjdayYear: real -> int, jday: JdayFunction): (r: InitEpoch)
    ensures (r.jdsatepoch, r.jdsatepochF) == InitEpochSplit(epoch)
    ensures 0 <= r.epochyr < 100
    ensures r.epochyr == invjdayYear(r.jdsatepoch) % 100
    ensures r.epochdays == InitEpochDays(epoch, jday(invjdayYear(r.jdsatepoch), 1, 0, 0, 0, 0.0))
  {
    var split := InitEpochSplit(epoch);
    var y := invjdayYear(split.0);
    InitEpoch(split.0, split.1, y % 100, InitEpochDays(epoch, jday(y, 1, 0, 0, 0, 0.0)))
  }

  lemma InitEpochDaysRoundTrip(epoch: real, y: int)
    requires 1957 <= y <= 2056
    ensures var split := InitEpochSplit(epoch);
      var days := InitEpochDays(epoch, Conveniences.JulianDay(y, 1, 0));
      JdSatEpoch(Conveniences.PivotYear(y % 100), days) == split.0
      && JdSatEpochF(days) == Round8(epoch - epoch.Floor as real)
  {
    var split := InitEpochSplit(epoch);
    var jan0 := Conveniences.JulianDay(y, 1, 0);
    var days := InitEpochDays(epoch, jan0);
    Conveniences.PivotYearOfTwoDigits(y);
    Conveniences.JulianDayIsDayNumber(y, 1, 0);
    var whole := split.0 - jan0;
    assert whole == (epoch.Floor + 2433281 - Conveniences.DayNumber(y, 1, 0)) as real;
    assert days.Floor == epoch.Floor + 2433281 - Conveniences.DayNumber(y, 1, 0);
    LeapDaysAgree(y);
    assert days - days.Floor as real == split.1;
    if Round8(epoch) == epoch {
      OnGridFraction(epoch);
      Round8OnGrid(epoch - epoch.Floor as real);
      Round8Idempotent(epoch - epoch.Floor as real);
    }
  }

  /** Round trip of the two epoch forms. When `invjday` places the epoch in a year y of
      1957..2056 and `jday` is the Julian-day formula, the two-digit year and day of year
      that `sgp4init` stores lead `twoline2rv`'s formula back to the same Julian day, and
      to the same day fraction up to its rounding to 8 places (exactly, for an epoch
      already on that grid). */
  lemma InitEpochRoundTrip(epoch: real, invjdayYear: real -> int, jday: JdayFunction)
    requires 1957 <= invjdayYear(InitEpochSplit(epoch).0) <= 2056
    requires var y := invjdayYear(InitEpochSplit(epoch).0);
      jday(y, 1, 0, 0, 0, 0.0) == Conveniences.JulianDay(y, 1, 0)
    ensures var f := InitEpochFields(epoch, invjdayYear, jday);
      JdSatEpoch(Conveniences.PivotYear(f.epochyr), f.epochdays) == f.jdsatepoch
      && JdSatEpochF(f.epochdays) == Round8(f.jdsatepochF)
    ensures Round8(epoch) == epoch ==>
      JdSatEpochF(InitEpochFields(epoch, invjdayYear, jday).epochdays)
        == InitEpochFields(epoch, invjdayYear, jday).jdsatepochF
  {
    var y := invjdayYear(InitEpochSplit(epoch).0);
    InitEpochDaysRoundTrip(epoch, y);
    var fraction := epoch - epoch.Floor as real;
    Round8Idempotent(fraction);
    if Round8(epoch) == epoch {
      OnGridFraction(epoch);
      Round8OnGrid(fraction);
    }
  }

  // ---------------------------------------------------------------- time since epoch

  /** `(jd - jdsatepoch) * 1440 + (fr - jdsatepochF) * 1440`: minutes since the epoch. */
  function ElapsedMinutes(jd: real, fr: real, epochJd: real, epochF: real): real {
    (jd - epochJd) * MinutesPerDay + (fr - epochF) * MinutesPerDay
  }

  /** Elapsed minutes depend only on the Julian dates jd + fr and epochJd + epochF: zero at
      the epoch itself, and moving a whole day between the two parts changes nothing. */
  lemma ElapsedMinutesOfSum(jd: real, fr: real, epochJd: real, epochF: real)
    ensures ElapsedMinutes(jd, fr, epochJd, epochF) == ((jd + fr) - (epochJd + epochF)) * MinutesPerDay
    ensures ElapsedMinutes(epochJd, epochF, epochJd, epochF) == 0.0
  {
  }

  datatype Propagations = Propagations(e: seq<int>, r: seq<Vec3>, v: seq<Vec3>)

  // ---------------------------------------------------------------- Satrec

  /** What reading an attribute of a bare `Satrec()` raises. */
  const NotInitialized: string := "AttributeError"

  /** The satellite record. `initialized` is false for a bare `Satrec()`, whose attributes
      are not set yet in the source; the other fields are the source's attributes. */
  class Satrec {
    var initialized: bool
    var jdsatepoch: real
    var jdsatepochF: real
    var epochyr: int
    var epochdays: real
    var ephtype: int
    var revnum: int
    var epoch: Option<DateTime>
    var classification: Option<char>
    var error: int
    var kernel: Kernel

    /** `Satrec()`: a record with no attribute set. */
    constructor ()
      ensures !initialized && epoch == None && classification == None
    {
      initialized := false;
      jdsatepoch, jdsatepochF, epochyr, epochdays := 0.0, 0.0, 0, 0.0;
      ephtype, revnum, epoch, classification, error := 0, 0, None, None, 0;
      kernel := (t: real) => KernelOutput(0, Vec3(0.0, 0.0, 0.0), Vec3(0.0, 0.0, 0.0));
    }

    /** The kernel output for the Julian date (jd, fr). */
    function At(jd: real, fr: real): KernelOutput
      reads this`jdsatepoch, this`jdsatepochF, this`kernel
    {
      kernel(ElapsedMinutes(jd, fr, jdsatepoch, jdsatepochF))
    }

    /** `p` holds this record's outputs for the first `n` pairs (jd[i], fr[i]), in order. */
    ghost predicate Gives(p: Propagations, jd: seq<real>, fr: seq<real>, n: nat)
      reads this`jdsatepoch, this`jdsatepochF, this`kernel
    {
      n <= |jd| && n <= |fr| && |p.e| == |p.r| == |p.v| == n
      && forall i :: 0 <= i < n ==>
        p.e[i] == At(jd[i], fr[i]).error && p.r[i] == At(jd[i], fr[i]).r && p.v[i] == At(jd[i], fr[i]).v
    }

    /** `Satrec.twoline2rv(line1, line2, whichconst)`: the foreign parse, then the
        ephemeris type and revolution number as integers, the epoch split into
        `jdsatepoch`/`jdsatepochF`, the `epoch` attribute removed and the year reduced
        to two digits. Each exception of the source is an `Err`. */
    static method TwoLine2rv(line1: string, line2: string, whichconst: int, parse: TleParser)
      returns (r: Result<Satrec, string>)
      ensures r.Ok? <==> ParseTle(line1, line2, whichconst, parse).Ok?
                         && FinishTle(ParseTle(line1, line2, whichconst, parse).value).Ok?
      ensures r.Ok? ==> fresh(r.value)
      ensures r.Ok? ==> r.value.FromTle(ParseTle(line1, line2, whichconst, parse).value)
      ensures r.Err? ==> r.error == match ParseTle(line1, line2, whichconst, parse)
                                   case Err(e) => e
                                   case Ok(t) => FinishTle(t).error
    {
      var parsed := ParseTle(line1, line2, whichconst, parse);
      if parsed.Err? {
        return Err(parsed.error);
      }
      var t := parsed.value;
      // int(ephtype.strip() or '0'), int(revnum), the epoch split and the year mod 100
      var f := FinishTle(t);
      if f.Err? {
        return Err(f.error);
      }
      var s := new Satrec();
      s.Fill(t, f.value);
      r := Ok(s);
    }

    /** Stores the parsed fields `t` and what `twoline2rv` derives from them, `e`; the
        `epoch` attribute the parser set is deleted again. */
    method Fill(t: TleFields, e: TleEpoch)
      modifies this
      ensures initialized && epoch == None && classification == Some(t.classification)
      ensures ephtype == e.ephtype && revnum == e.revnum && epochyr == e.epochyr
      ensures jdsatepoch == e.jdsatepoch && jdsatepochF == e.jdsatepochF
      ensures epochdays == t.epochdays && error == t.error && kernel == t.kernel
    {
      initialized, error, kernel, epochdays := true, t.error, t.kernel, t.epochdays;
      classification := Some(t.classification);
      ephtype, revnum, epochyr := e.ephtype, e.revnum, e.epochyr;
      jdsatepoch, jdsatepochF := e.jdsatepoch, e.jdsatepochF;
      epoch := None;
    }

    /** The record holds what `twoline2rv` derives from the parsed fields `t`. */
    ghost predicate FromTle(t: TleFields)
      reads this
    {
      var f := FinishTle(t);
      f.Ok? && initialized && epoch == None && classification == Some(t.classification)
      && ephtype == f.value.ephtype && revnum == f.value.revnum
      && jdsatepoch == f.value.jdsatepoch && jdsatepochF == f.value.jdsatepochF
      && epochyr == f.value.epochyr && epochdays == t.epochdays
      && error == t.error && kernel == t.kernel
    }

    /** `sgp4init(...)`: the epoch (days since 1949 December 31 0h) is split into a
        Julian day and a fraction, the two-digit year and day of year are derived with
        the foreign `invjday`/`jday`, and the foreign initialiser sets the error code and
        the kernel. An unknown gravity index raises before anything changes. */
    method Sgp4Init(whichconst: int, opsmode: char, satnum: int, epoch: real, elements: MeanElements,
                    invjdayYear: real -> int, jday: JdayFunction, init: Initializer)
      returns (r: Result<(), string>)
      modifies this`initialized, this`jdsatepoch, this`jdsatepochF, this`epochyr, this`epochdays
      modifies this`classification, this`error, this`kernel
      ensures r.Ok? <==> GravityConstants(whichconst).Ok?
      ensures r.Err? ==> initialized == old(initialized) && error == old(error) && kernel == old(kernel)
      ensures r.Err? ==> jdsatepoch == old(jdsatepoch) && jdsatepochF == old(jdsatepochF)
      ensures r.Err? ==> epochyr == old(epochyr) && epochdays == old(epochdays)
      ensures r.Err? ==> classification == old(classification)
      ensures r.Ok? ==>
        var f := InitEpochFields(epoch, invjdayYear, jday);
        var out := init(InitArguments(GravityConstants(whichconst).value, opsmode, satnum, epoch, elements));
        initialized && classification == Some('U') && error == out.error && kernel == out.kernel
        && jdsatepoch == f.jdsatepoch && jdsatepochF == f.jdsatepochF
        && epochyr == f.epochyr && epochdays == f.epochdays
    {
      var gravity := GravityConstants(whichconst);
      if gravity.Err? {
        return Err(gravity.error);
      }
      var f := InitEpochFields(epoch, invjdayYear, jday);
      jdsatepoch, jdsatepochF, epochyr, epochdays := f.jdsatepoch, f.jdsatepochF, f.epochyr, f.epochdays;
      classification := Some('U');
      var out := init(InitArguments(gravity.value, opsmode, satnum, epoch, elements));
      error, kernel := out.error, out.kernel;
      initialized := true;
      r := Ok(());
    }

    /** `sgp4(jd, fr)`: run the kernel at the minutes since epoch of (jd, fr) and return
        the error code it leaves in the record with the position and velocity. A bare
        record has no epoch to subtract: AttributeError, and nothing changes. */
    method Sgp4(jd: real, fr: real) returns (res: Result<KernelOutput, string>)
      modifies this`error
      ensures !initialized ==> res == Err(NotInitialized) && error == old(error)
      ensures initialized ==> res == Ok(old(At(jd, fr))) && error == res.value.error
    {
      if !initialized {
        return Err(NotInitialized);
      }
      var tsince := ElapsedMinutes(jd, fr, jdsatepoch, jdsatepochF);
      var out := kernel(tsince);
      error := out.error;
      res := Ok(KernelOutput(error, out.r, out.v));
    }

    /** `sgp4_tsince(tsince)`: the kernel at a given number of minutes since epoch; on a
        bare record the kernel finds no elements to read (AttributeError). */
    method Sgp4Tsince(tsince: real) returns (res: Result<KernelOutput, string>)
      modifies this`error
      ensures !initialized ==> res == Err(NotInitialized) && error == old(error)
      ensures initialized ==> res == Ok(old(kernel(tsince))) && error == res.value.error
    {
      if !initialized {
        return Err(NotInitialized);
      }
      var out := kernel(tsince);
      error := out.error;
      res := Ok(KernelOutput(error, out.r, out.v));
    }

    /** The loop over `zip(jd, fr)`: one `sgp4` call per pair, in order, for the first
        `n` pairs; the record's error code ends as the last call left it. The first call
        on a bare record raises. */
    method Sweep(jd: seq<real>, fr: seq<real>, n: nat) returns (res: Result<Propagations, string>)
      requires n <= |jd| && n <= |fr|
      modifies this`error
      ensures res.Err? <==> !initialized && n > 0
      ensures res.Err? ==> res.error == NotInitialized
      ensures res.Ok? ==> Gives(res.value, jd, fr, n)
      ensures initialized && n > 0 ==> error == At(jd[n - 1], fr[n - 1]).error
      ensures !initialized || n == 0 ==> error == old(error)
    {
      var p := Propagations([], [], []);
      var i := 0;
      while i < n
        invariant 0 <= i <= n
        invariant |p.e| == |p.r| == |p.v| == i
        invariant Gives(p, jd, fr, i)
        invariant i > 0 ==> initialized && error == At(jd[i - 1], fr[i - 1]).error
        invariant i == 0 ==> error == old(error)
      {
        var out := Sgp4(jd[i], fr[i]);
        if out.Err? {
          return Err(out.error);
        }
        var o := out.value;
        p := Propagations(p.e + [o.error], p.r + [o.r], p.v + [o.v]);
        i := i + 1;
      }
      res := Ok(p);
    }

    /** `sgp4_array(jd, fr)`: one propagation per pair (jd[i], fr[i]) in input order.
        `zip` stops at the shorter list; the source then fails when nothing was
        propagated (unpacking an empty zip) or when fewer results than `len(jd)` must be
        reshaped to `len(jd)` rows. A bare record raises at its first propagation. */
    method Sgp4Array(jd: seq<real>, fr: seq<real>) returns (res: Result<Propagations, string>)
      modifies this`error
      ensures res.Err? <==> (|jd| == 0 || |fr| < |jd| || !initialized)
      ensures !initialized && |jd| > 0 && |fr| > 0 ==> res == Err(NotInitialized)
      ensures res.Ok? ==> Gives(res.value, jd, fr, |jd|)
      ensures initialized && |jd| > 0 && |fr| > 0 ==>
        var n := if |jd| < |fr| then |jd| else |fr|;
        error == At(jd[n - 1], fr[n - 1]).error
      ensures !initialized || |jd| == 0 || |fr| == 0 ==> error == old(error)
    {
      var n := if |jd| < |fr| then |jd| else |fr|;
      var p := Sweep(jd, fr, n);
      if n == 0 {
        return Err("ValueError: not enough values to unpack");
      }
      if p.Err? {
        return Err(p.error);
      }
      if n != |jd| {
        return Err("ValueError: cannot reshape array");
      }
      res := Ok(p.value);
    }
  }

  // ---------------------------------------------------------------- SatrecArray

  /** Satellite-major results: row s holds satellite s at every time. */
  datatype Grid = Grid(e: seq<seq<int>>, r: seq<seq<Vec3>>, v: seq<seq<Vec3>>)

  /** How many records, from the front, are initialised: the satellites the driver
      propagates before a bare one makes it raise. */
  function Reached(satrecs: seq<Satrec>): (n: nat)
    reads (set s | s in satrecs)`initialized
    ensures n <= |satrecs|
    ensures forall k :: 0 <= k < n ==> satrecs[k].initialized
    ensures n < |satrecs| ==> !satrecs[n].initialized
    decreases |satrecs|
  {
    if satrecs == [] || !satrecs[0].initialized then 0 else 1 + Reached(satrecs[1..])
  }

  /** `Reached` is the length of the initialized prefix. */
  lemma ReachedAt(satrecs: seq<Satrec>, k: nat)
    requires k <= |satrecs|
    requires forall j :: 0 <= j < k ==> satrecs[j].initialized
    requires k < |satrecs| ==> !satrecs[k].initialized
    ensures Reached(satrecs) == k
  {
  }

  /** Rows 0..k-1 of `g` are the outputs of satellites 0..k-1 for the first `n` pairs. */
  ghost predicate GridGives(g: Grid, satrecs: seq<Satrec>, jd: seq<real>, fr: seq<real>, n: nat, k: nat)
    reads (set s | s in satrecs)`jdsatepoch, (set s | s in satrecs)`jdsatepochF
    reads (set s | s in satrecs)`kernel
  {
    k <= |satrecs| && |g.e| == |g.r| == |g.v| == k
    && forall s :: 0 <= s < k ==> satrecs[s].Gives(Propagations(g.e[s], g.r[s], g.v[s]), jd, fr, n)
  }

  lemma GridStep(g: Grid, satrecs: seq<Satrec>, jd: seq<real>, fr: seq<real>, n: nat, k: nat, p: Propagations)
    requires GridGives(g, satrecs, jd, fr, n, k) && k < |satrecs| && satrecs[k].Gives(p, jd, fr, n)
    ensures GridGives(Grid(g.e + [p.e], g.r + [p.r], g.v + [p.v]), satrecs, jd, fr, n, k + 1)
  {
    var h := Grid(g.e + [p.e], g.r + [p.r], g.v + [p.v]);
    forall s | 0 <= s < k + 1 ensures satrecs[s].Gives(Propagations(h.e[s], h.r[s], h.v[s]), jd, fr, n) {
      if s < k {
        assert Propagations(h.e[s], h.r[s], h.v[s]) == Propagations(g.e[s], g.r[s], g.v[s]);
      } else {
        assert Propagations(h.e[s], h.r[s], h.v[s]) == p;
      }
    }
  }

  /** The loop `for satrec in self._satrecs: for jd_i, fr_i in z: ...` over the first
      `n` pairs: a row per satellite, until a bare record raises. The error code of each
      satellite reached ends as its last propagation left it; the others keep theirs. */
  method SweepAll(satrecs: seq<Satrec>, jd: seq<real>, fr: seq<real>, n: nat) returns (res: Result<Grid, string>)
    requires n <= |jd| && n <= |fr|
    modifies (set s | s in satrecs)`error
    ensures res.Err? <==> n > 0 && Reached(satrecs) < |satrecs|
    ensures res.Err? ==> res.error == NotInitialized
    ensures res.Ok? ==> GridGives(res.value, satrecs, jd, fr, n, |satrecs|)
    ensures n > 0 ==> forall s :: s in satrecs[..Reached(satrecs)] ==> s.error == s.At(jd[n - 1], fr[n - 1]).error
    ensures forall s :: s in satrecs && (n == 0 || s !in satrecs[..Reached(satrecs)]) ==> s.error == old(s.error)
  {
    var rows := Grid([], [], []);
    var k := 0;
    while k < |satrecs|
      invariant 0 <= k <= |satrecs|
      invariant n > 0 ==> forall j :: 0 <= j < k ==> satrecs[j].initialized
      invariant GridGives(rows, satrecs, jd, fr, n, k)
      invariant n > 0 ==> forall s :: s in satrecs[..k] ==> s.error == s.At(jd[n - 1], fr[n - 1]).error
      invariant forall s :: s in satrecs && (n == 0 || s !in satrecs[..k]) ==> s.error == old(s.error)
    {
      var sat := satrecs[k];
      assert sat in satrecs;
      var p := sat.Sweep(jd, fr, n);
      if p.Err? {
        ReachedAt(satrecs, k);
        return Err(p.error);
      }
      assert satrecs[..k + 1] == satrecs[..k] + [sat];
      GridStep(rows, satrecs, jd, fr, n, k, p.value);
      rows := Grid(rows.e + [p.value.e], rows.r + [p.value.r], rows.v + [p.value.v]);
      k := k + 1;
    }
    assert satrecs[..k] == satrecs;
    if n > 0 {
      ReachedAt(satrecs, k);
    }
    res := Ok(rows);
  }

  class SatrecArray {
    const satrecs: seq<Satrec>

    constructor (satrecs: seq<Satrec>)
      ensures this.satrecs == satrecs
    {
      this.satrecs := satrecs;
    }

    /** `SatrecArray.sgp4(jd, fr)`: every satellite at every time, satellite-major, shaped
        (satellites, times). With no satellite or no time the source fails unpacking an
        empty zip, and with fewer `fr` than `jd` it fails reshaping. A bare record raises
        at its first propagation, after the records before it were propagated. */
    method Sgp4(jd: seq<real>, fr: seq<real>) returns (res: Result<Grid, string>)
      modifies (set s | s in satrecs)`error
      ensures res.Err? <==> (|satrecs| == 0 || |jd| == 0 || |fr| < |jd| || Reached(satrecs) < |satrecs|)
      ensures |jd| > 0 && |fr| > 0 && Reached(satrecs) < |satrecs| ==> res == Err(NotInitialized)
      ensures res.Ok? ==> GridGives(res.value, satrecs, jd, fr, |jd|, |satrecs|)
      ensures |jd| > 0 && |fr| > 0 ==> forall s :: s in satrecs[..Reached(satrecs)] ==>
        var n := if |jd| < |fr| then |jd| else |fr|;
        s.error == s.At(jd[n - 1], fr[n - 1]).error
      ensures |jd| > 0 && |fr| > 0 ==> forall s :: s in satrecs && s !in satrecs[..Reached(satrecs)] ==>
        s.error == old(s.error)
      ensures |jd| == 0 || |fr| == 0 ==> forall s :: s in satrecs ==> s.error == old(s.error)
    {
      var n := if |jd| < |fr| then |jd| else |fr|;
      var rows := SweepAll(satrecs, jd, fr, n);
      if |satrecs| == 0 || n == 0 {
        return Err("ValueError: not enough values to unpack");
      }
      if rows.Err? {
        return Err(rows.error);
      }
      if n != |jd| {
        return Err("ValueError: cannot reshape array");
      }
      res := Ok(rows.value);
    }
  }

  // ---------------------------------------------------------------- legacy Satellite

  /** The sgp4 1.x `Satellite`: an epoch Julian day with a zero fraction, and a kernel. */
  class Satellite {
    var jdsatepoch: real
    var error: int
    var kernel: Kernel

    /** The class defines no constructor: the 1.x parser filled in a bare object. This
        stands in for that record, with the epoch, error code and kernel it was given. */
    constructor (jdsatepoch: real, error: int, kernel: Kernel)
      ensures this.jdsatepoch == jdsatepoch && this.error == error && this.kernel == kernel
    {
      this.jdsatepoch, this.error, this.kernel := jdsatepoch, error, kernel;
    }

    /** `propagate(year, month=1, day=1, hour=0, minute=0, second=0.0)`: the kernel at
        `(jday(...) - jdsatepoch) * 1440` minutes; the error code stays in the record. */
    method Propagate(jday: JdayFunction, year: int, month: int := 1, day: int := 1,
                     hour: int := 0, minute: int := 0, second: real := 0.0)
      returns (r: Vec3, v: Vec3)
      modifies this`error
      ensures var out := old(kernel((jday(year, month, day, hour, minute, second) - jdsatepoch) * MinutesPerDay));
        r == out.r && v == out.v && error == out.error
    {
      var j := jday(year, month, day, hour, minute, second);
      var m := (j - jdsatepoch) * MinutesPerDay;
      var out := kernel(m);
      error := out.error;
      r, v := out.r, out.v;
    }
  }

  /** The legacy path and `Satrec.sgp4` agree: when `jday` returns the day plus fraction
      (jd + fr), the legacy minutes equal the split form with a zero epoch fraction. */
  lemma LegacyMinutesAgree(j: real, jd: real, fr: real, epochJd: real)
    requires j == jd + fr
    ensures (j - epochJd) * MinutesPerDay == ElapsedMinutes(jd, fr, epochJd, 0.0)
  {
  }
}
