# satellite-orbit-app: a Dafny model of the SGP4 wrapper layer

This project models the Python layer of the satellite-orbit-app around its SGP4
propagator, and proves properties of that model.

- The `Satrec` record (`source/orbit_determination/model.py`):
  - `twoline2rv` post-processes a parsed two-line element set;
  - `sgp4init` splits an epoch given in days since 1949 December 31;
  - `sgp4`, `sgp4_tsince` and `sgp4_array` propagate;
  - the multi-satellite `SatrecArray.sgp4` and the legacy `Satellite.propagate` do the same.
- The conveniences (`source/orbit_determination/conveniences.py`):
  - `jday_datetime` and `sat_epoch_datetime`;
  - the attribute registry, which loads the attribute documentation into `_ATTRIBUTES` and `_ATTR_MAXES`;
  - `check_satrec`, the range validator;
  - the `dump_satrec` line generator.
- The sampling driver `SGP4propagate` (`source/OP.py`). It builds one record from two TLE
  lines and samples it every `timestep` seconds. Samples whose error code is nonzero are
  skipped. Every other sample becomes a record with the keys `datetime`, `x_km`, `y_km`,
  `z_km`, `vx_kms`, `vy_kms` and `vz_kms`, in the frame TEME, GCRS or ITRS.

Foreign code is a parameter (a function value) in this model. That covers:

- the SGP4 kernel and its initializer;
- the TLE column parser;
- `jday`, `invjday` and `days2mdhms`;
- the astropy frame transforms.

A kernel is a function from minutes since epoch to an error code, a position and a
velocity. The record stores its kernel beside its epoch.

Julian dates and other floats are exact `real`s:

- Python's `int()` of a float is truncation toward zero.
- `round(x, 8)` is round-half-even on the grid of 1e-8.
- `math.pi` is the exact double value 884279719003555 / 2^48.

Files:

| file | module | contents |
|---|---|---|
| `wrappers.dfy` | `Wrappers` | `Option` and `Result` |
| `strings.dfy` | `Strings` | `str.strip`, `split`, `splitlines`, `in`, `int()` of digit strings |
| `datetimes.dfy` | `DateTimes` | Python `datetime` validity, `date.toordinal()` and `datetime + timedelta(seconds=n)` |
| `conveniences.dfy` | `Conveniences` | `jday_datetime`, `sat_epoch_datetime` |
| `model.dfy` | `Model` | `Satrec`, `SatrecArray`, `Satellite` |
| `attributes.dfy` | `SatrecAttributes` | `_load_attributes`, `check_satrec`, `dump_satrec` |
| `op.dfy` | `OP` | `SGP4propagate` |

## Model

| member | source | states |
|---|---|---|
| Model.GravityConstants | source/orbit_determination/model.py:24-27 | Indexing the three-model tuple succeeds exactly for -3 <= whichconst < 3. Negative indices count from the end (index mod 3). |
| Model.Round8 | source/orbit_determination/model.py:75 | `round(x, 8)` lies on the 1e-8 grid. It is within half a grid step of x. |
| Model.Round8OnGrid | source/orbit_determination/model.py:89-90 | A value already on the grid is unchanged by rounding. |
| Model.Round8Idempotent | source/orbit_determination/model.py:89-90 | Rounding twice equals rounding once. |
| Model.Round8UnitInterval | source/orbit_determination/model.py:73-75 | Rounding a fraction of [0, 1) stays in [0, 1]. |
| Model.JdSatEpoch | source/orbit_determination/model.py:72-74 | The TLE epoch Julian day is a whole number plus one half. |
| Model.JdSatEpochF | source/orbit_determination/model.py:73-75 | The epoch day fraction is in [0, 1]. It is within 0.5e-8 of the fractional part of epochdays. |
| Model.JdSatEpochNextYear | source/orbit_determination/model.py:74 | The same day of the year a year later is 366 days on after a year divisible by 4, else 365. |
| Model.JdSatEpochOfJanuaryFirst2000 | source/orbit_determination/model.py:74 | Day 1.0 of 2000 is Julian day 2451544.5. `jday_datetime` gives the same value for 2000-01-01 00:00. |
| Model.LeapDaysAgree | source/orbit_determination/model.py:74 | The leap-day count of the TLE epoch formula equals the one in the Julian-day formula. |
| Model.JdSatEpochIsJanuaryDay | source/orbit_determination/model.py:74 | The TLE epoch formula equals `jday_datetime`'s Julian day of January `floor(days)`, for every year from 0 on. |
| Model.EphemerisTypeBlank | source/orbit_determination/model.py:69 | A blank ephemeris-type field reads as 0. |
| Model.EphemerisTypeNumber | source/orbit_determination/model.py:69 | The decimal text of any integer reads back as that integer. |
| Model.FinishTle | source/orbit_determination/model.py:69-79 | It succeeds exactly when both integer fields parse. On success it gives the parsed ephemeris type and revolution number, the epoch Julian day and fraction, and the year reduced to 0..99. |
| Model.Satrec.constructor | source/orbit_determination/model.py:66 | `cls()` is a bare record: no attribute is set, so it has no epoch and no classification. |
| Model.Satrec.TwoLine2rv | source/orbit_determination/model.py:64-80 | It returns a fresh record exactly when the parse and the integer conversions succeed. The record holds the derived fields and the TLE's own classification, with `epoch` deleted. Each failure carries the error of the step that raised. |
| Model.Satrec.Fill | source/orbit_determination/model.py:66-79 | It sets every field that `twoline2rv` writes, including the parsed classification, and deletes `epoch`. |
| Model.InitEpochSplit | source/orbit_determination/model.py:86-93 | The whole part is a whole number plus one half. The fraction is in [0, 1). Together they equal epoch + 2433281.5. |
| Model.OnGridFraction | source/orbit_determination/model.py:89-90 | An epoch unchanged by rounding has a fraction on the 1e-8 grid. |
| Model.InitEpochFields | source/orbit_determination/model.py:86-98 | It stores the split epoch and the two-digit year of the Julian day. epochdays is counted from January 0 of that year. |
| Model.InitEpochDaysRoundTrip | source/orbit_determination/model.py:95-98 | For a year of 1957..2056, the TLE formula applied to the stored day of year gives back the split Julian day and the rounded fraction. |
| Model.InitEpochRoundTrip | source/orbit_determination/model.py:86-98 | Round trip between `sgp4init`'s epoch and `twoline2rv`'s formula: the same Julian day, the same rounded fraction, and the exact fraction for an epoch on the grid. |
| Model.Satrec.Sgp4Init | source/orbit_determination/model.py:83-103 | An unknown gravity index changes nothing. Otherwise the record holds the epoch fields, classification 'U' and the initializer's error code and kernel. |
| Model.ElapsedMinutesOfSum | source/orbit_determination/model.py:107-108 | Minutes since epoch depend only on jd + fr and are zero at the epoch. |
| Model.Satrec.Sgp4 | source/orbit_determination/model.py:106-110 | On an initialized record it returns the kernel at the minutes since epoch of (jd, fr), and stores the error code it returns. On a bare record it is the AttributeError and the error code is unchanged. |
| Model.Satrec.Sgp4Tsince | source/orbit_determination/model.py:113-115 | On an initialized record it returns the kernel at tsince, and stores the error code it returns. On a bare record it is the AttributeError and the error code is unchanged. |
| Model.Satrec.Sweep | source/orbit_determination/model.py:125-128 | It makes one propagation per pair, in input order. It fails exactly when the record is bare and there is at least one pair. The error code ends as the last call left it, or unchanged when no call ran. |
| Model.Satrec.Sgp4Array | source/orbit_determination/model.py:118-136 | It fails exactly when jd is empty, fr is shorter than jd, or the record is bare. A bare record with at least one pair gives the AttributeError. Otherwise it returns one row per time, in order. The error code ends as the last propagation left it. |
| Model.Reached | source/orbit_determination/model.py:157-159 | The count of leading initialized records: the loop reaches that many satellites before a bare one raises. |
| Model.SweepAll | source/orbit_determination/model.py:155-159 | The nested loop gives row s as satellite s at each time, in order. It fails with the AttributeError exactly when some record is bare and there is at least one pair. The satellites before the first bare one end with the error code of their last propagation. All the others keep theirs. |
| Model.SatrecArray.constructor | source/orbit_determination/model.py:146-151 | It keeps the given satellites. |
| Model.SatrecArray.Sgp4 | source/orbit_determination/model.py:153-171 | It fails exactly when there is no satellite, no time, fewer fr than jd, or a bare record. Otherwise entry [s][t] is satellite s at time t. With no time no propagation runs, so every error code is unchanged. |
| Model.Satellite.constructor | source/orbit_determination/model.py:174-176 | It sets the legacy record's epoch day, error code and kernel to the values given. The class defines no constructor of its own; this stands for the record the 1.x parser fills in. |
| Model.Satellite.Propagate | source/orbit_determination/model.py:178-184 | It returns the kernel at `(jday(...) - jdsatepoch) * 1440` minutes. |
| Model.LegacyMinutesAgree | source/orbit_determination/model.py:176-184 | The legacy minutes equal the split form with a zero epoch fraction. |
| Conveniences.Trunc | source/orbit_determination/conveniences.py:31-32 | `int()` of a float truncates toward zero. |
| Conveniences.TruncQuotient | source/orbit_determination/conveniences.py:31-32 | Truncating a quotient of naturals is integer division. |
| Conveniences.JulianDayIsDayNumber | source/orbit_determination/conveniences.py:30-33 | The float formula equals an integer day count plus one half. |
| Conveniences.JDayDatetime | source/orbit_determination/conveniences.py:25-37 | jd is a whole number plus one half. fr is in [0, 1), and it is 0 exactly at midnight. |
| Conveniences.JDayOfJanuaryFirst2000 | source/orbit_determination/conveniences.py:30-35 | 2000-01-01 00:00 gives (2451544.5, 0.0). |
| Conveniences.DayNumberNextDay | source/orbit_determination/conveniences.py:30-33 | Across month and year ends, the next calendar day has the next day number, for 1901..2099. |
| Conveniences.JulianDayNextDay | source/orbit_determination/conveniences.py:30-33 | Consecutive calendar days are exactly one Julian day apart, for 1901..2099. |
| Conveniences.JulianDayShift | source/orbit_determination/conveniences.py:30-33 | Moving a date by k days moves its Julian day by k, for 1901..2099. |
| Conveniences.JulianInstantAddSeconds | source/orbit_determination/conveniences.py:25-37 | Adding s seconds to a datetime adds s/86400 to jd + fr, for 1901..2099. |
| Conveniences.PivotYear | source/orbit_determination/conveniences.py:41-42 | A two-digit year maps into 1957..2056 with the same last two digits. |
| Conveniences.PivotYearOfTwoDigits | source/orbit_determination/conveniences.py:41-42 | Reducing a year of 1957..2056 to two digits and pivoting it gives the year back. |
| Conveniences.SplitSeconds | source/orbit_determination/conveniences.py:49-51 | Whole seconds plus microseconds in [0, 10^6) bracket the seconds to the microsecond. |
| Conveniences.RollOver | source/orbit_determination/conveniences.py:45-48 | The rolled-over date is the same day: "December 32" has the day count of January 1 of the next year. No December day past 31 remains, and only such a day is changed. |
| Conveniences.SatEpochDatetime | source/orbit_determination/conveniences.py:39-52 | A result is always a valid datetime. For a two-digit year, its year is in 1957..2057. |
| Conveniences.SatEpochDatetimeDay | source/orbit_determination/conveniences.py:39-52 | The epoch datetime falls on the day `days2mdhms` names, with the same Julian day as the un-rolled date. It keeps that hour and minute, and truncates the seconds to the microsecond. |
| DateTimes.AddSeconds | source/OP.py:21 | `datetime + timedelta(seconds=s)` stays valid and keeps the microseconds. It moves the time of day by s mod 86400. |
| DateTimes.YearLength | source/OP.py:21 | A year has 366 days exactly when it is a Gregorian leap year, else 365. |
| DateTimes.NextDayOrdinal | source/OP.py:21 | The next calendar day has the next `toordinal()`, across month and year ends, for every year. |
| DateTimes.PrevDayOrdinal | source/OP.py:21 | The previous calendar day has the previous `toordinal()`. |
| DateTimes.OrdinalRange | source/OP.py:21 | Every date in years 1..9999 has an ordinal in 1..3652059 (1 January 1 to 31 December 9999). |
| DateTimes.ShiftDaysOrdinal | source/OP.py:21 | Moving a date by k days succeeds exactly when its ordinal plus k stays in 1..3652059, and then it adds k to the ordinal. |
| DateTimes.AddSecondsDays | source/OP.py:21 | `t + timedelta(seconds=s)` moves the date by floor((seconds of day + s) / 86400) days, for every year. It raises OverflowError exactly when that day leaves 1 January 1 .. 31 December 9999. |
| Strings.SplitLinesTerminated | source/orbit_determination/conveniences.py:59 | `splitlines` of newline-terminated lines gives those lines back. |
| Strings.SplitLinesFirst | source/orbit_determination/conveniences.py:59 | `splitlines` of a line without breaks, followed by a newline and more text, gives that line and then the lines of the rest. |
| Strings.SplitJoin | source/orbit_determination/conveniences.py:64 | Joining the pieces of a `split` with the same separator gives the text back. |
| Strings.SplitAfter | source/orbit_determination/conveniences.py:64 | `split` cuts a piece followed by the separator, when the separator first occurs there, and goes on with the rest. |
| Strings.JoinSnoc | source/orbit_determination/conveniences.py:64 | Joining one more piece appends the separator and that piece. |
| Strings.JoinSplit | source/orbit_determination/conveniences.py:64 | When the separator first occurs after each piece but the last, `split` of the join gives back those pieces, followed by the split of the last piece. |
| Strings.ParseShowInt | source/orbit_determination/model.py:69-70 | `int()` reads back the decimal text of any integer. |
| SatrecAttributes.MaxValue | source/orbit_determination/conveniences.py:56 | '2pi' maps to 2*pi and 'pi' to pi. |
| SatrecAttributes.MoreNamesMeaning | source/orbit_determination/conveniences.py:67-71 | From any index i, name k is the piece after the k-th ", ". Collection stops normally at the first piece that is not ", ". It stops with the IndexError exactly when a piece, or the name after a ", ", is past the end. |
| SatrecAttributes.FieldNames | source/orbit_determination/conveniences.py:67-71 | The `while pieces[i] == ', '` loop collects exactly the names MoreNames describes, and reports the IndexError when an index runs past the end. |
| SatrecAttributes.MoreNamesOfField | source/orbit_determination/conveniences.py:67-71 | On the pieces of a field line, the loop takes every further name and stops normally at the tail, whatever pieces follow it. |
| SatrecAttributes.FieldLineSplit | source/orbit_determination/conveniences.py:64 | A field line "| ``n0``, ``n1`` … ``nk``tail" splits at "``" into "| ", the names with a ", " before each further one, then the pieces of the tail. |
| SatrecAttributes.FieldLineEnds | source/orbit_determination/conveniences.py:61-63 | A field line starts with "| ``", and it ends in '*' exactly when its tail does. |
| SatrecAttributes.FieldLineRead | source/orbit_determination/conveniences.py:61-73 | Reading a field line appends exactly its names, in order, and raises nothing, whenever the tail's first "``"-piece is not ", ". It bounds only the first name, and only when the line contains '<'. |
| SatrecAttributes.AttributeRegistry.constructor | source/orbit_determination/conveniences.py:54-55 | The registry starts empty. |
| SatrecAttributes.AttributeRegistry.ReadOne | source/orbit_determination/conveniences.py:60-73 | One documentation line leaves the registry as the line semantics says: a title, names with an optional bound, or nothing. It also reports whether the line raised. |
| SatrecAttributes.AttributeRegistry.Load | source/orbit_determination/conveniences.py:58-73 | Loading reads the lines in order and stops at the first IndexError. The error is that IndexError. |
| SatrecAttributes.ReadLinesGrows | source/orbit_determination/conveniences.py:58-73 | Loading only appends names and adds bounds. Every bounded name stays a listed attribute. |
| SatrecAttributes.ReadLineAppends | source/orbit_determination/conveniences.py:60-73 | One line keeps the old entries in front. Any name it bounds anew is one it appended. |
| SatrecAttributes.ReadLineKeepsBoundsListed | source/orbit_determination/conveniences.py:63-73 | Every bounded name is a listed attribute before and after a line. |
| SatrecAttributes.ReadTerminated | source/orbit_determination/conveniences.py:59 | Reading a newline-terminated document reads exactly its lines. |
| SatrecAttributes.AttributeRegistry.LoadIfEmpty | source/orbit_determination/conveniences.py:78-79 | A registry that is already loaded is left as it is. An empty one is loaded. |
| SatrecAttributes.LexTransitive | source/orbit_determination/conveniences.py:83 | Python's string order is transitive. |
| SatrecAttributes.LexTotal | source/orbit_determination/conveniences.py:83 | Python's string order is total. |
| SatrecAttributes.LeastExists | source/orbit_determination/conveniences.py:83 | Every non-empty set of names has a least name. |
| SatrecAttributes.SortedNamesMeaning | source/orbit_determination/conveniences.py:83 | `sorted` lists every key exactly once, in strictly ascending order. |
| SatrecAttributes.SortedNamesStep | source/orbit_determination/conveniences.py:83 | The sorted keys start with the least key. The rest are the sorted remaining keys. |
| SatrecAttributes.SortNames | source/orbit_determination/conveniences.py:83 | Extracting the least name repeatedly yields the sorted key list. |
| SatrecAttributes.ExamineMeaning | source/orbit_determination/conveniences.py:83-88 | The loop fails exactly when a name is missing, and then reports a missing one. Otherwise it lists exactly the names outside [0, max). |
| SatrecAttributes.ExamineSorted | source/orbit_determination/conveniences.py:83-88 | Violations come out in the order of the names examined. |
| SatrecAttributes.ExamineFirstMissing | source/orbit_determination/conveniences.py:83-84 | The name reported missing is the first missing one in that order. |
| SatrecAttributes.ExamineMissing | source/orbit_determination/conveniences.py:83-84 | The loop fails exactly when a name is missing, and the name it reports is one of the names examined and is absent. |
| SatrecAttributes.MissingIsFirst | source/orbit_determination/conveniences.py:83-84 | When the names are in ascending order, every name that sorts before the reported one is present. |
| SatrecAttributes.CheckPasses | source/orbit_determination/conveniences.py:75-91 | The check passes exactly when every bounded attribute is present and in [0, max). |
| SatrecAttributes.CheckMissing | source/orbit_determination/conveniences.py:83-84 | AttributeError happens exactly when a bounded attribute is missing. It names the alphabetically first missing one. |
| SatrecAttributes.CheckOutOfRange | source/orbit_determination/conveniences.py:83-91 | The ValueError lists exactly the out-of-range attributes, in ascending name order. |
| SatrecAttributes.FinishStep | source/orbit_determination/conveniences.py:83-88 | One loop step either raises for a missing name or adds its violation, if any. |
| SatrecAttributes.CheckRanges | source/orbit_determination/conveniences.py:81-91 | The loop over the sorted bounds yields the check's verdict. |
| SatrecAttributes.AttributeRegistry.CheckSatrec | source/orbit_determination/conveniences.py:75-91 | It loads if the registry is empty, propagating a load error. Then it gives the check's verdict on the loaded bounds. |
| SatrecAttributes.PadRight | source/orbit_determination/conveniences.py:112 | `'{0:39}'` keeps the text and pads it with spaces to 39 columns. |
| SatrecAttributes.DumpItems | source/orbit_determination/conveniences.py:100-113 | The generator stops only on the IndexError of an empty entry. |
| SatrecAttributes.DumpLength | source/orbit_determination/conveniences.py:100-113 | With no empty entry the dump completes: two lines per title and one per attribute. |
| SatrecAttributes.AttributeLineAgainstItself | source/orbit_determination/conveniences.py:106-112 | A satellite compared with itself yields its one-satellite text padded to 39 columns, then " == " and its own value. |
| SatrecAttributes.VerdictMeaning | source/orbit_determination/conveniences.py:111-112 | The verdict is "==" exactly when both satellites give the same value or both lack it. |
| SatrecAttributes.DumpItemsAt | source/orbit_determination/conveniences.py:100-113 | One entry of the dump is its header lines or its attribute line, followed by the rest. |
| SatrecAttributes.DumpLines | source/orbit_determination/conveniences.py:100-113 | The generator loop yields exactly the lines of the dump and stops at the same IndexError. |
| SatrecAttributes.AttributeRegistry.DumpSatrec | source/orbit_determination/conveniences.py:94-113 | It loads if the registry is empty. A load failure yields nothing. Otherwise it yields the dump of the loaded entries. |
| OP.Steps | source/OP.py:20 | ZeroDivisionError exactly when timestep is 0. |
| OP.SampleTimesMeaning | source/OP.py:21 | There is one instant per step, and instant i is `start + i * timestep` seconds. The list fails exactly when one of those instants is out of range. |
| OP.SampleTimesValid | source/OP.py:21 | Every sampled instant is a valid datetime. |
| OP.StepsStayInside | source/OP.py:20-21 | With a positive step, each sample lies in [0, duration) seconds after the start, so the end instant is never sampled. |
| OP.StepsCount | source/OP.py:20 | The step count is the number of whole steps that fit in the duration. |
| OP.SampleElapsed | source/OP.py:21-27 | Sample i lies `i * timestep / 60` minutes after the start in the kernel's time, for 1901..2099. With a positive step, the samples reach the kernel in increasing time order. |
| OP.Convert | source/OP.py:36-75 | Conversion succeeds exactly for TEME, GCRS and ITRS and keeps the instant. Any other frame is the ValueError. |
| OP.ErrorFreeMeaning | source/OP.py:28-30 | The kept positions are exactly the samples with error code 0, ascending. There are at most as many as there are samples. |
| OP.OrbitMeaning | source/OP.py:25-77 | In a known frame, record j is the conversion of the j-th error-free sample. In TEME it holds the propagated r and v unchanged. In an unknown frame the call raises exactly when some sample is error-free, and otherwise returns an empty list. |
| OP.Collect | source/OP.py:23-77 | The loop over the single shared record returns what the loop semantics gives for those kernel outputs. |
| OP.OrbitOfSamples | source/OP.py:23-77 | The loop over the outputs at instants `start + i * timestep` seconds gives, in a known frame, the conversion of the j-th error-free sample as record j; in another frame it raises exactly when some sample is error-free. |
| OP.PropagationMeaning | source/OP.py:17-77 | For a TLE that reads and a nonzero step, with every sample in range: in a known frame, record j is the conversion of the j-th error-free kernel output among the samples at `start + i * timestep` seconds, i below the step count. In another frame the call raises exactly when some sample is error-free. |
| OP.PropagationOverflow | source/OP.py:20-21 | For a TLE that reads and a nonzero step, a sample instant outside years 1..9999 makes the call raise. |
| OP.SGP4Propagate | source/OP.py:17-77 | The whole driver: the TLE read with WGS-72, the step count, the instants, then the loop. Every exception is an `Err`. |

## Left out

- The SGP4 kernel, its initializer `sgp4init`, the TLE column parser, `jday`, `invjday`, `days2mdhms`, `from_alpha5` and the gravity constant tables are parameters. Their modules are not part of this model, and their arithmetic is floating point.
- The astropy TEME→GCRS and GCRS→ITRS transforms are parameters. `Time(minute, scale='utc')`, the units and the numpy reshape of r and v into 3-vectors are not modelled.
- Floating-point rounding is not modelled. Julian dates, fractions and minutes are exact reals, so only `round(·, 8)` is rounded.
- The numpy arrays of `sgp4_array` and `SatrecArray.sgp4` are sequences of rows. Their memory layout, dtype and the cached `array` class attribute are left out.
- `_load_attributes` reads `sgp4.__doc__`, a name that conveniences.py never imports. As written, every call of `check_satrec` raises NameError, because the registry stays empty; `dump_satrec` raises it when its generator is first iterated. The model takes the docstring text as a parameter, `doc`. The docstring itself is not part of this model.
- `CheckSatrec`: the ValueError message text (`'{1:f}'` formatting of each value) is not modelled. The model returns the list of violations the message is built from.
- `CheckSatrec`: a NaN attribute value is not modelled. Values are reals, so `0.0 <= value < max` is never false for NaN reasons.
- `SatrecAttributes.AttributeLine`: values are compared with Dafny's `==`, which is reflexive. Python's `==` on a NaN float is False, so `dump_satrec` prints "!=" for a NaN attribute even against itself; the model prints "==".
- `SatrecAttributes.AttributeLineAgainstItself`: holds only because equality is reflexive. For a satellite with a NaN attribute, Python prints "!=" on that line.
- `Strings.ParseInt`: reads ASCII decimal digits with an optional sign and surrounding blanks. Python's `int()` also accepts underscores between digits (`1_000`) and non-ASCII Unicode decimal digits; those texts are an error in the model.
- `Model.NotInitialized`: the AttributeError of a bare record is the bare text "AttributeError". The source's message names the missing attribute.
- `DumpSatrec`: `repr` of a value is the caller-supplied `show`. Equality of a value with the string `'(not set)'` is treated as "attribute present vs missing". So a satellite whose attribute is literally the string `'(not set)'` compares differently.
- `IsUpper` covers ASCII capitals only. `str.isupper` also accepts other Unicode capitals.
- `print` of the skipped-sample message in `SGP4propagate` is console output and is left out.
- `SatEpochDatetime` attaches no time zone. The source's `UTC` tzinfo class is a fixed zero offset.
- The timestep of `SGP4propagate` is a whole number of seconds, as the UI slider supplies it. Fractional timedelta seconds are not modelled.
- The UI and glue (Report/propagation.py, Report/results.py, app.py, home.py), Tool/search.py (an HTTP client) and run_with_graph.py are outside the modelled core.
