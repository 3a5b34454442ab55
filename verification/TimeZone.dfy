/**
 UTC and local time: base/time_zone.cc.

 `Gmtime` and `Timegm` stand for the C library's conversions, on the calendar of every day; `UtcOf` and `FromUtc`
 are the program's own.
 */
module TimeZones {
  import opened CDivision
  import opened Calendar

  const DAY := 24 * 60 * 60

  datatype Tm = Tm(
    sec: int, min: int, hour: int, mday: int, mon: int, year: int, wday: int, yday: int, isdst: bool, gmtoff: int)

  function DateIn(tm: Tm): Date {
    Date(tm.year + 1900, tm.mon + 1, tm.mday)
  }

  // gmtime.
  function Gmtime(t: int): Tm {
    var day, seconds := t / DAY + EPOCH, t % DAY;
    var date := DateOf(day);
    Tm(seconds % 60, seconds / 60 % 60, seconds / 3600, date.day, date.month - 1, date.year - 1900, (day + 1) % 7,
       day - DayNumber(Date(date.year, 1, 1)), false, 0)
  }

  // timegm: a month out of range counts into earlier or later years, and other fields out of range add up.
  function Timegm(tm: Tm): int {
    var date := Date(tm.year + 1900 + tm.mon / 12, tm.mon % 12 + 1, tm.mday);
    (DayNumber(date) - EPOCH) * DAY + tm.hour * 3600 + tm.min * 60 + tm.sec
  }

  lemma TimegmIgnores(tm: Tm, isdst: bool, gmtoff: int)
    ensures Timegm(tm.(isdst := isdst, gmtoff := gmtoff)) == Timegm(tm)
  {
  }

  lemma TimegmIs(t: int)
    ensures Timegm(Gmtime(t)) == t
  {
    hide DateOf, DayNumber;
    DateOfIs(t / DAY + EPOCH);
    Clock(t % DAY);
  }

  lemma Clock(seconds: int)
    requires 0 <= seconds < DAY
    ensures seconds / 3600 * 3600 + seconds / 60 % 60 * 60 + seconds % 60 == seconds
    ensures 0 <= seconds / 3600 < 24
  {
    assert seconds / 3600 == seconds / 60 / 60;
  }

  // ---------- UTC ----------

  // toUtcTime with flooring division.
  function UtcOf(t: int, yday: bool): Tm {
    var day, seconds := t / DAY + EPOCH, t % DAY;
    var date := FromJulianDay(day);
    Tm(seconds % 60, seconds / 60 % 60, seconds / 3600, date.day, date.month - 1, date.year - 1900, WeekDay(day),
       if yday then day - JulianDay(Date(date.year, 1, 1)) else 0, false, 0)
  }

  // fillHMS: hours, minutes and seconds that add up to the unsigned seconds given; the other fields stay.
  method FillHms(seconds: nat, utc: Tm) returns (filled: Tm)
    ensures filled.hour * 3600 + filled.min * 60 + filled.sec == seconds
    ensures 0 <= filled.sec < 60 && 0 <= filled.min < 60 && 0 <= filled.hour
    ensures filled == utc.(sec := filled.sec, min := filled.min, hour := filled.hour)
  {
    filled := utc.(sec := seconds % 60);
    var minutes := seconds / 60;
    filled := filled.(min := minutes % 60);
    filled := filled.(hour := minutes / 60);
  }

  lemma Split(t: int, q: int, s: int)
    requires t == q * DAY + s && 0 <= s < DAY
    ensures t / DAY == q && t % DAY == s
  {
  }

  // C's remainder made non-negative, and the quotient with it.
  lemma Adjusted(t: int)
    ensures
      var s, q := TruncMod(t, DAY), TruncDiv(t, DAY);
      if s < 0 then t / DAY == q - 1 && t % DAY == s + DAY else t / DAY == q && t % DAY == s
  {
    var s, q := TruncMod(t, DAY), TruncDiv(t, DAY);
    if s < 0 {
      Split(t, q - 1, s + DAY);
    } else {
      Split(t, q, s);
    }
  }

  // toUtcTime.
  method ToUtcTime(t: int, yday: bool) returns (utc: Tm)
    ensures utc == UtcOf(t, yday)
  {
    hide JulianDay, FromJulianDay, WeekDay, TruncDiv, TruncMod;
    Adjusted(t);
    utc := Tm(0, 0, 0, 0, 0, 0, 0, 0, false, 0);
    var seconds := TruncMod(t, DAY);
    var days := TruncDiv(t, DAY);
    if seconds < 0 {
      seconds := seconds + DAY;
      days := days - 1;
    }
    utc := FillHms(seconds, utc);
    ClockFields(utc.hour, utc.min, utc.sec);
    var n := days + EPOCH;
    var date := FromJulianDay(n);
    utc := utc.(year := date.year - 1900, mon := date.month - 1, mday := date.day);
    utc := utc.(wday := WeekDay(n));
    if yday {
      utc := utc.(yday := n - JulianDay(Date(date.year, 1, 1)));
    }
  }

  // fromUtcTime.
  function FromUtc(year: int, month: int, day: int, hour: int, minute: int, seconds: int): int {
    (JulianDay(Date(year, month, day)) - EPOCH) * DAY + (hour * 3600 + minute * 60 + seconds)
  }

  function FromUtcTm(tm: Tm): int {
    FromUtc(tm.year + 1900, tm.mon + 1, tm.mday, tm.hour, tm.min, tm.sec)
  }

  // Every second from -4800-03-01 on survives the round trip, those before the epoch included.
  lemma UtcRoundTrip(t: int, yday: bool)
    requires t / DAY + EPOCH >= -32044
    ensures FromUtcTm(UtcOf(t, yday)) == t
  {
    hide JulianDay, FromJulianDay;
    DecodeExact(t / DAY + EPOCH);
    Clock(t % DAY);
  }

  lemma ClockFields(hour: int, min: int, sec: int)
    requires 0 <= hour < 24 && 0 <= min < 60 && 0 <= sec < 60
    ensures
      var s := hour * 3600 + min * 60 + sec;
      0 <= s < DAY && s / 3600 == hour && s / 60 % 60 == min && s % 60 == sec
  {
  }

  // A normalised broken-down time is recovered from its second.
  lemma UtcFieldsRoundTrip(tm: Tm, yday: bool)
    requires IsDate(DateIn(tm)) && !Before(DateIn(tm), FIRST)
    requires 0 <= tm.hour < 24 && 0 <= tm.min < 60 && 0 <= tm.sec < 60
    ensures
      var u := UtcOf(FromUtcTm(tm), yday);
      DateIn(u) == DateIn(tm) && u.hour == tm.hour && u.min == tm.min && u.sec == tm.sec
  {
    hide JulianDay, FromJulianDay, WeekDay, IsDate;
    EncodeExact(DateIn(tm));
    var s := tm.hour * 3600 + tm.min * 60 + tm.sec;
    Split(FromUtcTm(tm), JulianDay(DateIn(tm)) - EPOCH, s);
    ClockFields(tm.hour, tm.min, tm.sec);
  }

  // From day number 0 on the program's conversion is the C library's, week day and day of the year included.
  lemma UtcIsGmtime(t: int)
    requires t / DAY + EPOCH >= 0
    ensures UtcOf(t, true) == Gmtime(t)
  {
    hide JulianDay, FromJulianDay, DateOf, DayNumber, Before;
    var n := t / DAY + EPOCH;
    DecodeAgrees(n);
    DateOfIs(n);
    NewYear(n);
    EncodeAgrees(Date(DateOf(n).year, 1, 1));
  }

  lemma NewYear(n: int)
    requires n >= 0
    ensures DateOf(n).year >= -4713 && !Before(Date(DateOf(n).year, 1, 1), FIRST)
  {
    hide DateOf, DayNumber;
    DateOfIs(n);
    DayNumberOrder(DateOf(n), Date(-4713, 1, 1));
    assert DayNumber(Date(-4713, 1, 1)) < 0 by {
      OldDay();
    }
  }

  lemma OldDay()
    ensures DayNumber(Date(-4713, 1, 1)) < 0
  {
  }

  // tm_yday counts from the first of January and stays within the year.
  lemma YearDay(t: int)
    requires t / DAY + EPOCH >= 0
    ensures
      var u := UtcOf(t, true);
      && 0 <= u.yday < (if IsLeap(u.year + 1900) then 366 else 365)
      && DayNumber(Date(u.year + 1900, 1, 1)) + u.yday == DayNumber(DateIn(u))
  {
    hide JulianDay, FromJulianDay, DateOf, DayNumber, Before, IsLeap;
    UtcIsGmtime(t);
    var date := DateOf(t / DAY + EPOCH);
    DateOfIs(t / DAY + EPOCH);
    YearBounds(date);
  }

  lemma YearBounds(date: Date)
    requires IsDate(date)
    ensures
      var first := DayNumber(Date(date.year, 1, 1));
      first <= DayNumber(date) < first + (if IsLeap(date.year) then 366 else 365)
  {
    hide DayNumber, IsLeap;
    var y := date.year;
    DayNumberOrder(date, Date(y, 1, 1));
    DayNumberOrder(date, Date(y + 1, 1, 1));
    YearSpan(y);
  }

  lemma YearSpan(y: int)
    ensures DayNumber(Date(y + 1, 1, 1)) == DayNumber(Date(y, 1, 1)) + (if IsLeap(y) then 366 else 365)
  {
    hide IsLeap, YearStart;
    YearLengthIs(y + 4799);
  }

  // ---------- Time zones ----------

  datatype Localtime = Localtime(gmtOffset: int, isDst: bool)
  datatype Transition = Transition(gmttime: int, localtime: int, localtimeIdx: nat)
  datatype Zone = Zone(transitions: seq<Transition>, localtimes: seq<Localtime>)

  predicate WellFormed(z: Zone) {
    |z.localtimes| > 0 && forall i :: 0 <= i < |z.transitions| ==> z.transitions[i].localtimeIdx < |z.localtimes|
  }

  function Key(x: Transition, gmt: bool): int {
    if gmt then x.gmttime else x.localtime
  }

  predicate Ascending(ts: seq<Transition>, gmt: bool) {
    forall i, j :: 0 <= i < j < |ts| ==> Key(ts[i], gmt) < Key(ts[j], gmt)
  }

  // The last transition at or before x, by a scan from the end; -1 if there is none.
  function LastUpTo(ts: seq<Transition>, x: int, gmt: bool): (k: int)
    ensures -1 <= k < |ts|
  {
    if ts == [] then -1
    else if Key(ts[|ts| - 1], gmt) <= x then |ts| - 1
    else LastUpTo(ts[..|ts| - 1], x, gmt)
  }

  // The local time type in force in period k, which begins with transition k.
  function TypeOf(z: Zone, k: int): Localtime
    requires WellFormed(z) && -1 <= k < |z.transitions|
  {
    if k == -1 then z.localtimes[0] else z.localtimes[z.transitions[k].localtimeIdx]
  }

  function LocalAt(z: Zone, x: int, gmt: bool): Localtime
    requires WellFormed(z)
  {
    TypeOf(z, LastUpTo(z.transitions, x, gmt))
  }

  lemma {:induction false} LastUpToIs(ts: seq<Transition>, x: int, gmt: bool, k: int)
    requires -1 <= k < |ts|
    requires k >= 0 ==> Key(ts[k], gmt) <= x
    requires forall j :: k < j < |ts| ==> Key(ts[j], gmt) > x
    ensures LastUpTo(ts, x, gmt) == k
  {
    if k < |ts| - 1 {
      LastUpToIs(ts[..|ts| - 1], x, gmt, k);
    }
  }

  lemma {:induction false} LastUpToHas(ts: seq<Transition>, x: int, gmt: bool)
    ensures
      var k := LastUpTo(ts, x, gmt);
      && (k >= 0 ==> Key(ts[k], gmt) <= x)
      && forall j :: k < j < |ts| ==> Key(ts[j], gmt) > x
  {
    if ts != [] && Key(ts[|ts| - 1], gmt) > x {
      LastUpToHas(ts[..|ts| - 1], x, gmt);
      forall j | LastUpTo(ts, x, gmt) < j < |ts| ensures Key(ts[j], gmt) > x {
        assert j < |ts| - 1 ==> ts[..|ts| - 1][j] == ts[j];
      }
    }
  }

  // std::lower_bound.
  method LowerBound(ts: seq<Transition>, sentry: Transition, gmt: bool) returns (first: nat)
    requires Ascending(ts, gmt)
    ensures first <= |ts|
    ensures forall i :: 0 <= i < first ==> Key(ts[i], gmt) < Key(sentry, gmt)
    ensures forall i :: first <= i < |ts| ==> Key(ts[i], gmt) >= Key(sentry, gmt)
  {
    first := 0;
    var len := |ts|;
    while len > 0
      invariant 0 <= len && first + len <= |ts|
      invariant forall i :: 0 <= i < first ==> Key(ts[i], gmt) < Key(sentry, gmt)
      invariant forall i :: first + len <= i < |ts| ==> Key(ts[i], gmt) >= Key(sentry, gmt)
    {
      var half := len / 2;
      var middle := first + half;
      if Key(ts[middle], gmt) < Key(sentry, gmt) {
        first := middle + 1;
        len := len - half - 1;
      } else {
        len := half;
      }
    }
  }

  // findLocaltime.
  method FindLocaltime(z: Zone, sentry: Transition, gmt: bool) returns (local: Localtime)
    requires WellFormed(z) && Ascending(z.transitions, gmt)
    ensures local == LocalAt(z, Key(sentry, gmt), gmt)
  {
    var ts := z.transitions;
    if |ts| == 0 || Key(sentry, gmt) < Key(ts[0], gmt) {
      LastUpToIs(ts, Key(sentry, gmt), gmt, -1);
      local := z.localtimes[0];
    } else {
      var i := LowerBound(ts, sentry, gmt);
      if i != |ts| {
        if Key(sentry, gmt) != Key(ts[i], gmt) {
          assert i != 0;
          i := i - 1;
        }
        LastUpToIs(ts, Key(sentry, gmt), gmt, i);
        local := z.localtimes[ts[i].localtimeIdx];
      } else {
        LastUpToIs(ts, Key(sentry, gmt), gmt, |ts| - 1);
        local := z.localtimes[ts[|ts| - 1].localtimeIdx];
      }
    }
  }

  // toLocalTime.
  function ToLocal(z: Zone, t: int): Tm
    requires WellFormed(z)
  {
    var local := LocalAt(z, t, true);
    Gmtime(t + local.gmtOffset).(isdst := local.isDst, gmtoff := local.gmtOffset)
  }

  method ToLocalTime(z: Zone, t: int) returns (tm: Tm)
    requires WellFormed(z) && Ascending(z.transitions, true)
    ensures tm == ToLocal(z, t) && Timegm(tm) - tm.gmtoff == t
  {
    ToLocalIs(z, t);
    var local := FindLocaltime(z, Transition(t, 0, 0), true);
    var localSeconds := t + local.gmtOffset;
    tm := Gmtime(localSeconds);
    tm := tm.(isdst := local.isDst);
    tm := tm.(gmtoff := local.gmtOffset);
  }

  // fromLocalTime: an hour less when the time is given as DST and the standard reading has the same hour and minute.
  function FromLocal(z: Zone, tm: Tm): int
    requires WellFormed(z)
  {
    var seconds := Timegm(tm);
    var offset := LocalAt(z, seconds, false).gmtOffset;
    var attempt := ToLocal(z, seconds - offset);
    if tm.isdst && !attempt.isdst && attempt.hour == tm.hour && attempt.min == tm.min
    then seconds - offset - 3600
    else seconds - offset
  }

  method FromLocalTime(z: Zone, localTm: Tm) returns (t: int)
    requires WellFormed(z) && Ascending(z.transitions, true) && Ascending(z.transitions, false)
    ensures t == FromLocal(z, localTm)
  {
    hide Gmtime;
    var seconds := Timegm(localTm);
    var local := FindLocaltime(z, Transition(0, seconds, 0), false);
    if localTm.isdst {
      var attempt := ToLocalTime(z, seconds - local.gmtOffset);
      if !attempt.isdst && attempt.hour == localTm.hour && attempt.min == localTm.min {
        seconds := seconds - 3600;
      }
    }
    t := seconds - local.gmtOffset;
  }

  // A zone that starts in standard time and alternates between DST, `shift` seconds ahead, and standard time,
  // with transitions further apart than that and local times as readTimeZoneFile computes them.
  ghost predicate Alternates(z: Zone, shift: int) {
    && shift > 0 && WellFormed(z) && !z.localtimes[0].isDst
    && (forall i, j :: 0 <= i < j < |z.transitions| ==> z.transitions[i].gmttime + shift < z.transitions[j].gmttime)
    && (forall i :: 0 <= i < |z.transitions| ==>
      && z.transitions[i].localtime == z.transitions[i].gmttime + TypeOf(z, i).gmtOffset
      && (TypeOf(z, i).isDst <==> i % 2 == 0)
      && TypeOf(z, i).gmtOffset == z.localtimes[0].gmtOffset + if i % 2 == 0 then shift else 0)
  }

  lemma AlternatesAscend(z: Zone, shift: int)
    requires Alternates(z, shift)
    ensures Ascending(z.transitions, true) && Ascending(z.transitions, false)
  {
  }

  // The clock will show the local time of t once more: t is within the last `shift` seconds of DST.
  ghost predicate Repeats(z: Zone, shift: int, t: int)
    requires WellFormed(z)
  {
    var k := LastUpTo(z.transitions, t, true);
    TypeOf(z, k).isDst && k + 1 < |z.transitions| && z.transitions[k + 1].gmttime <= t + shift
  }

  // The period found by local time: the right one, or the next one when the local time repeats.
  lemma LocalPeriod(z: Zone, shift: int, t: int)
    requires Alternates(z, shift)
    ensures
      var k := LastUpTo(z.transitions, t, true);
      var x := t + TypeOf(z, k).gmtOffset;
      LastUpTo(z.transitions, x, false) == if Repeats(z, shift, t) then k + 1 else k
  {
    var ts := z.transitions;
    var k := LastUpTo(ts, t, true);
    LastUpToHas(ts, t, true);
    var x := t + TypeOf(z, k).gmtOffset;
    var i := if Repeats(z, shift, t) then k + 1 else k;
    forall j | i < j < |ts| ensures Key(ts[j], false) > x {
      assert Key(ts[j], true) > t;
      assert k + 1 < j ==> ts[k + 1].gmttime + shift < ts[j].gmttime;
    }
    LastUpToIs(ts, x, false, i);
  }

  // `shift` seconds after a repeated local time the following standard period is in force.
  lemma ShiftLater(z: Zone, shift: int, t: int)
    requires Alternates(z, shift) && Repeats(z, shift, t)
    ensures LastUpTo(z.transitions, t + shift, true) == LastUpTo(z.transitions, t, true) + 1
  {
    var ts := z.transitions;
    var k := LastUpTo(ts, t, true);
    LastUpToHas(ts, t, true);
    forall j | k + 1 < j < |ts| ensures Key(ts[j], true) > t + shift {
      assert ts[k + 1].gmttime + shift < ts[j].gmttime && Key(ts[k + 1], true) > t;
    }
    LastUpToIs(ts, t + shift, true, k + 1);
  }

  // A second survives the round trip through local time exactly when its local time does not repeat or DST is
  // one hour ahead.
  lemma LocalExact(z: Zone, shift: int, t: int)
    requires Alternates(z, shift)
    ensures FromLocal(z, ToLocal(z, t)) == t <==> shift == 3600 || !Repeats(z, shift, t)
  {
    hide Gmtime, LastUpTo, Timegm;
    var k := LastUpTo(z.transitions, t, true);
    var x := t + TypeOf(z, k).gmtOffset;
    TimegmIs(x);
    TimegmIgnores(Gmtime(x), TypeOf(z, k).isDst, TypeOf(z, k).gmtOffset);
    assert Timegm(ToLocal(z, t)) == x;
    LocalPeriod(z, shift, t);
    if Repeats(z, shift, t) {
      ShiftLater(z, shift, t);
    }
  }

  // With DST one hour ahead every second survives, both readings of a repeated hour included.
  lemma LocalRoundTrip(z: Zone, t: int)
    requires Alternates(z, 3600)
    ensures FromLocal(z, ToLocal(z, t)) == t
  {
    hide FromLocal, ToLocal, Repeats;
    LocalExact(z, 3600, t);
  }

  // DST half an hour ahead: the last half hour of DST is not recovered.
  const HALF_HOUR := Zone([Transition(0, 1800, 1), Transition(10000, 10000, 0)],
                          [Localtime(0, false), Localtime(1800, true)])

  lemma HalfHourFails()
    ensures Alternates(HALF_HOUR, 1800) && FromLocal(HALF_HOUR, ToLocal(HALF_HOUR, 9000)) != 9000
  {
    hide FromLocal, ToLocal;
    var z := HALF_HOUR;
    assert Alternates(z, 1800);
    assert Repeats(z, 1800, 9000) by {
      assert Key(z.transitions[0], true) == 0 && Key(z.transitions[1], true) == 10000;
      LastUpToIs(z.transitions, 9000, true, 0);
    }
    LocalExact(z, 1800, 9000);
  }

  // ---------- What a local time says ----------

  // The broken-down local time, less the offset it carries, is the second it was made from; offset and DST flag are
  // those of the last transition at or before that second, and the fields are a date and a time of day.
  lemma ToLocalIs(z: Zone, t: int)
    requires WellFormed(z)
    ensures
      var tm, k := ToLocal(z, t), LastUpTo(z.transitions, t, true);
      && Timegm(tm) - tm.gmtoff == t
      && tm.gmtoff == TypeOf(z, k).gmtOffset && tm.isdst == TypeOf(z, k).isDst
      && (k >= 0 ==> z.transitions[k].gmttime <= t)
      && (forall j :: k < j < |z.transitions| ==> t < z.transitions[j].gmttime)
      && IsDate(DateIn(tm)) && 0 <= tm.hour < 24 && 0 <= tm.min < 60 && 0 <= tm.sec < 60
  {
    hide Gmtime, Timegm, LastUpTo, IsDate;
    var k := LastUpTo(z.transitions, t, true);
    var x := t + TypeOf(z, k).gmtOffset;
    TimegmIs(x);
    TimegmIgnores(Gmtime(x), TypeOf(z, k).isDst, TypeOf(z, k).gmtOffset);
    GmtimeRange(x);
    LastUpToHas(z.transitions, t, true);
    forall j | k < j < |z.transitions| ensures t < z.transitions[j].gmttime {
      assert Key(z.transitions[j], true) > t;
    }
  }

  lemma GmtimeRange(t: int)
    ensures
      var tm := Gmtime(t);
      IsDate(DateIn(tm)) && 0 <= tm.hour < 24 && 0 <= tm.min < 60 && 0 <= tm.sec < 60
  {
    hide DateOf, DayNumber, IsDate;
    DateOfIs(t / DAY + EPOCH);
    Clock(t % DAY);
  }

  // In a zone with a fixed offset a time given as standard time is that offset away from universal time.
  lemma FixedZone(offset: int, tm: Tm)
    requires !tm.isdst
    ensures FromLocal(Zone([], [Localtime(offset, false)]), tm) == Timegm(tm) - offset
  {
    hide Gmtime, Timegm;
  }
}
