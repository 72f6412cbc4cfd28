/** The REEF reference-price cache (`ReefPriceScrapper`): prices are cached per
    UTC day under a `DD-MM-YYYY` key; the HTTP price services are oracles. */
module ReefPrice {
  import opened Common

  const MsPerDay := 86_400_000

  /** The largest time value a JavaScript `Date` holds, in milliseconds. */
  const MaxTime := 8_640_000_000_000_000

  /** How recent a time must be to use the current price instead of history. */
  const RecentWindow := 60_000

  predicate IsLeap(y: int) {
    y % 4 == 0 && (y % 100 != 0 || y % 400 == 0)
  }

  function DaysInYear(y: int): int {
    if IsLeap(y) then 366 else 365
  }

  function MonthLength(m: int, leap: bool): int
    requires 1 <= m <= 12
  {
    if m == 2 then (if leap then 29 else 28)
    else if m == 4 || m == 6 || m == 9 || m == 11 then 30
    else 31
  }

  /** The days in months `m` through December. */
  function DaysFrom(m: int, leap: bool): int
    requires 1 <= m <= 13
    decreases 13 - m
  {
    if m == 13 then 0 else MonthLength(m, leap) + DaysFrom(m + 1, leap)
  }

  /** The year and zero-based day of year of day `d` counted from January 1st
      of year `y`, for `d >= 0`. */
  function Forward(y: int, d: int): (r: (int, int))
    requires 0 <= d
    ensures 0 <= r.1 < DaysInYear(r.0)
    decreases d
  {
    if d < DaysInYear(y) then (y, d) else Forward(y + 1, d - DaysInYear(y))
  }

  /** The same for `d < 0`, walking back a year at a time. */
  function Backward(y: int, d: int): (r: (int, int))
    requires d < 0
    ensures 0 <= r.1 < DaysInYear(r.0)
    decreases -d
  {
    var d' := d + DaysInYear(y - 1);
    if d' >= 0 then (y - 1, d') else Backward(y - 1, d')
  }

  /** The month and day of month of zero-based day `d` counted from the first
      of month `m`. */
  function MonthDay(m: int, d: int, leap: bool): (r: (int, int))
    requires 1 <= m <= 12 && 0 <= d < DaysFrom(m, leap)
    ensures 1 <= r.0 <= 12 && 1 <= r.1 <= MonthLength(r.0, leap)
    decreases 13 - m
  {
    if d < MonthLength(m, leap) then (m, d + 1)
    else MonthDay(m + 1, d - MonthLength(m, leap), leap)
  }

  /** The proleptic Gregorian (year, month, day) of a day count since
      1970-01-01, as `Date` computes it. */
  function CivilFromDays(days: int): (r: (int, int, int))
    ensures 1 <= r.1 <= 12 && 1 <= r.2 <= MonthLength(r.1, IsLeap(r.0))
  {
    var (y, doy) := if days >= 0 then Forward(1970, days) else Backward(1970, days);
    assert DaysFrom(1, IsLeap(y)) == DaysInYear(y);
    var (m, d) := MonthDay(1, doy, IsLeap(y));
    (y, m, d)
  }

  // ---------------------------------------------------------------------
  // The day count of a calendar date, defined independently
  // ---------------------------------------------------------------------

  /** The days from 1970-01-01 to January 1st of year `y`. */
  function YearStart(y: int): int
    decreases if y >= 1970 then y - 1970 else 1970 - y
  {
    if y == 1970 then 0
    else if y > 1970 then YearStart(y - 1) + DaysInYear(y - 1)
    else YearStart(y + 1) - DaysInYear(y)
  }

  /** The days of the year before the first of month `m`. */
  function DaysBefore(m: int, leap: bool): int
    requires 1 <= m <= 13
  {
    if m == 1 then 0 else DaysBefore(m - 1, leap) + MonthLength(m - 1, leap)
  }

  /** The day count since 1970-01-01 of the date `y-m-d`. */
  function DaysFromCivil(y: int, m: int, d: int): int
    requires 1 <= m <= 12
  {
    YearStart(y) + DaysBefore(m, IsLeap(y)) + d - 1
  }

  lemma YearStartStep(y: int)
    ensures YearStart(y + 1) == YearStart(y) + DaysInYear(y)
  {
  }

  lemma {:induction false} ForwardStart(y: int, d: int)
    requires 0 <= d
    ensures YearStart(Forward(y, d).0) + Forward(y, d).1 == YearStart(y) + d
    decreases d
  {
    if d >= DaysInYear(y) {
      ForwardStart(y + 1, d - DaysInYear(y));
      YearStartStep(y);
    }
  }

  lemma {:induction false} BackwardStart(y: int, d: int)
    requires d < 0
    ensures YearStart(Backward(y, d).0) + Backward(y, d).1 == YearStart(y) + d
    decreases -d
  {
    var d' := d + DaysInYear(y - 1);
    YearStartStep(y - 1);
    if d' < 0 {
      BackwardStart(y - 1, d');
    }
  }

  lemma {:induction false} MonthDayStart(m: int, d: int, leap: bool)
    requires 1 <= m <= 12 && 0 <= d < DaysFrom(m, leap)
    ensures DaysBefore(MonthDay(m, d, leap).0, leap) + MonthDay(m, d, leap).1 - 1 == DaysBefore(m, leap) + d
    decreases 13 - m
  {
    if d >= MonthLength(m, leap) {
      MonthDayStart(m + 1, d - MonthLength(m, leap), leap);
    }
  }

  /** The calendar date `Date` shows for a day count is the date whose day
      count, computed year by year and month by month, is that count. */
  lemma CivilRoundTrip(days: int)
    ensures var c := CivilFromDays(days);
            DaysFromCivil(c.0, c.1, c.2) == days
  {
    var (y, doy) := if days >= 0 then Forward(1970, days) else Backward(1970, days);
    if days >= 0 {
      ForwardStart(1970, days);
    } else {
      BackwardStart(1970, days);
    }
    assert DaysFrom(1, IsLeap(y)) == DaysInYear(y);
    MonthDayStart(1, doy, IsLeap(y));
  }

  /** The two-digit text of a month or day. */
  function TwoDigits(n: nat): string {
    PadStart(NatToString(n), 2, '0')
  }

  /** The year as `toISOString` writes it: four digits within 0..9999, else a
      sign and six digits. */
  function IsoYear(y: int): string {
    if 0 <= y <= 9999 then PadStart(NatToString(y), 4, '0')
    else (if y < 0 then "-" else "+") + PadStart(NatToString(if y < 0 then -y else y), 6, '0')
  }

  /** `date.toISOString().split('T')[0]`: the UTC calendar date of a time;
      `toISOString` throws for a time outside the `Date` range. */
  function IsoDate(t: int): (r: Result<string>)
    ensures r.Err? <==> t < -MaxTime || MaxTime < t
  {
    if t < -MaxTime || MaxTime < t then Err("Invalid time value")
    else
      var (y, m, d) := CivilFromDays(t / MsPerDay);
      Ok(IsoYear(y) + "-" + TwoDigits(m) + "-" + TwoDigits(d))
  }

  /** The `YYYY-MM-DD` layout: four, two and two digits separated by `-`. */
  predicate IsoShape(s: string) {
    && |s| == 10 && s[4] == '-' && s[7] == '-'
    && AllDigits(s[..4]) && AllDigits(s[5..7]) && AllDigits(s[8..])
  }

  /** For a year within 0..9999, `toISOString` gives a `YYYY-MM-DD` date whose
      fields read back as the calendar date of the time's day. */
  lemma IsoDateReadsBack(t: int)
    requires -MaxTime <= t <= MaxTime && 0 <= CivilFromDays(t / MsPerDay).0 <= 9999
    ensures IsoDate(t).Ok? && IsoShape(IsoDate(t).value)
    ensures var s := IsoDate(t).value;
            var c := CivilFromDays(t / MsPerDay);
            DigitsValue(s[..4]) == c.0 && DigitsValue(s[5..7]) == c.1 && DigitsValue(s[8..]) == c.2
    ensures var s := IsoDate(t).value;
            1 <= DigitsValue(s[5..7]) <= 12
            && DaysFromCivil(DigitsValue(s[..4]), DigitsValue(s[5..7]), DigitsValue(s[8..])) == t / MsPerDay
  {
    var c := CivilFromDays(t / MsPerDay);
    IsoDateText(t);
    FieldTexts(c.0, c.1, c.2);
    IsoFields(IsoYear(c.0), TwoDigits(c.1), TwoDigits(c.2));
    CivilRoundTrip(t / MsPerDay);
  }

  lemma IsoDateText(t: int)
    requires -MaxTime <= t <= MaxTime
    ensures var c := CivilFromDays(t / MsPerDay);
            IsoDate(t) == Ok(IsoYear(c.0) + "-" + TwoDigits(c.1) + "-" + TwoDigits(c.2))
  {
  }

  /** The year, month and day texts have four, two and two digits and read
      back as their numbers. */
  lemma FieldTexts(y: int, m: nat, d: nat)
    requires 0 <= y <= 9999 && m <= 99 && d <= 99
    ensures |IsoYear(y)| == 4 && AllDigits(IsoYear(y)) && DigitsValue(IsoYear(y)) == y
    ensures |TwoDigits(m)| == 2 && AllDigits(TwoDigits(m)) && DigitsValue(TwoDigits(m)) == m
    ensures |TwoDigits(d)| == 2 && AllDigits(TwoDigits(d)) && DigitsValue(TwoDigits(d)) == d
  {
    assert Pow10(4) == 10000 && Pow10(2) == 100;
    NatToStringLength(y, 4);
    NatToStringLength(m, 2);
    NatToStringLength(d, 2);
    PadStartValue(y, 4);
    PadStartValue(m, 2);
    PadStartValue(d, 2);
  }

  lemma IsoFields(ys: string, ms: string, ds: string)
    requires |ys| == 4 && |ms| == 2 && |ds| == 2
    requires AllDigits(ys) && AllDigits(ms) && AllDigits(ds)
    ensures var s := ys + "-" + ms + "-" + ds;
            IsoShape(s) && s[..4] == ys && s[5..7] == ms && s[8..] == ds
  {
    var s := ys + "-" + ms + "-" + ds;
    assert s[..4] == ys && s[5..7] == ms && s[8..] == ds;
  }

  /** `date2String` on the date part: its `-`-separated fields in reverse
      order. */
  function Date2String(iso: string): string {
    Join(Reverse(Split(iso, '-')), '-')
  }

  lemma JoinThree(a: string, b: string, c: string, sep: char)
    ensures Join([a, b, c], sep) == a + [sep] + b + [sep] + c
  {
    assert [b, c][1..] == [c];
    assert Join([b, c], sep) == b + [sep] + c;
    assert [a, b, c][1..] == [b, c];
  }

  /** `YYYY-MM-DD` becomes `DD-MM-YYYY`. */
  lemma Date2StringSwaps(y: string, m: string, d: string)
    requires '-' !in y && '-' !in m && '-' !in d
    ensures Date2String(y + "-" + m + "-" + d) == d + "-" + m + "-" + y
  {
    JoinThree(y, m, d, '-');
    SplitJoin([y, m, d], '-');
    var r := Reverse([y, m, d]);
    assert r == [d, m, y] by {
      assert |r| == 3 && r[0] == d && r[1] == m && r[2] == y;
    }
    JoinThree(d, m, y, '-');
  }

  /** Applying the reversal twice to a date gives it back. */
  lemma Date2StringInvolution(iso: string)
    ensures Date2String(Date2String(iso)) == iso
  {
    var parts := Split(iso, '-');
    var rev := Reverse(parts);
    assert forall k :: 0 <= k < |rev| ==> '-' !in rev[k];
    SplitJoin(rev, '-');
    assert Reverse(rev) == parts by {
      assert |Reverse(rev)| == |parts|;
      forall k | 0 <= k < |parts| ensures Reverse(rev)[k] == parts[k] {}
    }
    JoinSplit(iso, '-');
  }

  /** The cache key of a time. */
  function DayKey(t: int): Result<string> {
    var iso :- IsoDate(t);
    Ok(Date2String(iso))
  }

  /** Two times on the same UTC day share a key. */
  lemma SameDaySameKey(t1: int, t2: int)
    requires t1 / MsPerDay == t2 / MsPerDay
    requires -MaxTime <= t1 <= MaxTime && -MaxTime <= t2 <= MaxTime
    ensures DayKey(t1) == DayKey(t2)
  {
  }

  /** Every time on the first day of the epoch keys as `01-01-1970`. */
  lemma EpochKey(t: int)
    requires 0 <= t < MsPerDay
    ensures DayKey(t) == Ok("01-01-1970")
  {
    EpochIsoDate(t);
    DayKeyOfIso(t, "1970", "01", "01");
    EpochKeyText();
  }

  lemma EpochKeyText()
    ensures "01" + "-" + "01" + "-" + "1970" == "01-01-1970"
  {
    assert "01" + "-" == "01-";
    assert "01-" + "01" == "01-01";
    assert "01-01" + "-" == "01-01-";
  }

  lemma DayKeyOfIso(t: int, y: string, m: string, d: string)
    requires '-' !in y && '-' !in m && '-' !in d
    requires IsoDate(t) == Ok(y + "-" + m + "-" + d)
    ensures DayKey(t) == Ok(d + "-" + m + "-" + y)
  {
    Date2StringSwaps(y, m, d);
  }

  lemma EpochIsoDate(t: int)
    requires 0 <= t < MsPerDay
    ensures IsoDate(t) == Ok("1970" + "-" + "01" + "-" + "01")
  {
    EpochCivil(t);
    EpochTexts();
  }

  lemma EpochCivil(t: int)
    requires 0 <= t < MsPerDay
    ensures CivilFromDays(t / MsPerDay) == (1970, 1, 1)
  {
    assert t / MsPerDay == 0;
    assert Forward(1970, 0) == (1970, 0);
    assert MonthDay(1, 0, IsLeap(1970)) == (1, 1);
  }

  lemma EpochTexts()
    ensures IsoYear(1970) == "1970" && TwoDigits(1) == "01"
  {
    assert NatToString(1) == "1";
    assert NatToString(19) == "19";
    assert NatToString(197) == "197";
    assert NatToString(1970) == "1970";
    assert seq(1, _ => '0') == "0";
  }

  /** The price oracles: the current price and the price on a day key; `None`
      is a failed request, which throws. */
  datatype Oracle = Oracle(current: Option<real>, history: string -> Option<real>)

  /** A time a `Date` can hold. */
  predicate ValidTime(t: int) {
    -MaxTime <= t <= MaxTime
  }

  /** `date > new Date(now - 60000)`: a comparison with an invalid `Date` is
      false. */
  predicate Recent(t: int, now: int) {
    ValidTime(t) && ValidTime(now - RecentWindow) && t > now - RecentWindow
  }

  /** `getPrice(date)` with the clock reading `now`: the price and the cache
      afterwards. An invalid date fails the recency test and then makes
      `toISOString` throw. */
  function GetPrice(cache: map<string, real>, t: int, now: int, oracle: Oracle): (r: Result<(real, map<string, real>)>)
    ensures !ValidTime(t) ==> r == Err("Invalid time value")
    ensures Recent(t, now) ==>
      && (r.Ok? <==> oracle.current.Some?)
      && (r.Ok? ==> r.value == (oracle.current.value, cache))
    ensures ValidTime(t) && !Recent(t, now) ==>
      && DayKey(t).Ok?
      && var key := DayKey(t).value;
      && (key in cache && cache[key] != 0.0 ==> r == Ok((cache[key], cache)))
      && (!(key in cache && cache[key] != 0.0) ==>
            && (r.Ok? <==> oracle.history(key).Some?)
            && (r.Ok? ==> r.value == (oracle.history(key).value, cache[key := oracle.history(key).value])))
  {
    if Recent(t, now) then
      match oracle.current
      case None => Err("Error getting current price from CoinGecko")
      case Some(p) => Ok((p, cache))
    else
      var key :- DayKey(t);
      if key in cache && cache[key] != 0.0 then Ok((cache[key], cache))
      else
        match oracle.history(key)
        case None => Err("Error getting history price from CoinGecko")
        case Some(p) => Ok((p, cache[key := p]))
  }

  /** Once a non-zero price for a day is cached, every later request for a
      time of that day is served from the cache, whatever the oracle says. */
  lemma SameDayServedFromCache(cache: map<string, real>, t1: int, t2: int, now: int, o1: Oracle, o2: Oracle)
    requires t1 <= now - RecentWindow && t2 <= now - RecentWindow
    requires t1 / MsPerDay == t2 / MsPerDay
    requires -MaxTime <= t1 <= MaxTime && -MaxTime <= t2 <= MaxTime
    requires GetPrice(cache, t1, now, o1).Ok? && GetPrice(cache, t1, now, o1).value.0 != 0.0
    ensures var (p, c) := GetPrice(cache, t1, now, o1).value;
            GetPrice(c, t2, now, o2) == Ok((p, c))
  {
    SameDaySameKey(t1, t2);
    var key := DayKey(t1).value;
    var (p, c) := GetPrice(cache, t1, now, o1).value;
    assert c[key] == p;
  }

  /** A cached zero counts as a miss: the history oracle is asked again. */
  lemma CachedZeroRefetches(cache: map<string, real>, t: int, now: int, o: Oracle, p: real)
    requires t <= now - RecentWindow && -MaxTime <= t <= MaxTime
    requires DayKey(t).value in cache && cache[DayKey(t).value] == 0.0
    requires o.history(DayKey(t).value) == Some(p)
    ensures GetPrice(cache, t, now, o) == Ok((p, cache[DayKey(t).value := p]))
  {
  }
}
