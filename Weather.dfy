/**
 * The weather service: how many forecast days a plant's watering
 * benchmark asks for, the per-date average humidity of a forecast, and the
 * cached forecast lookup. The cache is a map from key to forecast, without
 * expiry; the WeatherAPI call is an oracle from (city, days) to response.
 */
module Weather {

  import opened Wrappers
  import opened Php
  import opened Http
  import opened Plants

  /** One hour of a forecast day; `humidity` is absent when the hour does not carry it. */
  datatype Hour = Hour(humidity: Option<real>)

  /**
   * One entry of `forecast.forecastday`: its date, its hourly data (empty
   * when absent), and `day.avghumidity` when present.
   */
  datatype Day = Day(date: string, hours: seq<Hour>, avgHumidity: Option<real>)

  /** Number of hours that carry a humidity. */
  function CountOf(hours: seq<Hour>): nat {
    if hours == [] then 0
    else CountOf(hours[..|hours| - 1]) + (if hours[|hours| - 1].humidity.Some? then 1 else 0)
  }

  /** Sum of the humidities the hours carry. */
  function SumOf(hours: seq<Hour>): real {
    if hours == [] then 0.0
    else SumOf(hours[..|hours| - 1]) + hours[|hours| - 1].humidity.GetOr(0.0)
  }

  /**
   * The entry for one day: the day's own average when it has no hourly
   * data, otherwise the mean over the hours that carry a humidity, or
   * null when none does. (The source rounds the mean to one decimal.)
   */
  function DayAverage(d: Day): Option<real> {
    if d.hours == [] then d.avgHumidity
    else if CountOf(d.hours) > 0 then Some(SumOf(d.hours) / CountOf(d.hours) as real)
    else None
  }

  /** The `$dailyHumidity` array after the days in order: one entry per date, a later day overwriting an earlier one. */
  function DailyHumidity(days: seq<Day>): map<string, Option<real>> {
    if days == [] then map[]
    else DailyHumidity(days[..|days| - 1])[days[|days| - 1].date := DayAverage(days[|days| - 1])]
  }

  /** No hour is counted exactly when no hour carries a humidity. */
  lemma {:induction false} CountOfZero(hours: seq<Hour>)
    ensures CountOf(hours) == 0 <==> forall i :: 0 <= i < |hours| ==> hours[i].humidity.None?
  {
    if hours != [] {
      var front := hours[..|hours| - 1];
      CountOfZero(front);
      assert forall i :: 0 <= i < |front| ==> front[i] == hours[i];
    }
  }

  /** `n` copies of `x` added up, that is `x * n` without a product in it. */
  function Times(x: real, n: nat): real {
    if n == 0 then 0.0 else Times(x, n - 1) + x
  }

  lemma {:induction false} TimesIsProduct(x: real, n: nat)
    ensures Times(x, n) == x * n as real
  {
    if n > 0 {
      TimesIsProduct(x, n - 1);
      assert x * n as real == x * (n - 1) as real + x;
    }
  }

  /** When every carried humidity lies in `[lo, hi]`, their sum lies between `lo` and `hi` times their count. */
  lemma {:induction false} SumWithin(hours: seq<Hour>, lo: real, hi: real)
    requires forall i :: 0 <= i < |hours| && hours[i].humidity.Some? ==> lo <= hours[i].humidity.value <= hi
    ensures Times(lo, CountOf(hours)) <= SumOf(hours) <= Times(hi, CountOf(hours))
  {
    if hours != [] {
      var front := hours[..|hours| - 1];
      assert forall i :: 0 <= i < |front| ==> front[i] == hours[i];
      SumWithin(front, lo, hi);
    }
  }

  /** A total between `lo * c` and `hi * c`, divided by a positive `c`, lies between `lo` and `hi`. */
  lemma MeanWithin(total: real, c: real, lo: real, hi: real)
    requires c > 0.0 && lo * c <= total <= hi * c
    ensures lo <= total / c <= hi
  {
    var m := total / c;
    assert m * c == total;
    assert (m - lo) * c >= 0.0;
    assert (hi - m) * c >= 0.0;
  }

  /**
   * A day built from hourly data is null exactly when no hour carries a
   * humidity; otherwise its average lies between the lowest and the
   * highest humidity bound of its hours.
   */
  lemma DayAverageWithin(d: Day, lo: real, hi: real)
    requires d.hours != []
    requires forall i :: 0 <= i < |d.hours| && d.hours[i].humidity.Some? ==> lo <= d.hours[i].humidity.value <= hi
    ensures DayAverage(d).None? <==> forall i :: 0 <= i < |d.hours| ==> d.hours[i].humidity.None?
    ensures DayAverage(d).Some? ==> lo <= DayAverage(d).value <= hi
  {
    CountOfZero(d.hours);
    if CountOf(d.hours) > 0 {
      SumWithin(d.hours, lo, hi);
      TimesIsProduct(lo, CountOf(d.hours));
      TimesIsProduct(hi, CountOf(d.hours));
      MeanWithin(SumOf(d.hours), CountOf(d.hours) as real, lo, hi);
    }
  }

  /** One entry per input date, and no other. */
  lemma {:induction false} DailyHumidityKeys(days: seq<Day>)
    ensures DailyHumidity(days).Keys == set i | 0 <= i < |days| :: days[i].date
  {
    if days != [] {
      var front := days[..|days| - 1];
      DailyHumidityKeys(front);
      assert forall i :: 0 <= i < |front| ==> front[i] == days[i];
      assert (set i | 0 <= i < |days| :: days[i].date) == (set i | 0 <= i < |front| :: front[i].date) + {days[|days| - 1].date};
    }
  }

  /** The entry for a date is the average of the LAST day with that date. */
  lemma {:induction false} DailyHumidityLastWins(days: seq<Day>, i: nat)
    requires i < |days|
    requires forall j :: i < j < |days| ==> days[j].date != days[i].date
    ensures days[i].date in DailyHumidity(days) && DailyHumidity(days)[days[i].date] == DayAverage(days[i])
  {
    if i < |days| - 1 {
      var front := days[..|days| - 1];
      assert forall j :: 0 <= j < |front| ==> front[j] == days[j];
      DailyHumidityLastWins(front, i);
    }
  }

  /** What the WeatherAPI call gives: a status with `forecast.forecastday` when the body has it, or an exception. */
  datatype WeatherResponse = WeatherReply(status: int, forecastDays: Option<seq<Day>>) | WeatherThrown

  /** Why `getForecast` throws. */
  datatype WeatherError = ApiError(status: int) | InvalidFormat | Transport

  /** The processed forecast `getForecast` returns and caches (without its timestamp). */
  datatype Forecast = Forecast(city: string, days: int, forecast: seq<Day>, dailyHumidity: map<string, Option<real>>)

  const KeyPrefix := "weather_forecast_"
  const KeySuffix := "_days"

  /** `"weather_forecast_{$city}_{$days}_days"`. */
  function CacheKey(city: string, days: int): string {
    KeyPrefix + city + "_" + IntToString(days) + KeySuffix
  }

  /** Reads a cache key back: the city is everything up to the last `_` before the day count. */
  function ParseKey(k: string): Option<(string, int)> {
    if |k| < |KeyPrefix| + |KeySuffix| || k[..|KeyPrefix|] != KeyPrefix || k[|k| - |KeySuffix|..] != KeySuffix then None
    else
      var mid := k[|KeyPrefix|..|k| - |KeySuffix|];
      match LastIndexOf(mid, '_')
      case None => None
      case Some(i) =>
        match ParseIntString(mid[i + 1..])
        case None => None
        case Some(d) => Some((mid[..i], d))
  }

  /** A cache key determines the city and the day count it was built from. */
  lemma CacheKeyRoundTrip(city: string, days: int)
    ensures ParseKey(CacheKey(city, days)) == Some((city, days))
  {
    var k := CacheKey(city, days);
    var s := IntToString(days);
    var mid := city + "_" + s;
    assert k == KeyPrefix + mid + KeySuffix;
    assert k[..|KeyPrefix|] == KeyPrefix;
    assert k[|k| - |KeySuffix|..] == KeySuffix;
    assert k[|KeyPrefix|..|k| - |KeySuffix|] == mid;
    var i := LastIndexOf(mid, '_').value;
    assert mid[|city|] == '_';
    assert mid[|city| + 1..] == s;
    assert i == |city|;
    assert mid[..i] == city;
    IntToStringRoundTrip(days);
  }

  /** Two lookups share a cache entry only when they ask for the same city and the same clamped day count. */
  lemma CacheKeyInjective(c1: string, d1: int, c2: string, d2: int)
    requires CacheKey(c1, d1) == CacheKey(c2, d2)
    ensures c1 == c2 && d1 == d2
  {
    CacheKeyRoundTrip(c1, d1);
    CacheKeyRoundTrip(c2, d2);
  }

  /**
   * The forecast value in a benchmark, for the `days` unit: double quotes
   * trimmed from both ends, then for a range such as "6-12" the piece after
   * the first dash (whitespace-trimmed), otherwise the whole value, read
   * with `intval`.
   */
  function ForecastDaysOf(value: string): (r: int)
    ensures r >= 0
  {
    DaysOfClean(Trim(value, {'"'}))
  }

  /** The day count of a value whose quotes are already trimmed. */
  function DaysOfClean(clean: string): (r: int)
    ensures r >= 0
  {
    if '-' in clean then
      var range := Explode('-', clean);
      IntVal(Trim(range[1], TrimDefault))
    else IntVal(clean)
  }

  /** A string of digits reads as the number it denotes. */
  lemma IntValOfDigits(ds: string)
    requires ds != [] && forall i :: 0 <= i < |ds| ==> IsDigit(ds[i])
    ensures IntVal(ds) == DigitsValue(ds)
  {
    TrimLeftKeeps(ds, NumericSpace);
    UnsignedOfDigits(ds);
  }

  /** The numeric prefix of a string of digits is all of it. */
  lemma UnsignedOfDigits(ds: string)
    requires ds != [] && forall i :: 0 <= i < |ds| ==> IsDigit(ds[i])
    ensures UnsignedPrefixValue(ds) == DigitsValue(ds)
  {
    var n := DigitRun(ds);
    assert n == |ds|;
    assert ds[n..] == [] && ds[..n] == ds;
  }

  /** Left trimming stops at once when the first character is not trimmed. */
  lemma TrimLeftKeeps(s: string, cs: set<char>)
    requires s != [] && s[0] !in cs
    ensures TrimLeft(s, cs) == s
  {
  }

  /** A string that neither starts nor ends with a character of `cs` is left alone by trimming. */
  lemma TrimKeeps(s: string, cs: set<char>)
    requires s != [] && s[0] !in cs && s[|s| - 1] !in cs
    ensures Trim(s, cs) == s
  {
    assert TrimLeft(s, cs) == s;
    assert TrimRight(s, cs) == s;
  }

  /** Splitting `a-b` on the dash, when neither side has one, gives the two sides. */
  lemma ExplodeTwo(a: string, b: string)
    requires '-' !in a && '-' !in b
    ensures Explode('-', a + "-" + b) == [a, b]
  {
    var s := a + "-" + b;
    assert s[|a|] == '-';
    assert s[..|a|] == a;
    assert s[|a| + 1..] == b;
    assert IndexOf(s, '-').value == |a|;
  }

  /** A dashed value with no quotes around it reads as the part after its first dash. */
  lemma DashedTakesSecond(v: string, upper: string)
    requires '-' in v && v[0] != '"' && v[|v| - 1] != '"'
    requires Explode('-', v)[1] == upper
    ensures ForecastDaysOf(v) == IntVal(Trim(upper, TrimDefault))
  {
    TrimKeeps(v, {'"'});
  }

  /** Decimal renderings hold no dash. */
  lemma DigitsHaveNoDash(ds: string)
    requires forall i :: 0 <= i < |ds| ==> IsDigit(ds[i])
    ensures '-' !in ds
  {
    assert forall i :: 0 <= i < |ds| ==> ds[i] != '-';
  }

  /** A string of digits, trimmed of blanks, still reads as the number it denotes. */
  lemma TrimmedDigitsValue(ds: string)
    requires ds != [] && forall i :: 0 <= i < |ds| ==> IsDigit(ds[i])
    ensures IntVal(Trim(ds, TrimDefault)) == DigitsValue(ds)
  {
    DigitsTrimKeep(ds);
    IntValOfDigits(ds);
  }

  /** Digits are not blanks, so trimming blanks leaves a string of digits alone. */
  lemma DigitsTrimKeep(ds: string)
    requires ds != [] && forall i :: 0 <= i < |ds| ==> IsDigit(ds[i])
    ensures Trim(ds, TrimDefault) == ds
  {
    assert IsDigit(ds[0]) && IsDigit(ds[|ds| - 1]);
    TrimKeeps(ds, TrimDefault);
  }

  /** For a range `a-b` of day counts, the upper bound `b` is taken. */
  lemma RangeTakesUpperBound(a: nat, b: nat)
    ensures ForecastDaysOf(NatToString(a) + "-" + NatToString(b)) == b
  {
    var sa, sb := NatToString(a), NatToString(b);
    var v := sa + "-" + sb;
    assert IsDigit(v[0]) && IsDigit(v[|v| - 1]);
    assert v[|sa|] == '-';
    DigitsHaveNoDash(sa);
    DigitsHaveNoDash(sb);
    ExplodeTwo(sa, sb);
    DashedTakesSecond(v, sb);
    TrimmedDigitsValue(sb);
    NatToStringRoundTrip(b);
  }

  /** A range with nothing after its dash, such as "5-", reads as 0 days. */
  lemma TrailingDashGivesZero(a: nat)
    ensures ForecastDaysOf(NatToString(a) + "-") == 0
  {
    var sa := NatToString(a);
    var v := sa + "-";
    assert IsDigit(v[0]) && v[|sa|] == '-';
    DigitsHaveNoDash(sa);
    ExplodeTwo(sa, "");
    assert sa + "-" + "" == v;
    DashedTakesSecond(v, "");
  }

  /** Double quotes around a value that does not itself start or end with one are exactly what `trim($value, '"')` strips. */
  lemma QuotesTrimmed(v: string)
    requires v != [] && v[0] != '"' && v[|v| - 1] != '"'
    ensures Trim("\"" + v + "\"", {'"'}) == v
  {
    var q := "\"" + v + "\"";
    var cs := {'"'};
    assert q[0] == '"' && q[1] == v[0] && q[|q| - 1] == '"' && q[|q| - 2] == v[|v| - 1];
    assert LeadingIn(q, cs) == 1;
    var r := Trim(q, cs);
    assert |r| == |v|;
    assert forall i :: 0 <= i < |v| ==> r[i] == q[1 + i] == v[i];
  }

  /** A value in double quotes reads as the same value without them. */
  lemma QuotedReadsSame(v: string)
    requires v != [] && v[0] != '"' && v[|v| - 1] != '"'
    ensures ForecastDaysOf("\"" + v + "\"") == ForecastDaysOf(v)
  {
    QuotesTrimmed(v);
    TrimKeeps(v, {'"'});
  }

  /** A quoted range `"a-b"` reads as `b`, as the unquoted one does. */
  lemma QuotedRangeTakesUpperBound(a: nat, b: nat)
    ensures ForecastDaysOf("\"" + (NatToString(a) + "-" + NatToString(b)) + "\"") == b
  {
    var v := NatToString(a) + "-" + NatToString(b);
    assert IsDigit(v[0]) && IsDigit(v[|v| - 1]);
    QuotedReadsSame(v);
    RangeTakesUpperBound(a, b);
  }

  /** An unquoted value without a dash is read whole by `intval`. */
  lemma UndashedReadsWhole(v: string)
    requires v != [] && v[0] != '"' && v[|v| - 1] != '"' && '-' !in v
    ensures ForecastDaysOf(v) == IntVal(v)
  {
    TrimKeeps(v, {'"'});
  }

  /** A value without a dash, such as "7", reads as the number it spells. */
  lemma SingleReadsItself(a: nat)
    ensures ForecastDaysOf(NatToString(a)) == a
  {
    var s := NatToString(a);
    assert IsDigit(s[0]) && IsDigit(s[|s| - 1]);
    DigitsHaveNoDash(s);
    UndashedReadsWhole(s);
    IntValOfDigits(s);
    NatToStringRoundTrip(a);
  }

  /** The forecast cache is well formed for a maximum: every entry sits under its own key, within the maximum, with its humidity computed from its days. */
  ghost predicate CacheValid(cache: map<string, Forecast>, maxForecastDays: int) {
    forall k :: k in cache ==>
      && k == CacheKey(cache[k].city, cache[k].days)
      && cache[k].days <= maxForecastDays
      && cache[k].dailyHumidity == DailyHumidity(cache[k].forecast)
  }

  /** The service with its configured maximum and the forecast cache. */
  class WeatherService {
    const maxForecastDays: int
    var cache: map<string, Forecast>

    ghost predicate Valid()
      reads this
    {
      CacheValid(cache, maxForecastDays)
    }

    /**
     * A service with the configured maximum (5 by default) over the
     * application-wide cache, which may already hold the entries earlier
     * services wrote under the same maximum.
     */
    constructor (maxForecastDays: int, cache: map<string, Forecast>)
      requires CacheValid(cache, maxForecastDays)
      ensures Valid() && this.maxForecastDays == maxForecastDays && this.cache == cache
    {
      this.maxForecastDays := maxForecastDays;
      this.cache := cache;
    }

    /**
     * `determineForecastDays`: the maximum when the benchmark lacks a value
     * or a unit, or when its unit, lower-cased, is not "days"; otherwise
     * the value's day count, capped at the maximum.
     */
    function DetermineForecastDays(b: Benchmark): (r: int)
      ensures r <= maxForecastDays
      ensures maxForecastDays >= 0 ==> r >= 0
      ensures b.value.None? || b.unit.None? ==> r == maxForecastDays
      ensures b.unit.Some? && ToLower(b.unit.value) != "days" ==> r == maxForecastDays
    {
      if b.value.None? || b.unit.None? then maxForecastDays
      else if ToLower(b.unit.value) != "days" then maxForecastDays
      else Min(ForecastDaysOf(b.value.value), maxForecastDays)
    }

    /** A "days" benchmark holding a range `a-b` asks for `b` days, capped at the maximum; the unit's case does not matter. */
    lemma DetermineRange(a: nat, b: nat, unit: string)
      requires ToLower(unit) == "days"
      ensures DetermineForecastDays(Benchmark(Some(NatToString(a) + "-" + NatToString(b)), Some(unit))) == Min(b, maxForecastDays)
    {
      RangeTakesUpperBound(a, b);
    }

    /** A "days" benchmark holding a single count `a` asks for `a` days, capped at the maximum. */
    lemma DetermineSingle(a: nat, unit: string)
      requires ToLower(unit) == "days"
      ensures DetermineForecastDays(Benchmark(Some(NatToString(a)), Some(unit))) == Min(a, maxForecastDays)
    {
      SingleReadsItself(a);
    }

    /** A quoted range such as "\"6-12\"" is read as the range without its quotes. */
    lemma DetermineQuotedRange(a: nat, b: nat, unit: string)
      requires ToLower(unit) == "days"
      ensures DetermineForecastDays(Benchmark(Some("\"" + (NatToString(a) + "-" + NatToString(b)) + "\""), Some(unit))) == Min(b, maxForecastDays)
    {
      QuotedRangeTakesUpperBound(a, b);
    }

    /** `calculateDailyAverageHumidity`: a pass over the days, with an inner pass summing and counting the hourly humidities. */
    method CalculateDailyAverageHumidity(forecastData: seq<Day>) returns (daily: map<string, Option<real>>)
      ensures daily == DailyHumidity(forecastData)
    {
      daily := map[];
      var k := 0;
      while k < |forecastData|
        invariant 0 <= k <= |forecastData|
        invariant daily == DailyHumidity(forecastData[..k])
      {
        var day := forecastData[k];
        assert forecastData[..k + 1][..k] == forecastData[..k];
        if day.hours == [] {
          daily := daily[day.date := day.avgHumidity];
        } else {
          var totalHumidity := 0.0;
          var validHours := 0;
          var j := 0;
          while j < |day.hours|
            invariant 0 <= j <= |day.hours|
            invariant totalHumidity == SumOf(day.hours[..j]) && validHours == CountOf(day.hours[..j])
          {
            assert day.hours[..j + 1][..j] == day.hours[..j];
            if day.hours[j].humidity.Some? {
              totalHumidity := totalHumidity + day.hours[j].humidity.value;
              validHours := validHours + 1;
            }
            j := j + 1;
          }
          assert day.hours[..j] == day.hours;
          daily := daily[day.date := if validHours > 0 then Some(totalHumidity / validHours as real) else None];
        }
        k := k + 1;
      }
      assert forecastData[..k] == forecastData;
    }

    /**
     * `getForecast($city, $days)`: clamp the day count to the maximum and
     * look the key up. A hit returns the cached forecast and calls nothing.
     * On a miss the API is called: an exception, a non-2xx status or a body
     * without `forecast.forecastday` fails and caches nothing; otherwise
     * the processed forecast is cached under the key and returned.
     */
    method GetForecast(city: string, days: int, fetch: (string, int) -> WeatherResponse)
        returns (r: Result<Forecast, WeatherError>)
      requires Valid()
      modifies this
      ensures Valid()
      ensures var d := Min(days, maxForecastDays);
              var key := CacheKey(city, d);
              if key in old(cache) then r == Success(old(cache)[key]) && cache == old(cache)
              else
                && (r.Failure? <==> !(fetch(city, d).WeatherReply? && Successful(fetch(city, d).status)
                                      && fetch(city, d).forecastDays.Some?))
                && (fetch(city, d).WeatherThrown? ==> r == Failure(Transport))
                && (fetch(city, d).WeatherReply? && !Successful(fetch(city, d).status) ==>
                      r == Failure(ApiError(fetch(city, d).status)))
                && (r.Success? ==> r.value.forecast == fetch(city, d).forecastDays.value)
                && cache == (if r.Success? then old(cache)[key := r.value] else old(cache))
      ensures r.Success? ==>
                && r.value.city == city && r.value.days == Min(days, maxForecastDays)
                && r.value.dailyHumidity == DailyHumidity(r.value.forecast)
    {
      var d := Min(days, maxForecastDays);
      var key := CacheKey(city, d);
      if key in cache {
        r := Success(cache[key]);
        CacheKeyInjective(city, d, cache[key].city, cache[key].days);
        return;
      }
      var response := fetch(city, d);
      match response {
        case WeatherThrown =>
          r := Failure(Transport);
        case WeatherReply(status, forecastDays) =>
          if !Successful(status) {
            r := Failure(ApiError(status));
          } else if forecastDays.None? {
            r := Failure(InvalidFormat);
          } else {
            var daily := CalculateDailyAverageHumidity(forecastDays.value);
            var processed := Forecast(city, d, forecastDays.value, daily);
            cache := cache[key := processed];
            r := Success(processed);
          }
      }
    }
  }
}
