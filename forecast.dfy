/**
  The forecast window extractor (`extract_forecast_temps`). The weather data
  is the two parallel arrays of the hourly response: `times`, the hour slot of
  each reading, and `temps`, its temperature.
 */
module Forecast {
  import opened Wrappers
  import opened Clock

  /**
    What the extractor yields: the ordered temperatures, or, in day mode, the
    failure raised when a present hour's first index in `times` has no
    temperature beside it (`temps` shorter than `times`).
   */
  datatype Extracted = Window(temps: seq<real>) | TemperatureMissing(slot: int)

  /** `times.index(t)`: the first position of `t`, or None when `t` is absent. */
  function FirstIndex(times: seq<int>, t: int): (r: Option<nat>)
    ensures r.None? <==> t !in times
    ensures r.Some? ==> r.value < |times| && times[r.value] == t
    ensures r.Some? ==> forall j :: 0 <= j < r.value ==> times[j] != t
  {
    if t !in times then None
    else
      FirstMatchExists(times, t, |times|);
      var i :| IsFirstMatch(times, t, i);
      Some(i)
  }

  /** Position `i` holds `t` and no earlier position does. */
  predicate IsFirstMatch(times: seq<int>, t: int, i: nat)
  {
    i < |times| && times[i] == t && forall j :: 0 <= j < i ==> times[j] != t
  }

  lemma {:induction false} FirstMatchExists(times: seq<int>, t: int, n: nat)
    requires n <= |times| && t in times[..n]
    ensures exists i :: IsFirstMatch(times, t, i)
    decreases n
  {
    if t in times[..n - 1] {
      FirstMatchExists(times, t, n - 1);
    } else {
      assert times[..n] == times[..n - 1] + [times[n - 1]];
      assert IsFirstMatch(times, t, n - 1);
    }
  }

  /** A position holding a value not seen earlier is that value's first index. */
  lemma FirstIndexAt(times: seq<int>, j: nat)
    requires j < |times|
    requires forall i :: 0 <= i < j ==> times[i] != times[j]
    ensures FirstIndex(times, times[j]) == Some(j)
  {
  }

  /**
    Day mode after `k` iterations of the lookup loop: the hours
    `base`, ..., `base + k - 1` are looked up in order, an absent hour is
    skipped, and a present one contributes the temperature at its first index.
   */
  function DayWindow(times: seq<int>, temps: seq<real>, base: int, k: nat): (r: Extracted)
    ensures r.Window? ==> |r.temps| <= k
    ensures r.TemperatureMissing? ==> base <= r.slot < base + k
    decreases k
  {
    if k == 0 then Window([])
    else
      match DayWindow(times, temps, base, k - 1)
      case TemperatureMissing(s) => TemperatureMissing(s)
      case Window(w) =>
        match FirstIndex(times, base + k - 1)
        case None => Window(w)
        case Some(i) =>
          if i < |temps| then Window(w + [temps[i]]) else TemperatureMissing(base + k - 1)
  }

  /**
    Night mode after the first `n` pairs of `zip(times, temps)`: the
    temperatures whose hour lies in the closed interval [lo, hi], in input order.
   */
  function NightWindow(times: seq<int>, temps: seq<real>, lo: int, hi: int, n: nat): (w: seq<real>)
    requires n <= |times| && n <= |temps|
    ensures |w| <= n
  {
    if n == 0 then []
    else
      NightWindow(times, temps, lo, hi, n - 1)
        + (if lo <= times[n - 1] <= hi then [temps[n - 1]] else [])
  }

  function Min(a: int, b: int): int
  {
    if a < b then a else b
  }

  /** The number of hours `range(horizon)` runs over: `horizon`, or none when it is not positive. */
  function HorizonCount(horizon: int): nat
  {
    if horizon > 0 then horizon else 0
  }

  /** The whole extractor as a function of its inputs. */
  function ForecastWindow(times: seq<int>, temps: seq<real>, now: Instant, horizon: int): (r: Extracted)
    ensures r.TemperatureMissing? ==> IsDayMode(now)
    ensures IsDayMode(now) && r.Window? ==> |r.temps| <= HorizonCount(horizon)
    ensures !IsDayMode(now) ==> |r.temps| <= |times| && |r.temps| <= |temps|
  {
    var base := RoundUpToHour(now);
    if IsDayMode(now) then
      DayWindow(times, temps, base, HorizonCount(horizon))
    else
      Window(NightWindow(times, temps, base, NightEnd(base), Min(|times|, |temps|)))
  }

  /** `extract_forecast_temps`: round `now` up, then run the loop of the mode that `now` falls in. */
  method ExtractForecastTemps(times: seq<int>, temps: seq<real>, now: Instant, horizon: int)
    returns (r: Extracted)
    ensures r == ForecastWindow(times, temps, now, horizon)
  {
    var base := now.slot;
    if now.minute > 0 {
      base := base + 1;
    }
    if HourOfDay(now.slot) < NightStartHour {
      r := CollectDayWindow(times, temps, base, HorizonCount(horizon));
    } else {
      var end := Day(base + 24) * 24 + NightEndHour;
      var forecast := CollectNightWindow(times, temps, base, end);
      r := Window(forecast);
    }
  }

  /** The day-mode loop over `range(horizon_hours)`. */
  method CollectDayWindow(times: seq<int>, temps: seq<real>, base: int, count: nat)
    returns (r: Extracted)
    ensures r == DayWindow(times, temps, base, count)
  {
    var forecast: seq<real> := [];
    var i := 0;
    while i < count
      invariant 0 <= i <= count
      invariant DayWindow(times, temps, base, i) == Window(forecast)
    {
      var t := base + i;
      if t in times {
        var idx := FirstIndex(times, t).value;
        if idx >= |temps| {
          DayWindowMissingPersists(times, temps, base, i + 1, count);
          return TemperatureMissing(t);
        }
        forecast := forecast + [temps[idx]];
      }
      i := i + 1;
    }
    r := Window(forecast);
  }

  /** The night-mode loop over `zip(times, temps)`. */
  method CollectNightWindow(times: seq<int>, temps: seq<real>, lo: int, hi: int)
    returns (forecast: seq<real>)
    ensures forecast == NightWindow(times, temps, lo, hi, Min(|times|, |temps|))
  {
    forecast := [];
    var n := Min(|times|, |temps|);
    var i := 0;
    while i < n
      invariant 0 <= i <= n
      invariant forecast == NightWindow(times, temps, lo, hi, i)
    {
      if lo <= times[i] <= hi {
        forecast := forecast + [temps[i]];
      }
      i := i + 1;
    }
  }

  /** Once a lookup has failed, the later iterations are never reached: the failure is final. */
  lemma {:induction false} DayWindowMissingPersists(times: seq<int>, temps: seq<real>, base: int, k: nat, k': nat)
    requires k <= k'
    requires DayWindow(times, temps, base, k).TemperatureMissing?
    ensures DayWindow(times, temps, base, k') == DayWindow(times, temps, base, k)
    decreases k' - k
  {
    if k < k' {
      DayWindowMissingPersists(times, temps, base, k, k' - 1);
    }
  }

  /** The hours among `base`, ..., `base + k - 1` that occur in `times`, in increasing order. */
  function PresentSlots(times: seq<int>, base: int, k: nat): (s: seq<int>)
    ensures |s| <= k
    ensures forall j :: 0 <= j < |s| ==> base <= s[j] < base + k && s[j] in times
    ensures forall j, j' :: 0 <= j < j' < |s| ==> s[j] < s[j']
    ensures forall t :: base <= t < base + k && t in times ==> t in s
    decreases k
  {
    if k == 0 then []
    else PresentSlots(times, base, k - 1) + (if base + k - 1 in times then [base + k - 1] else [])
  }

  /**
    A day window that succeeds holds, for each present hour of the horizon in
    increasing order, the temperature at that hour's first index.
   */
  lemma {:induction false} DayWindowSelectsPresentSlots(times: seq<int>, temps: seq<real>, base: int, k: nat)
    ensures DayWindow(times, temps, base, k).Window? ==>
      var w := DayWindow(times, temps, base, k).temps;
      var s := PresentSlots(times, base, k);
      |w| == |s| &&
      forall j :: 0 <= j < |s| ==>
        FirstIndex(times, s[j]).value < |temps| && w[j] == temps[FirstIndex(times, s[j]).value]
  {
    if k > 0 {
      DayWindowSelectsPresentSlots(times, temps, base, k - 1);
    }
  }

  /**
    A day window fails exactly on the first hour of the horizon whose first
    index in `times` is past the end of `temps`; with no such hour it succeeds.
   */
  lemma {:induction false} DayWindowMissingSlot(times: seq<int>, temps: seq<real>, base: int, k: nat)
    ensures DayWindow(times, temps, base, k).TemperatureMissing? ==>
      var t := DayWindow(times, temps, base, k).slot;
      base <= t < base + k && t in times && FirstIndex(times, t).value >= |temps| &&
      forall t' :: base <= t' < t && t' in times ==> FirstIndex(times, t').value < |temps|
    ensures (forall t :: base <= t < base + k && t in times ==> FirstIndex(times, t).value < |temps|) ==>
      DayWindow(times, temps, base, k).Window?
  {
    if k > 0 {
      DayWindowMissingSlot(times, temps, base, k - 1);
      if DayWindow(times, temps, base, k - 1).Window? {
        forall t' | base <= t' < base + k - 1 && t' in times
          ensures FirstIndex(times, t').value < |temps|
        {
          DayWindowSelectsPresentSlots(times, temps, base, k - 1);
          var s := PresentSlots(times, base, k - 1);
          assert t' in s;
        }
      }
    }
  }

  /** When every reading has a temperature (the weather service's parallel arrays), day mode never fails. */
  lemma DayWindowAligned(times: seq<int>, temps: seq<real>, base: int, k: nat)
    requires |times| <= |temps|
    ensures DayWindow(times, temps, base, k).Window?
    ensures |DayWindow(times, temps, base, k).temps| <= k
  {
    DayWindowMissingSlot(times, temps, base, k);
    DayWindowSelectsPresentSlots(times, temps, base, k);
  }

  /** With every hour of the horizon present, the present hours are the whole horizon. */
  lemma {:induction false} PresentSlotsFull(times: seq<int>, base: int, k: nat)
    requires forall t :: base <= t < base + k ==> t in times
    ensures |PresentSlots(times, base, k)| == k
    ensures forall j :: 0 <= j < k ==> PresentSlots(times, base, k)[j] == base + j
  {
    if k > 0 {
      PresentSlotsFull(times, base, k - 1);
      assert base + k - 1 in times;
    }
  }

  /**
    With every hour of the horizon present and aligned arrays, the day window
    has exactly `k` temperatures, the i-th being the one at hour `base + i`.
   */
  lemma DayWindowFullCoverage(times: seq<int>, temps: seq<real>, base: int, k: nat)
    requires |times| <= |temps|
    requires forall t :: base <= t < base + k ==> t in times
    ensures DayWindow(times, temps, base, k).Window?
    ensures |DayWindow(times, temps, base, k).temps| == k
    ensures forall i :: 0 <= i < k ==>
      DayWindow(times, temps, base, k).temps[i] == temps[FirstIndex(times, base + i).value]
  {
    DayWindowAligned(times, temps, base, k);
    DayWindowSelectsPresentSlots(times, temps, base, k);
    PresentSlotsFull(times, base, k);
  }

  /** The positions among the first `n` whose hour lies in [lo, hi], in increasing order. */
  function InRangeIndices(times: seq<int>, lo: int, hi: int, n: nat): (idx: seq<nat>)
    requires n <= |times|
    ensures |idx| <= n
    decreases n
  {
    if n == 0 then []
    else InRangeIndices(times, lo, hi, n - 1) + (if lo <= times[n - 1] <= hi then [n - 1] else [])
  }

  /**
    `idx` lists, in strictly increasing order, exactly the positions below `n`
    whose hour lies in [lo, hi].
   */
  predicate EnumeratesInRange(idx: seq<nat>, times: seq<int>, lo: int, hi: int, n: nat)
    requires n <= |times|
  {
    (forall j :: 0 <= j < |idx| ==> idx[j] < n && lo <= times[idx[j]] <= hi) &&
    (forall j, j' :: 0 <= j < j' < |idx| ==> idx[j] < idx[j']) &&
    (forall i :: 0 <= i < n && lo <= times[i] <= hi ==> i in idx)
  }

  lemma {:induction false} InRangeIndicesEnumerates(times: seq<int>, lo: int, hi: int, n: nat)
    requires n <= |times|
    ensures EnumeratesInRange(InRangeIndices(times, lo, hi, n), times, lo, hi, n)
  {
    if n > 0 {
      InRangeIndicesEnumerates(times, lo, hi, n - 1);
    }
  }

  /** `w` picks out of `temps` the values at positions `idx`, one for one. */
  predicate PicksAt(w: seq<real>, temps: seq<real>, idx: seq<nat>)
  {
    |w| == |idx| && forall j :: 0 <= j < |idx| ==> idx[j] < |temps| && w[j] == temps[idx[j]]
  }

  lemma PicksAtExtend(w: seq<real>, temps: seq<real>, idx: seq<nat>, x: nat)
    requires PicksAt(w, temps, idx)
    requires x < |temps|
    ensures PicksAt(w + [temps[x]], temps, idx + [x])
  {
    var w', idx' := w + [temps[x]], idx + [x];
    forall j | 0 <= j < |idx'| ensures idx'[j] < |temps| && w'[j] == temps[idx'[j]] {
      if j < |idx| {
        assert w'[j] == w[j] && idx'[j] == idx[j];
      }
    }
  }

  /**
    The night window is exactly the readings whose hour lies in [lo, hi],
    both ends included, in input order.
   */
  lemma {:induction false} NightWindowSelects(times: seq<int>, temps: seq<real>, lo: int, hi: int, n: nat)
    requires n <= |times| && n <= |temps|
    ensures PicksAt(NightWindow(times, temps, lo, hi, n), temps, InRangeIndices(times, lo, hi, n))
  {
    if n > 0 {
      NightWindowSelects(times, temps, lo, hi, n - 1);
      var w, idx := NightWindow(times, temps, lo, hi, n - 1), InRangeIndices(times, lo, hi, n - 1);
      if lo <= times[n - 1] <= hi {
        PicksAtExtend(w, temps, idx, n - 1);
        assert NightWindow(times, temps, lo, hi, n) == w + [temps[n - 1]];
        assert InRangeIndices(times, lo, hi, n) == idx + [n - 1];
      } else {
        assert NightWindow(times, temps, lo, hi, n) == w;
        assert InRangeIndices(times, lo, hi, n) == idx;
      }
    }
  }

  /** Readings before the window's start contribute nothing. */
  lemma {:induction false} NightWindowNothingBefore(times: seq<int>, temps: seq<real>, lo: int, hi: int, m: nat)
    requires m <= |times| && m <= |temps|
    requires forall i :: 0 <= i < m ==> times[i] < lo
    ensures NightWindow(times, temps, lo, hi, m) == []
  {
    if m > 0 {
      NightWindowNothingBefore(times, temps, lo, hi, m - 1);
    }
  }

  /**
    When the first `m` readings are before `lo` and the rest up to `n` are in
    range, the night window is exactly the temperatures from position `m` to `n`.
   */
  lemma {:induction false} NightWindowSuffixInRange(times: seq<int>, temps: seq<real>, lo: int, hi: int, m: nat, n: nat)
    requires m <= n <= |times| && n <= |temps|
    requires forall i :: 0 <= i < m ==> times[i] < lo
    requires forall i :: m <= i < n ==> lo <= times[i] <= hi
    ensures NightWindow(times, temps, lo, hi, n) == temps[m..n]
    decreases n
  {
    if n == m {
      NightWindowNothingBefore(times, temps, lo, hi, m);
    } else {
      NightWindowSuffixInRange(times, temps, lo, hi, m, n - 1);
      assert temps[m..n] == temps[m..n - 1] + [temps[n - 1]];
    }
  }

  /**
    Night mode never fails, and keeps exactly the readings of the zipped
    arrays whose hour lies between `base` and `end`, both included.
   */
  lemma ForecastNightWindow(times: seq<int>, temps: seq<real>, now: Instant, horizon: int)
    requires !IsDayMode(now)
    ensures ForecastWindow(times, temps, now, horizon).Window?
    ensures var base := RoundUpToHour(now);
      var n := Min(|times|, |temps|);
      var idx := InRangeIndices(times, base, NightEnd(base), n);
      EnumeratesInRange(idx, times, base, NightEnd(base), n) &&
      PicksAt(ForecastWindow(times, temps, now, horizon).temps, temps, idx)
  {
    var base := RoundUpToHour(now);
    NightWindowSelects(times, temps, base, NightEnd(base), Min(|times|, |temps|));
    InRangeIndicesEnumerates(times, base, NightEnd(base), Min(|times|, |temps|));
  }

  /** A present hour with a temperature extends a successful day window by that temperature. */
  lemma DayWindowFoundStep(times: seq<int>, temps: seq<real>, base: int, k: nat, w: seq<real>, x: nat)
    requires k > 0
    requires DayWindow(times, temps, base, k - 1) == Window(w)
    requires FirstIndex(times, base + k - 1) == Some(x) && x < |temps|
    ensures DayWindow(times, temps, base, k) == Window(w + [temps[x]])
  {
  }

  /** In day mode the extractor is the day window from the rounded hour, over `max(horizon, 0)` hours. */
  lemma ForecastDayWindow(times: seq<int>, temps: seq<real>, now: Instant, horizon: int, k: nat)
    requires IsDayMode(now)
    requires k == HorizonCount(horizon)
    ensures ForecastWindow(times, temps, now, horizon) == DayWindow(times, temps, RoundUpToHour(now), k)
  {
  }

  /** 10:15 with readings from 10:00 to 14:00 and a three-hour horizon: the 11, 12 and 13 o'clock values. */
  lemma ExtractDayScenario(times: seq<int>, start: int)
    requires HourOfDay(start) == 10
    requires times == [start, start + 1, start + 2, start + 3, start + 4]
    ensures ForecastWindow(times, [10.0, 12.0, 16.0, 17.0, 18.0], Instant(start, 15, 0), 3)
      == Window([12.0, 16.0, 17.0])
  {
    var temps := [10.0, 12.0, 16.0, 17.0, 18.0];
    var base := start + 1;
    ForecastDayWindow(times, temps, Instant(start, 15, 0), 3, 3);
    assert RoundUpToHour(Instant(start, 15, 0)) == base;
    FirstIndexAt(times, 1);
    DayWindowFoundStep(times, temps, base, 1, [], 1);
    FirstIndexAt(times, 2);
    DayWindowFoundStep(times, temps, base, 2, [12.0], 2);
    FirstIndexAt(times, 3);
    DayWindowFoundStep(times, temps, base, 3, [12.0, 16.0], 3);
  }

  /** In night mode the extractor is the night filter from the rounded hour to `NightEnd`, over the zipped arrays. */
  lemma ForecastNightMode(times: seq<int>, temps: seq<real>, now: Instant, horizon: int, lo: int, n: nat)
    requires !IsDayMode(now)
    requires lo == RoundUpToHour(now) && n == Min(|times|, |temps|)
    ensures ForecastWindow(times, temps, now, horizon) == Window(NightWindow(times, temps, lo, NightEnd(lo), n))
  {
  }

  /** 23:30 with readings from 23:00 to 06:00 the next day: every value from 00:00 on. */
  lemma ExtractNightScenario(times: seq<int>, start: int)
    requires HourOfDay(start) == 23
    requires times == [start, start + 1, start + 2, start + 3, start + 4, start + 5, start + 6, start + 7]
    ensures ForecastWindow(times, [20.0, 20.0, 20.0, 20.0, 20.0, 20.0, 20.0, 20.0], Instant(start, 30, 0), 3)
      == Window([20.0, 20.0, 20.0, 20.0, 20.0, 20.0, 20.0])
  {
    var temps := [20.0, 20.0, 20.0, 20.0, 20.0, 20.0, 20.0, 20.0];
    var now := Instant(start, 30, 0);
    NightWindowBounds(now);
    ForecastNightMode(times, temps, now, 3, start + 1, 8);
    NightWindowSuffixInRange(times, temps, start + 1, start + 31, 1, 8);
    assert temps[1..8] == [20.0, 20.0, 20.0, 20.0, 20.0, 20.0, 20.0];
  }
}
