# Plant hardening notifier — Dafny model

A model of the decision core of `plant_hardening_notifier.py`, a script that
cron runs every 30 minutes. Each run reads an hourly temperature forecast,
decides whether the plants being hardened off should move inside or outside,
and sends a push notification when the decision changes. The model covers:

- **The forecast window extractor** (`extract_forecast_temps`), module
  `Forecast`. `now` is rounded up to the next full hour; only the minute
  counts. Before 23:00 (day mode) the extractor looks up the
  `horizon_hours` consecutive hours starting at that rounded hour. It skips
  absent hours and takes the first match of each present one. From 23:00 to
  23:59 (night mode) it keeps every reading whose hour lies in the closed
  interval from the rounded hour to 06:00 of the following calendar day.
  The imperative loops are methods proved equal to recursive specification
  functions. Lemmas about those functions characterise the result: which
  hours it selects, in what order, and when it fails.
- **The transition decider** (`decide_action`), module `Decision`. This is a
  pure function over the statuses inside and outside, with the threshold
  15.0 °C and strict comparisons. Any other stored status passes through
  unchanged.
- **One run of `main`**, module `Notifier`. The status file is a small class
  holding one optional record. The weather response and `now` are inputs.
  The record is overwritten only when the decider produced a message.
- Time, module `Clock`. An instant is the absolute hour slot it falls in,
  plus its minute and second. The day is `slot / 24` and the hour of day is
  `slot % 24`. This is naive wall-clock time, as in the source.

Weather data is the two parallel arrays of the hourly response: `times`, the
hour slot of each reading, and `temps`, its temperature as a `real`.

Points where the model follows the code rather than its documentation:

- **Night window end.** The code computes `end` as 06:00 on the day after
  `base`'s date (line 81). At 23:00 exactly, the window is 23:00–06:00 the
  next morning. At 23:01–23:59, `base` has already rolled over to 00:00 of
  the next day, so the window runs until 06:00 the day after that: 31 hourly
  slots, not the "until 06:00 next day" of the docstring. `NightWindowBounds`
  states both cases. The test at tests/test_notifier.py:43-54 only supplies
  data up to 06:00 of the next day, so it does not observe the difference.
- **Status values not recognised.** `load_status`'s docstring speaks only of
  "inside" or "outside". Line 29, however, returns whatever JSON value is
  stored under `status`. The model keeps a string other than "inside" and
  "outside" as `Unrecognised(name)` (type `OtherName`). The decider compares
  the value with both strings (lines 103-123), so it and `main` leave such a
  status alone forever (`RunIgnoresUnrecognisedRecord`). A value that is not
  a string at all, such as `null` or `3`, compares unequal to both strings
  too, so it behaves like an `Unrecognised` status; the model has no value of
  its own for it.
- **Short `temps` array.** In day mode the code indexes `temps` at the
  position found in `times` (line 78). When the first index of a looked-up
  hour is past the end of `temps` (possible only when `temps` is shorter than
  `times`), this raises `IndexError`, which aborts the run. The model returns
  `TemperatureMissing(slot)` for the first such hour. A run that hits it sends
  nothing and writes nothing. Night mode zips the two arrays, so it
  truncates silently instead.

## Model

| member | source | states |
|---|---|---|
| `Clock.RoundUpToHour` | plant_hardening_notifier.py:67-70 | `base` is the least whole hour not before `now` truncated to the minute; so `now` on the hour, whatever its seconds, gives its own hour, and any minute past it gives the next |
| `Clock.IsDayMode` | plant_hardening_notifier.py:72 | night mode is exactly the 23:00-23:59 hour (`now.hour < 23` fails only at hour 23) |
| `Clock.NightEnd` | plant_hardening_notifier.py:80-81 | `end` lies on the calendar day after `base`'s day, at 06:00 |
| `Clock.NightWindowBounds` | plant_hardening_notifier.py:67-81 | at 23:00 the night window is the 8 slots from 23:00 to 06:00 the next morning; at 23:01–23:59 it starts at the next midnight and ends 31 slots after `now`'s hour |
| `Forecast.FirstIndex` | plant_hardening_notifier.py:77-78 | `times.index(t)`: absent exactly when `t` is not in `times`; otherwise a position holding `t` with no earlier position holding it |
| `Forecast.FirstIndexAt` | plant_hardening_notifier.py:77-78 | a position whose value does not occur earlier is that value's first index |
| `Forecast.ExtractForecastTemps` | plant_hardening_notifier.py:55-87 | the extractor returns exactly the window function `ForecastWindow` of its inputs (rounded base, day loop before 23:00, night interval filter otherwise) |
| `Forecast.CollectDayWindow` | plant_hardening_notifier.py:72-78 | the day loop over `range(horizon_hours)` yields the day window, including an early failure on a missing temperature |
| `Forecast.DayWindow` | plant_hardening_notifier.py:72-78 | the day window after `k` hours of the loop: a successful result holds at most `k` temperatures, and a failure names one of the looked-up hours `base`..`base+k-1` |
| `Forecast.NightWindow` | plant_hardening_notifier.py:79-85 | the night filter over the first `n` zipped pairs: at most `n` temperatures |
| `Forecast.ForecastWindow` | plant_hardening_notifier.py:55-87 | the extractor as a function: only day mode can fail; a day window has at most `max(horizon_hours, 0)` values; a night window is no longer than either array |
| `Forecast.CollectNightWindow` | plant_hardening_notifier.py:79-85 | the night loop over the zipped arrays yields the night window over the shorter of the two lengths |
| `Forecast.DayWindowMissingPersists` | plant_hardening_notifier.py:74-78 | once a lookup fails, further hours do not change the outcome: the first failure is the result |
| `Forecast.PresentSlots` | plant_hardening_notifier.py:74-77 | the hours of the horizon that occur in `times`: strictly increasing, each inside the horizon and present, and every present horizon hour among them |
| `Forecast.DayWindowSelectsPresentSlots` | plant_hardening_notifier.py:72-78 | a successful day window has one temperature per present hour, in increasing hour order, each the temperature at that hour's first index; so it is never longer than the horizon |
| `Forecast.DayWindowMissingSlot` | plant_hardening_notifier.py:77-78 | a day window fails exactly at the first horizon hour whose first index is past the end of `temps`, and succeeds when there is none |
| `Forecast.DayWindowAligned` | plant_hardening_notifier.py:74-78 | with `temps` at least as long as `times`, day mode never fails and yields at most `horizon_hours` values |
| `Forecast.PresentSlotsFull` | plant_hardening_notifier.py:74-77 | when every hour of the horizon is present, the present hours are exactly `base`, ..., `base + k - 1` |
| `Forecast.DayWindowFullCoverage` | plant_hardening_notifier.py:72-78 | with every horizon hour present and aligned arrays, the window has exactly `horizon_hours` values, the i-th being the temperature at hour `base + i` |
| `Forecast.InRangeIndices` | plant_hardening_notifier.py:82-84 | the positions among the first `n` readings whose hour is kept by the night filter; at most `n` of them |
| `Forecast.InRangeIndicesEnumerates` | plant_hardening_notifier.py:82-84 | `InRangeIndices` enumerates the positions, among the zipped pairs, whose hour is in [lo, hi]: strictly increasing, each in range, and every in-range position among them |
| `Forecast.NightWindowSelects` | plant_hardening_notifier.py:82-85 | the night filter keeps exactly the temperatures at the in-range positions, both ends inclusive, in input order |
| `Forecast.NightWindowNothingBefore` | plant_hardening_notifier.py:82-85 | readings before the start of the window contribute nothing |
| `Forecast.NightWindowSuffixInRange` | plant_hardening_notifier.py:82-85 | when the first `m` readings are before the window and the rest are inside it, the night window is exactly the temperatures from position `m` on |
| `Forecast.ForecastNightWindow` | plant_hardening_notifier.py:79-85 | in night mode the extractor never fails and keeps exactly the readings between `base` and `end`, in order, truncated to the shorter array |
| `Forecast.ExtractDayScenario` | tests/test_notifier.py:32-40 | at 10:15 with readings at 10–14 o'clock and horizon 3, the window is the 11, 12 and 13 o'clock values (of the model; see "## Left out" on the test's key format) |
| `Forecast.ExtractNightScenario` | tests/test_notifier.py:43-54 | at 23:30 with readings from 23:00 to 06:00, the window is every value from 00:00 on |
| `Decision.AllAbove` | plant_hardening_notifier.py:103 | `all(t > THRESHOLD_C ...)`, true of the empty forecast, which is why the decider also asks for `forecast` to be non-empty |
| `Decision.AllBelow` | plant_hardening_notifier.py:109 | `all(t < THRESHOLD_C ...)`, true of the empty forecast |
| `Decision.DecideAction` | plant_hardening_notifier.py:90-129 | a message is produced exactly when the status changes; the only changes are inside to outside and outside to inside; an empty forecast or an unrecognised status gives the status back with no message |
| `Decision.DayModeTransitions` | plant_hardening_notifier.py:102-114 | before 23:00, inside goes outside iff the forecast is non-empty and every value is above 15.0; outside comes inside iff it is non-empty and every value is below 15.0; day messages carry the forecast length |
| `Decision.NightModeTransitions` | plant_hardening_notifier.py:116-128 | at 23:xx, inside goes outside iff the forecast is non-empty and every value is above 15.0; outside comes inside iff some value is at or below 15.0; only overnight messages are produced |
| `Decision.MessageMatchesStatus` | plant_hardening_notifier.py:103-128 | the outside messages go with a move to outside, the inside messages with a move to inside |
| `Decision.ThresholdBlocksDayTransitions` | plant_hardening_notifier.py:102-114 | in day mode a reading of exactly 15.0 blocks both transitions |
| `Decision.ThresholdBringsInsideAtNight` | plant_hardening_notifier.py:123-128 | at night a reading of exactly 15.0 is enough to bring outside plants inside |
| `Decision.DecideIdempotent` | plant_hardening_notifier.py:98-129 | deciding again on the returned status, with the same forecast and time, changes nothing and sends no message |
| `Decision.DecideScenarios` | tests/test_notifier.py:57-114 | the six decisions of the test suite: move out, move in, mixed day forecast, leave out overnight, bring in overnight, stay out overnight |
| `Notifier.LoadedStatus` | plant_hardening_notifier.py:25-31 | the stored status verbatim, or inside when the file yields none |
| `Notifier.StatusStore.Load` | plant_hardening_notifier.py:25-31 | loading returns the stored status, or inside for a missing record |
| `Notifier.StatusStore.Save` | plant_hardening_notifier.py:34-37 | saving overwrites the record with the new status |
| `Notifier.Run` | plant_hardening_notifier.py:140-148 | after a successful extraction the notification sent is exactly `decide_action`'s message on the loaded status, and when there is one the record becomes `decide_action`'s new status, which differs from the one loaded; without a notification the record is unchanged; a failed extraction sends nothing and writes nothing |
| `Notifier.RunOnce` | plant_hardening_notifier.py:140-148 | `main` leaves the store and sends the notification exactly as `Run` says |
| `Notifier.RunKeepsRecordWellFormed` | plant_hardening_notifier.py:140-148 | a store holding inside, outside or nothing never comes to hold anything else |
| `Notifier.RunIgnoresUnrecognisedRecord` | plant_hardening_notifier.py:140-148 | an unrecognised stored status is never overwritten and never notifies |
| `Notifier.RunIdempotent` | plant_hardening_notifier.py:140-148 | a second run on the same weather at the same time sends nothing and writes nothing |
| `Notifier.StoreRoundTrip` | tests/test_notifier.py:23-29 | a missing store loads as inside, and after saving outside it loads as outside |

`DayWindowFoundStep`, `ForecastDayWindow` and `ForecastNightMode` in `forecast.dfy` are helper lemmas. They unfold one step of the definitions for the two scenario proofs and state nothing further about the program.

## Left out

- `fetch_weather` (lines 40-52) is an HTTP request. The response arrays are inputs to the model, and HTTP errors are not modelled.
- `send_notification` (lines 132-137) calls a library that is not part of this model. The model only returns the notification that would be sent. A failed send, which in the code also skips the save, is not modelled.
- The message texts, including the `:.1f` formatting, are not modelled. A message is its kind, plus the number of forecast hours for the day-time kinds.
- `datetime.now()` defaults are not modelled. `now` is always a parameter.
- Timestamp strings are modelled as hour slots. So the model does not capture three things: day mode matching `"%Y-%m-%dT%H:%M"` keys by exact string equality; `fromisoformat` rejecting a malformed string in night mode; and readings that are not on the hour.
- Time zones and daylight-saving changes: the model uses naive wall-clock arithmetic, as the code does. Repeated or missing local hours in the response are not modelled.
- Floating point is not modelled: temperatures are `real`, so a NaN reading has no counterpart. Nor has a JSON `null` temperature: `None` in `temps` makes the comparisons at lines 103-123 raise `TypeError`, depending on the order of the readings.
- The day-mode keys of tests/test_notifier.py:18 are built with `isoformat()`, which includes seconds (`"…T10:00:00"`), while line 76 looks up keys without them (`"…T10:00"`). As written, the source returns `[]` for the 10:15 test. The model works on hour slots, so `ExtractDayScenario` holds of the model only.
- Microseconds play no part in the code's rounding. They are dropped from `Instant`.
- A malformed weather response (missing `hourly`, `time` or `temperature_2m` keys) raises `KeyError` in the code. Such a response is not modelled.
- File I/O and JSON are not modelled. The store is one optional record, with `None` for a missing file, unreadable JSON or a missing `status` key. JSON that is not an object (which raises in `.get`) is not modelled.
- Cron scheduling, and the assumption that runs never overlap, are outside the program.
