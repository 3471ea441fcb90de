/**
  Naive local wall-clock time, as the notifier uses Python's `datetime`
  without a time zone. An instant is the hour slot it falls in (whole hours
  counted from midnight of day 0) together with the minute and second inside
  that hour; day and hour of day follow from the slot.
 */
module Clock {

  /** The first hour of the day that counts as night (only 23:00-23:59). */
  const NightStartHour: int := 23

  /** The hour of the morning at which the night window closes. */
  const NightEndHour: int := 6

  type Minute = m: int | 0 <= m < 60
  type Second = s: int | 0 <= s < 60

  datatype Instant = Instant(slot: int, minute: Minute, second: Second)

  /** The calendar day of an hour slot. */
  function Day(h: int): int
  {
    h / 24
  }

  /** The hour of the day (0..23) of an hour slot. */
  function HourOfDay(h: int): (r: int)
    ensures 0 <= r < 24
    ensures h == Day(h) * 24 + r
  {
    h % 24
  }

  /** Day mode is everything before 23:00, night mode is 23:00-23:59. */
  predicate IsDayMode(now: Instant): (day: bool)
    ensures !day <==> HourOfDay(now.slot) == NightStartHour
  {
    HourOfDay(now.slot) < NightStartHour
  }

  /**
    `base` of the extractor: `now` with minutes, seconds and microseconds
    cleared, plus one hour when the minute is not zero. The result is the
    first whole hour at or after `now` truncated to the minute, so seconds
    alone never round up.
   */
  function RoundUpToHour(now: Instant): (base: int)
    ensures base * 60 >= now.slot * 60 + now.minute
    ensures (base - 1) * 60 < now.slot * 60 + now.minute
  {
    var truncated := now.slot;
    if now.minute > 0 then truncated + 1 else truncated
  }

  /**
    `end` of the night window: one day after `base`, with the hour replaced
    by 06 (minutes are already zero), i.e. 06:00 on the calendar day after
    the day of `base`.
   */
  function NightEnd(base: int): (end: int)
    ensures Day(end) == Day(base) + 1
    ensures HourOfDay(end) == NightEndHour
  {
    var nextDay := base + 24;
    assert Day(nextDay) == Day(base) + 1;
    Day(nextDay) * 24 + NightEndHour
  }

  /**
    The two night windows the extractor can produce. At 23:00 exactly the
    window runs from 23:00 to 06:00 the next morning (8 hourly slots). At
    23:01-23:59 `base` has already rolled over to 00:00 of the next day, so
    `end` is 06:00 of the day after that: the window spans 31 hourly slots.
   */
  lemma NightWindowBounds(now: Instant)
    requires !IsDayMode(now)
    ensures now.minute == 0 ==>
      RoundUpToHour(now) == now.slot && NightEnd(RoundUpToHour(now)) == now.slot + 7
    ensures now.minute > 0 ==>
      RoundUpToHour(now) == now.slot + 1 && NightEnd(RoundUpToHour(now)) == now.slot + 31
  {
    var d := Day(now.slot);
    assert now.slot == d * 24 + 23;
    if now.minute == 0 {
      assert Day(now.slot + 24) == d + 1;
    } else {
      assert now.slot + 1 == (d + 1) * 24;
      assert Day(now.slot + 1 + 24) == d + 2;
    }
  }
}
