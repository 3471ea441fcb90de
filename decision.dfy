/**
  The transition decider (`decide_action`): given the persisted status, the
  extracted forecast and `now`, the new status and the notification to send,
  if any.
 */
module Decision {
  import opened Wrappers
  import opened Clock

  /** THRESHOLD_C, in degrees Celsius. */
  const Threshold: real := 15.0

  /** A stored status string that is neither "inside" nor "outside". */
  type OtherName = s: string | s != "inside" && s != "outside" witness ""

  /**
    The persisted status. The store hands back whatever value it holds, so a
    value other than "inside" and "outside" is kept as it is; the decider
    compares it with both strings and so leaves it alone.
   */
  datatype Status = Inside | Outside | Unrecognised(name: OtherName)

  /**
    The notification, by kind: the day-time messages state how many forecast
    hours they cover, the overnight ones do not.
   */
  datatype Message =
    | MoveOutside(hours: nat)
    | BringInside(hours: nat)
    | LeaveOutsideTonight
    | BringInsideTonight

  datatype Outcome = Outcome(status: Status, message: Option<Message>)

  /** `all(t > THRESHOLD_C for t in forecast)`; true of the empty forecast. */
  predicate AllAbove(forecast: seq<real>): (above: bool)
    ensures forecast == [] ==> above
  {
    forall t :: t in forecast ==> t > Threshold
  }

  /** `all(t < THRESHOLD_C for t in forecast)`; true of the empty forecast. */
  predicate AllBelow(forecast: seq<real>): (below: bool)
    ensures forecast == [] ==> below
  {
    forall t :: t in forecast ==> t < Threshold
  }

  /**
    `decide_action`. A message is produced exactly when the status changes,
    and the only changes are inside to outside and outside to inside; an
    empty forecast or an unrecognised status changes nothing.
   */
  function DecideAction(status: Status, forecast: seq<real>, now: Instant): (d: Outcome)
    ensures d.message.Some? <==> d.status != status
    ensures d.status != status ==>
      (status == Inside && d.status == Outside) || (status == Outside && d.status == Inside)
    ensures forecast == [] ==> d == Outcome(status, None)
    ensures status.Unrecognised? ==> d == Outcome(status, None)
  {
    if IsDayMode(now) then
      if status == Inside && forecast != [] && AllAbove(forecast) then
        Outcome(Outside, Some(MoveOutside(|forecast|)))
      else if status == Outside && forecast != [] && AllBelow(forecast) then
        Outcome(Inside, Some(BringInside(|forecast|)))
      else
        Outcome(status, None)
    else
      if status == Inside && forecast != [] && AllAbove(forecast) then
        Outcome(Outside, Some(LeaveOutsideTonight))
      else if status == Outside && forecast != [] && !AllAbove(forecast) then
        Outcome(Inside, Some(BringInsideTonight))
      else
        Outcome(status, None)
  }

  /**
    Day mode: inside goes outside exactly when the forecast is non-empty and
    every value is strictly above the threshold; outside comes inside exactly
    when it is non-empty and every value is strictly below it. The day-time
    messages carry the number of forecast hours.
   */
  lemma DayModeTransitions(status: Status, forecast: seq<real>, now: Instant)
    requires IsDayMode(now)
    ensures var d := DecideAction(status, forecast, now);
      (status == Inside ==>
        (d.status == Outside <==> |forecast| > 0 && forall t :: t in forecast ==> t > Threshold)) &&
      (status == Outside ==>
        (d.status == Inside <==> |forecast| > 0 && forall t :: t in forecast ==> t < Threshold))
    ensures var d := DecideAction(status, forecast, now);
      d.message.Some? ==>
        d.message == Some(MoveOutside(|forecast|)) || d.message == Some(BringInside(|forecast|))
  {
    if |forecast| > 0 && AllAbove(forecast) {
      assert !AllBelow(forecast) by { assert forecast[0] in forecast && forecast[0] > Threshold; }
    }
  }

  /**
    Night mode: inside goes outside exactly when the forecast is non-empty and
    every value is strictly above the threshold; outside comes inside exactly
    when it is non-empty and some value is at or below the threshold.
   */
  lemma NightModeTransitions(status: Status, forecast: seq<real>, now: Instant)
    requires !IsDayMode(now)
    ensures var d := DecideAction(status, forecast, now);
      (status == Inside ==>
        (d.status == Outside <==> |forecast| > 0 && forall t :: t in forecast ==> t > Threshold)) &&
      (status == Outside ==>
        (d.status == Inside <==> exists t :: t in forecast && t <= Threshold))
    ensures var d := DecideAction(status, forecast, now);
      d.message.Some? ==>
        d.message == Some(LeaveOutsideTonight) || d.message == Some(BringInsideTonight)
  {
  }

  /** The message names the direction the status moved in. */
  lemma MessageMatchesStatus(status: Status, forecast: seq<real>, now: Instant)
    ensures var d := DecideAction(status, forecast, now);
      ((d.message == Some(MoveOutside(|forecast|)) || d.message == Some(LeaveOutsideTonight))
        <==> d.message.Some? && d.status == Outside) &&
      ((d.message == Some(BringInside(|forecast|)) || d.message == Some(BringInsideTonight))
        <==> d.message.Some? && d.status == Inside)
  {
  }

  /** In day mode a reading of exactly 15.0 blocks both transitions. */
  lemma ThresholdBlocksDayTransitions(status: Status, forecast: seq<real>, now: Instant)
    requires IsDayMode(now)
    requires Threshold in forecast
    ensures DecideAction(status, forecast, now) == Outcome(status, None)
  {
  }

  /** Deciding again on the status just decided, with the same forecast and time, changes nothing. */
  lemma DecideIdempotent(status: Status, forecast: seq<real>, now: Instant)
    ensures var d := DecideAction(status, forecast, now);
      DecideAction(d.status, forecast, now) == Outcome(d.status, None)
  {
    if forecast != [] && AllAbove(forecast) {
      assert !AllBelow(forecast) by { assert forecast[0] in forecast && forecast[0] > Threshold; }
    }
  }

  /** The decisions the test suite expects, each at its own time of day. */
  lemma DecideScenarios(d: int)
    ensures DecideAction(Inside, [16.0, 17.0, 18.0], Instant(d * 24 + 9, 0, 0))
      == Outcome(Outside, Some(MoveOutside(3)))
    ensures DecideAction(Outside, [10.0, 12.0, 13.0], Instant(d * 24 + 15, 0, 0))
      == Outcome(Inside, Some(BringInside(3)))
    ensures DecideAction(Inside, [16.0, 14.0, 17.0], Instant(d * 24 + 11, 0, 0))
      == Outcome(Inside, None)
    ensures DecideAction(Inside, [16.0, 17.0, 18.0, 19.0, 20.0, 21.0, 22.0], Instant(d * 24 + 23, 0, 0))
      == Outcome(Outside, Some(LeaveOutsideTonight))
    ensures DecideAction(Outside, [16.0, 14.0, 15.0, 13.0], Instant(d * 24 + 23, 30, 0))
      == Outcome(Inside, Some(BringInsideTonight))
    ensures DecideAction(Outside, [16.0, 17.0, 18.0], Instant(d * 24 + 23, 45, 0))
      == Outcome(Outside, None)
  {
    assert HourOfDay(d * 24 + 9) == 9;
    assert HourOfDay(d * 24 + 15) == 15;
    assert HourOfDay(d * 24 + 11) == 11;
    assert HourOfDay(d * 24 + 23) == 23;
    assert 14.0 in [16.0, 14.0, 17.0];
    assert 14.0 in [16.0, 14.0, 15.0, 13.0];
  }

  /**
    A night forecast that contains the threshold value itself brings the
    plants inside, since it is not above the threshold.
   */
  lemma ThresholdBringsInsideAtNight(forecast: seq<real>, now: Instant)
    requires !IsDayMode(now)
    requires Threshold in forecast
    ensures DecideAction(Outside, forecast, now) == Outcome(Inside, Some(BringInsideTonight))
  {
  }
}
