/**
  One scheduled run of the notifier (`main`): extract the forecast, load the
  status, decide, and only when there is a message send it and persist the
  new status. The weather response and the clock are inputs; the status file
  is an object holding the single persisted record.
 */
module Notifier {
  import opened Wrappers
  import opened Clock
  import opened Forecast
  import opened Decision

  /** FORECAST_HOURS, the day-mode horizon that `main` uses. */
  const ForecastHours: int := 3

  /**
    What `load_status` returns for a persisted record: the stored status
    verbatim, or inside when there is none (file missing, not valid JSON, or
    without a status key).
   */
  function LoadedStatus(record: Option<Status>): (s: Status)
    ensures record.Some? ==> s == record.value
    ensures record.None? ==> s == Inside
  {
    match record
    case None => Inside
    case Some(stored) => stored
  }

  /** The status file: `None` stands for a file that yields no status. */
  class StatusStore {
    var record: Option<Status>

    constructor (initial: Option<Status>)
      ensures record == initial
    {
      record := initial;
    }

    /** `load_status`. */
    method Load() returns (s: Status)
      ensures s == LoadedStatus(record)
    {
      s := LoadedStatus(record);
    }

    /** `save_status`: overwrite the record. */
    method Save(s: Status)
      modifies this
      ensures record == Some(s)
    {
      record := Some(s);
    }
  }

  /** What a run leaves behind: the persisted record and the notification sent, if any. */
  datatype RunOutcome = RunOutcome(record: Option<Status>, sent: Option<Message>)

  /**
    A run as a function of the record before it. The notification sent is the
    decider's message on the extracted forecast, and the record is rewritten
    exactly when one goes out, then to the decider's new status, which differs
    from the one loaded; a failed extraction sends nothing and leaves it
    untouched.
   */
  function Run(record: Option<Status>, times: seq<int>, temps: seq<real>, now: Instant): (o: RunOutcome)
    ensures o.sent.None? ==> o.record == record
    ensures o.sent.Some? ==> o.record.Some? && o.record.value != LoadedStatus(record)
    ensures ForecastWindow(times, temps, now, ForecastHours).TemperatureMissing? ==> o == RunOutcome(record, None)
    ensures ForecastWindow(times, temps, now, ForecastHours).Window? ==>
      var d := DecideAction(LoadedStatus(record), ForecastWindow(times, temps, now, ForecastHours).temps, now);
      o.sent == d.message && (d.message.Some? ==> o.record == Some(d.status))
  {
    match ForecastWindow(times, temps, now, ForecastHours)
    case TemperatureMissing(_) => RunOutcome(record, None)
    case Window(forecast) =>
      var d := DecideAction(LoadedStatus(record), forecast, now);
      if d.message.Some? then RunOutcome(Some(d.status), d.message) else RunOutcome(record, None)
  }

  /** `main`, with the fetched weather and `datetime.now()` passed in; returns the notification it sends. */
  method RunOnce(store: StatusStore, times: seq<int>, temps: seq<real>, now: Instant)
    returns (sent: Option<Message>)
    modifies store
    ensures RunOutcome(store.record, sent) == Run(old(store.record), times, temps, now)
  {
    var extracted := ExtractForecastTemps(times, temps, now, ForecastHours);
    if extracted.TemperatureMissing? {
      return None;
    }
    var status := store.Load();
    var d := DecideAction(status, extracted.temps, now);
    sent := d.message;
    if d.message.Some? {
      store.Save(d.status);
    }
  }

  /** A record of inside or outside (or none) never becomes anything else. */
  predicate WellFormedRecord(record: Option<Status>)
  {
    record == None || record == Some(Inside) || record == Some(Outside)
  }

  lemma RunKeepsRecordWellFormed(record: Option<Status>, times: seq<int>, temps: seq<real>, now: Instant)
    requires WellFormedRecord(record)
    ensures WellFormedRecord(Run(record, times, temps, now).record)
  {
  }

  /** An unrecognised persisted status is never replaced and never notifies. */
  lemma RunIgnoresUnrecognisedRecord(name: OtherName, times: seq<int>, temps: seq<real>, now: Instant)
    ensures Run(Some(Unrecognised(name)), times, temps, now) == RunOutcome(Some(Unrecognised(name)), None)
  {
  }

  /** Running again on the same weather at the same time sends nothing and writes nothing. */
  lemma RunIdempotent(record: Option<Status>, times: seq<int>, temps: seq<real>, now: Instant)
    ensures var o := Run(record, times, temps, now);
      Run(o.record, times, temps, now) == RunOutcome(o.record, None)
  {
    match ForecastWindow(times, temps, now, ForecastHours)
    case TemperatureMissing(_) =>
    case Window(forecast) =>
      DecideIdempotent(LoadedStatus(record), forecast, now);
  }

  /** A missing status file loads as inside; once outside is saved, it loads as outside. */
  method StoreRoundTrip() returns (first: Status, second: Status)
    ensures first == Inside && second == Outside
  {
    var store := new StatusStore(None);
    first := store.Load();
    store.Save(Outside);
    second := store.Load();
  }
}
