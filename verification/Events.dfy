/** The records the calendar engine passes around. */
module Events {
  import opened Results

  datatype Status = Confirmed | Tentative | Canceled

  datatype Repeat = Once | Daily | Weekly | Monthly | Yearly

  // The minutes are left indeterminate by a trigger that is no duration.
  datatype Alarm = Alarm(triggerMinutes: Option<int>, action: string, description: string)

  /** scheduled_event.  Instants are whole seconds; 0 is a time point that was never
      set.  The mask is the set of weekdays whose bit is set. */
  datatype Event = Event(
    summary: string,
    description: string,
    uid: string,
    location: string,
    sequence: int,
    start: int,
    end: int,
    created: int,
    lastModified: int,
    stamp: int,
    url: string,
    organizer: string,
    organizerName: string,
    categories: string,
    status: Status,
    alarms: seq<Alarm>,
    repeat: Repeat,
    bydayMask: set<Weekday>,
    recurrenceInterval: nat,
    recurrenceEnd: int,
    exdates: set<string>)

  const BLANK_EVENT :=
    Event("", "", "", "", 0, 0, 0, 0, 0, 0, "", "", "", "", Confirmed, [], Once, {}, 1, 0, {})

  // 1 is Monday, 7 is Sunday.
  type Weekday = d: int | 1 <= d <= 7 witness 1

  // An RRULE.  An until of 0 means no bound; the interval is read from digits.
  datatype Rule = Rule(freq: Freq, interval: nat, until: int, byday: set<Weekday>)

  datatype Freq = DailyFreq | WeeklyFreq | MonthlyFreq | YearlyFreq

  const DEFAULT_RULE := Rule(DailyFreq, 1, 0, {})

  datatype RawEvent = RawEvent(
    ev: Event,
    rule: Rule,
    hasRule: bool,
    exdates: set<string>,
    hasRecurrenceId: bool,
    recurrenceId: string)

  const BLANK_RAW := RawEvent(BLANK_EVENT, DEFAULT_RULE, false, {}, false, "")

  datatype Window = Window(start: int, deadline: int)
}
