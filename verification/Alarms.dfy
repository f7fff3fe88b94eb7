/** VALARM components: property lines and the duration of a TRIGGER. */
module Alarms {
  import opened Results
  import opened Text
  import opened Decimal
  import opened TextUtils
  import opened Events

  // The properties a VALARM line can set.
  datatype AlarmLine = Trigger(value: string) | Action(value: string) | Description(value: string) | OtherLine

  function AlarmLineOf(key: string, value: string): AlarmLine {
    if key == "TRIGGER" then Trigger(value)
    else if key == "ACTION" then Action(value)
    else if key == "DESCRIPTION" then Description(value)
    else OtherLine
  }

  /** A property of any other name is ignored. */
  lemma AlarmLineIsIgnoredIff(key: string, value: string)
    ensures AlarmLineOf(key, value) == OtherLine <==> key !in ["TRIGGER", "ACTION", "DESCRIPTION"]
  {
  }

  function ReadAlarmLine(line: string): AlarmLine {
    var t := Trim(line);
    var colon := Find(t, ':');
    if colon == NPOS then OtherLine
    else
      AlarmLineOf(ToUpper(Trim(t[..colon])), UnescapeText(Trim(t[colon + 1..])))
  }

  // The number before the first mark c, and the text behind that mark; 0 and the
  // text itself when there is no mark.
  function TakeUnit(s: string, c: char): Result<(int, string)> {
    var p := Find(s, c);
    if p == NPOS then Ok((0, s))
    else
      var n :- Stoi(s[..p]);
      Ok((n, s[p + 1..]))
  }

  // The text after T of a duration, in minutes.
  function TimeMinutes(time: string): Result<int> {
    var hours :- TakeUnit(time, 'H');
    var minutes :- TakeUnit(hours.1, 'M');
    Ok(hours.0 * 60 + minutes.0)
  }

  // What follows the days: a time after T, or else bare minutes.
  function RestMinutes(rest: string): Result<int> {
    var t := Find(rest, 'T');
    if t != NPOS then TimeMinutes(rest[t + 1..])
    else if rest != "" && IsDigit(rest[0]) then Stoi(rest)
    else Ok(0)
  }

  /** The text after P of a duration, in minutes. */
  function DurationMinutes(duration: string): Result<int> {
    var days :- TakeUnit(duration, 'D');
    var minutes :- RestMinutes(days.1);
    Ok(days.0 * 1440 + minutes)
  }

  /** The minutes of a TRIGGER value; its sign is dropped, and a value that is not
      a duration leaves them unset. */
  function TriggerMinutes(trigger: string): Result<Option<int>> {
    var s := if trigger != "" && trigger[0] == '-' then trigger[1..] else trigger;
    if s != "" && s[0] == 'P' then
      var minutes :- DurationMinutes(s[1..]);
      Ok(Some(minutes))
    else Ok(None)
  }

  // The last value each property is given.
  datatype AlarmText = AlarmText(trigger: string, action: string, description: string)

  const NO_ALARM := AlarmText("", "DISPLAY", "")

  function SetProperty(a: AlarmText, line: AlarmLine): AlarmText {
    match line
    case Trigger(v) => a.(trigger := v)
    case Action(v) => a.(action := v)
    case Description(v) => a.(description := v)
    case OtherLine => a
  }

  function AlarmTextOf(lines: seq<string>): AlarmText {
    if lines == [] then NO_ALARM
    else SetProperty(AlarmTextOf(lines[..|lines| - 1]), ReadAlarmLine(lines[|lines| - 1]))
  }

  /** The alarms a VALARM body adds: none without a TRIGGER, else one. */
  function AlarmsOf(lines: seq<string>): Result<seq<Alarm>> {
    var a := AlarmTextOf(lines);
    if a.trigger == "" then Ok([])
    else
      var minutes :- TriggerMinutes(a.trigger);
      Ok([Alarm(minutes, a.action, a.description)])
  }

  method ParseAlarm(lines: seq<string>, ev: Event) returns (r: Result<Event>)
    ensures r == match AlarmsOf(lines)
                 case Ok(alarms) => Ok(ev.(alarms := ev.alarms + alarms))
                 case Err(e) => Err(e)
  {
    hide ReadAlarmLine, DurationMinutes;
    var trigger, action, description := "", "DISPLAY", "";
    for n := 0 to |lines|
      invariant AlarmTextOf(lines[..n]) == AlarmText(trigger, action, description)
    {
      assert lines[..n + 1][..n] == lines[..n];
      match ReadAlarmLine(lines[n]) {
        case Trigger(v) => trigger := v;
        case Action(v) => action := v;
        case Description(v) => description := v;
        case OtherLine =>
      }
    }
    assert lines[..|lines|] == lines;
    if trigger == "" {
      assert ev.alarms + [] == ev.alarms;
      return Ok(ev);
    }
    if trigger[0] == '-' {
      trigger := trigger[1..];
    }
    var minutes: Option<int> := None;
    if trigger != "" && trigger[0] == 'P' {
      var duration :- DurationMinutes(trigger[1..]);
      minutes := Some(duration);
    }
    return Ok(ev.(alarms := ev.alarms + [Alarm(minutes, action, description)]));
  }

  // ---- Durations of section 3.3.6 of RFC 5545 ----------------------------

  function UnitText(n: Option<nat>, c: char): string {
    match n
    case Some(v) => Print(v) + [c]
    case None => ""
  }

  function OrZero(n: Option<nat>): nat {
    match n
    case Some(v) => v
    case None => 0
  }

  function TimeText(hours: Option<nat>, minutes: Option<nat>): string {
    if hours.None? && minutes.None? then "" else "T" + (UnitText(hours, 'H') + UnitText(minutes, 'M'))
  }

  function DurationText(days: Option<nat>, hours: Option<nat>, minutes: Option<nat>): string {
    UnitText(days, 'D') + TimeText(hours, minutes)
  }

  predicate FitsInt(n: Option<nat>) {
    OrZero(n) <= INT_MAX
  }

  lemma UnitHasOnlyItsMark(n: Option<nat>, c: char)
    ensures forall d :: d in UnitText(n, c) ==> IsDigit(d) || d == c
  {
  }

  lemma TakePrinted(n: Option<nat>, c: char, rest: string)
    requires FitsInt(n) && !IsDigit(c) && (n.None? ==> c !in rest)
    ensures TakeUnit(UnitText(n, c) + rest, c) == Ok((OrZero(n) as int, rest))
  {
    match n {
      case None => assert UnitText(n, c) + rest == rest;
      case Some(v) =>
        var d := Print(v);
        var s := UnitText(n, c) + rest;
        assert s[..|d|] == d && s[|d| + 1..] == rest && s[|d|] == c;
        assert forall i :: 0 <= i < |d| ==> s[..|d|][i] != c;
        FindIs(s, c, |d|);
        assert d + "" == d;
        ReadDigits(d, "", INT_MIN, INT_MAX);
    }
  }

  lemma NoDayMark(hours: Option<nat>, minutes: Option<nat>)
    ensures 'D' !in TimeText(hours, minutes)
  {
  }

  // Without its mark a unit is absent.
  lemma NoMarkNoUnit(s: string, c: char)
    requires c !in s
    ensures TakeUnit(s, c) == Ok((0, s))
  {
  }

  function Minutes(days: Option<nat>, hours: Option<nat>, minutes: Option<nat>): int {
    OrZero(days) * 1440 + OrZero(hours) * 60 + OrZero(minutes)
  }

  // A trigger before or after the event.
  function SignedText(before: bool, days: Option<nat>, hours: Option<nat>, minutes: Option<nat>): string {
    (if before then "-" else "") + "P" + DurationText(days, hours, minutes)
  }

  function SignedMinutes(before: bool, total: int): int {
    if before then -total else total
  }

  /** Any printed duration of days, hours and minutes, each of them optional, is
      read back in minutes, before or after the event alike: so with the sign it
      should have exactly when the alarm is not before the event, or is at it. */
  lemma TriggerReadsBack(before: bool, days: Option<nat>, hours: Option<nat>, minutes: Option<nat>)
    requires FitsInt(days) && FitsInt(hours) && FitsInt(minutes)
    ensures TriggerMinutes(SignedText(before, days, hours, minutes)) == Ok(Some(Minutes(days, hours, minutes)))
    ensures TriggerMinutes(SignedText(before, days, hours, minutes))
         == Ok(Some(SignedMinutes(before, Minutes(days, hours, minutes))))
        <==> !before || Minutes(days, hours, minutes) == 0
  {
    hide DurationText, DurationMinutes, Minutes;
    var d := DurationText(days, hours, minutes);
    var s := SignedText(before, days, hours, minutes);
    assert (if before then s[1..] else s) == "P" + d;
    assert ("P" + d)[1..] == d;
    DurationReadsBack(days, hours, minutes);
  }

  lemma DurationReadsBack(days: Option<nat>, hours: Option<nat>, minutes: Option<nat>)
    requires FitsInt(days) && FitsInt(hours) && FitsInt(minutes)
    ensures DurationMinutes(DurationText(days, hours, minutes))
         == Ok(Minutes(days, hours, minutes))
  {
    hide TakeUnit, UnitText, TimeText, RestMinutes;
    NoDayMark(hours, minutes);
    TakePrinted(days, 'D', TimeText(hours, minutes));
    RestReadsBack(hours, minutes);
  }

  lemma RestReadsBack(hours: Option<nat>, minutes: Option<nat>)
    requires FitsInt(hours) && FitsInt(minutes)
    ensures RestMinutes(TimeText(hours, minutes)) == Ok(OrZero(hours) * 60 + OrZero(minutes))
  {
    hide UnitText, TimeMinutes;
    var time := UnitText(hours, 'H') + UnitText(minutes, 'M');
    TimeReadsBack(hours, minutes);
    TimeAfterT(time);
  }

  lemma TimeAfterT(time: string)
    ensures RestMinutes("T" + time) == TimeMinutes(time)
  {
  }

  lemma TimeReadsBack(hours: Option<nat>, minutes: Option<nat>)
    requires FitsInt(hours) && FitsInt(minutes)
    ensures TimeMinutes(UnitText(hours, 'H') + UnitText(minutes, 'M')) == Ok(OrZero(hours) * 60 + OrZero(minutes))
  {
    hide TakeUnit, UnitText;
    var m := UnitText(minutes, 'M');
    UnitHasOnlyItsMark(minutes, 'M');
    TakePrinted(hours, 'H', m);
    assert m + "" == m;
    TakePrinted(minutes, 'M', "");
  }

  /** The minutes are left unset exactly by a value that, but for a minus sign, does not
      begin with P: an absolute time, or a duration with a plus sign. */
  lemma TriggerUnsetIff(trigger: string)
    ensures TriggerMinutes(trigger) == Ok(None) <==> !("P" <= trigger || "-P" <= trigger)
  {
    hide DurationMinutes;
    assert "-P" <= trigger <==> |trigger| >= 2 && trigger[0] == '-' && trigger[1] == 'P';
  }

  lemma AlarmLineParts(left: string, right: string)
    requires ':' !in left
    ensures ReadAlarmLine(left + ":" + right) == AlarmLineOf(ToUpper(Trim(left)), UnescapeText(Trim(right)))
  {
    hide Trim, TrimLeft, TrimRight, AlarmLineOf, ToUpper, UnescapeText;
    TrimDivides(left, ':', right);
    var t := Trim(left + ":" + right);
    var l, r := TrimLeft(left), TrimRight(right);
    assert forall x :: x in l ==> x in left;
    assert t == l + ":" + r && t[..|l|] == l && t[|l| + 1..] == r;
    FindIs(t, ':', |l|);
  }

  /** An alarm line is read with its name in either case and with blanks around the
      name and the value. */
  lemma AlarmLineIsForgiving(key: string, other: string, value: string, a: string, b: string, c: string, d: string)
    requires IsSameName(key, other) && ':' !in key + other && IsTrimmed(key) && IsTrimmed(other)
    requires forall x :: x in a + b + c + d ==> IsBlank(x)
    ensures ReadAlarmLine(a + other + b + ":" + (c + value + d)) == ReadAlarmLine(key + ":" + value)
  {
    hide Trim, AlarmLineOf, ToUpper, UnescapeText, IsSameName, ReadAlarmLine, IsTrimmed;
    BlanksHaveNoColon(a, b, c + d);
    AlarmLineParts(a + other + b, c + value + d);
    AlarmLineParts(key, value);
    forall x | x in a + b || x in c + d
      ensures IsBlank(x)
    {
      assert x in a + b + c + d;
    }
    TrimSkipsBlanks(a, other, b);
    TrimSkipsBlanks(c, value, d);
    TrimIsIdempotent(key);
    TrimIsIdempotent(other);
    UpperFoldsCase(key, other);
  }

  lemma BlanksHaveNoColon(a: string, b: string, rest: string)
    requires forall x :: x in a + b + rest ==> IsBlank(x)
    ensures ':' !in a && ':' !in b
  {
    assert forall x :: x in a || x in b ==> x in a + b + rest;
  }

  /** A parameter, as in TRIGGER;RELATED=END, hides the property from the parser. */
  lemma ParameterHidesProperty(key: string, params: string, value: string)
    requires ':' !in key && ':' !in params && IsTrimmed(key) && IsTrimmed(params)
    ensures ReadAlarmLine(key + ";" + params + ":" + value) == OtherLine
  {
    hide Trim, UnescapeText, ReadAlarmLine;
    var left := key + ";" + params;
    AlarmLineParts(left, value);
    TrimIsIdempotent(left);
    assert left[0] == key[0] && left[|left| - 1] == params[|params| - 1];
    assert ToUpper(left)[|key|] == UpperChar(';') == ';';
    assert ';' !in "TRIGGER" && ';' !in "ACTION" && ';' !in "DESCRIPTION";
  }

  /** Weeks are not a unit the parser knows: a trigger of n weeks reads as n
      minutes, which is right only for 0. */
  lemma WeeksReadAsMinutes(n: nat)
    requires n <= INT_MAX
    ensures TriggerMinutes("-P" + Print(n) + "W") == Ok(Some(n))
    ensures TriggerMinutes("-P" + Print(n) + "W") == Ok(Some(n * 7 * 1440)) <==> n == 0
  {
    hide DurationMinutes, Print;
    WeeksDuration(n);
    var d := Print(n) + "W";
    var s := "-P" + Print(n) + "W";
    assert s[1..] == "P" + d && ("P" + d)[1..] == d;
  }

  lemma WeeksDuration(n: nat)
    requires n <= INT_MAX
    ensures DurationMinutes(Print(n) + "W") == Ok(n)
  {
    hide TakeUnit, Stoi, Print;
    var d := Print(n) + "W";
    assert d[0] == Print(n)[0];
    assert forall c :: c in d ==> IsDigit(c) || c == 'W';
    NoMarkNoUnit(d, 'D');
    BareNumber(n, "W");
  }

  lemma BareNumber(n: nat, tail: string)
    requires n <= INT_MAX && tail != "" && !IsDigit(tail[0])
    ensures Stoi(Print(n) + tail) == Ok(n)
  {
    hide Print;
    ReadDigits(Print(n), tail, INT_MIN, INT_MAX);
  }
}
