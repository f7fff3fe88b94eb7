/** Printed VALARM components, and the alarms read from them. */
module AlarmLaws {
  import opened Results
  import opened Text
  import opened TextUtils
  import opened Events
  import opened Alarms

  /** One line of a VALARM, as a value: a property the parser knows, or a line that
      means nothing to it. */
  datatype AlarmProp =
    | TriggerIs(before: bool, days: Option<nat>, hours: Option<nat>, minutes: Option<nat>)
    | ActionIs(text: string)
    | NoteIs(text: string)
    | ForeignIs(line: string)

  ghost predicate ValidAlarmProp(p: AlarmProp) {
    match p
    case TriggerIs(_, days, hours, minutes) => FitsInt(days) && FitsInt(hours) && FitsInt(minutes)
    case ActionIs(text) => Trim(EscapeText(text)) == EscapeText(text)
    case NoteIs(text) => Trim(EscapeText(text)) == EscapeText(text)
    case ForeignIs(line) => ReadAlarmLine(line) == OtherLine
  }

  ghost predicate ValidAlarm(props: seq<AlarmProp>) {
    forall i :: 0 <= i < |props| ==> ValidAlarmProp(props[i])
  }

  function TriggerText(p: AlarmProp): string
    requires p.TriggerIs?
  {
    SignedText(p.before, p.days, p.hours, p.minutes)
  }

  function AlarmLineText(p: AlarmProp): string {
    match p
    case TriggerIs(_, _, _, _) => "TRIGGER" + ":" + TriggerText(p)
    case ActionIs(text) => "ACTION" + ":" + EscapeText(text)
    case NoteIs(text) => "DESCRIPTION" + ":" + EscapeText(text)
    case ForeignIs(line) => line
  }

  function AlarmLines(props: seq<AlarmProp>): (r: seq<string>)
    ensures |r| == |props|
    ensures forall i :: 0 <= i < |props| ==> r[i] == AlarmLineText(props[i])
  {
    seq(|props|, i requires 0 <= i < |props| => AlarmLineText(props[i]))
  }

  // What a VALARM says: the minutes of its trigger, if it has one.
  datatype Told = Told(minutes: Option<int>, action: string, note: string)

  function Tell(t: Told, p: AlarmProp): Told {
    match p
    case TriggerIs(_, days, hours, minutes) => t.(minutes := Some(Minutes(days, hours, minutes)))
    case ActionIs(text) => t.(action := text)
    case NoteIs(text) => t.(note := text)
    case ForeignIs(_) => t
  }

  // Of a repeated property the last counts.
  function TellAll(props: seq<AlarmProp>): Told {
    if props == [] then Told(None, "DISPLAY", "")
    else Tell(TellAll(props[..|props| - 1]), props[|props| - 1])
  }

  /** The alarms a VALARM describes: one, if it has a trigger. */
  function DescribedAlarms(props: seq<AlarmProp>): seq<Alarm> {
    var t := TellAll(props);
    if t.minutes.None? then [] else [Alarm(t.minutes, t.action, t.note)]
  }

  lemma {:induction false} UnescapeLeaves(s: string)
    requires '\\' !in s
    ensures UnescapeText(s) == s
  {
    if s != "" {
      UnescapeLeaves(s[1..]);
    }
  }

  lemma ReadPrintedLine(key: string, value: string)
    requires IsTrimmed(key) && ':' !in key
    requires Trim(value) == value && IsTrimmed(key + ":" + value)
    ensures ReadAlarmLine(key + ":" + value) == AlarmLineOf(ToUpper(key), UnescapeText(value))
  {
    hide Trim, UnescapeText, ToUpper, AlarmLineOf;
    var t := key + ":" + value;
    TrimIsIdempotent(t);
    TrimIsIdempotent(key);
    assert t[..|key|] == key && t[|key| + 1..] == value;
    FindIs(t, ':', |key|);
  }

  lemma AlarmNames()
    ensures IsTrimmed("ACTION") && ':' !in "ACTION" && ToUpper("ACTION") == "ACTION"
    ensures IsTrimmed("TRIGGER") && ':' !in "TRIGGER" && ToUpper("TRIGGER") == "TRIGGER"
    ensures IsTrimmed("DESCRIPTION") && ':' !in "DESCRIPTION" && ToUpper("DESCRIPTION") == "DESCRIPTION"
  {
  }

  // No blank and no backslash.
  ghost predicate IsBare(s: string) {
    forall c :: c in s ==> !IsBlank(c) && c != '\\'
  }

  lemma BareJoins(s: string, t: string)
    requires IsBare(s) && IsBare(t)
    ensures IsBare(s + t)
  {
  }

  lemma UnitIsBare(n: Option<nat>, c: char)
    requires !IsBlank(c) && c != '\\'
    ensures IsBare(UnitText(n, c))
  {
    UnitHasOnlyItsMark(n, c);
  }

  lemma DurationIsBare(days: Option<nat>, hours: Option<nat>, minutes: Option<nat>)
    ensures IsBare(DurationText(days, hours, minutes))
  {
    assert IsBare("") && IsBare("T");
    hide IsBare, UnitText;
    UnitIsBare(days, 'D');
    UnitIsBare(hours, 'H');
    UnitIsBare(minutes, 'M');
    BareJoins(UnitText(hours, 'H'), UnitText(minutes, 'M'));
    BareJoins("T", UnitText(hours, 'H') + UnitText(minutes, 'M'));
    BareJoins(UnitText(days, 'D'), TimeText(hours, minutes));
  }

  lemma TriggerIsBare(p: AlarmProp)
    requires p.TriggerIs?
    ensures TriggerText(p) != "" && IsTrimmed(TriggerText(p)) && '\\' !in TriggerText(p)
  {
    assert IsBare("P") && IsBare("-P");
    hide IsBare, DurationText, IsTrimmed;
    DurationIsBare(p.days, p.hours, p.minutes);
    assert "" + "P" == "P" && "-" + "P" == "-P";
    BareJoins(if p.before then "-P" else "P", DurationText(p.days, p.hours, p.minutes));
    BareIsTrimmed(TriggerText(p));
  }

  lemma BareIsTrimmed(s: string)
    requires IsBare(s) && s != ""
    ensures IsTrimmed(s) && '\\' !in s
  {
    assert s[0] in s && s[|s| - 1] in s;
  }

  // What the parser takes from the line of a property.
  function MeaningOf(p: AlarmProp): AlarmLine {
    match p
    case TriggerIs(_, _, _, _) => Trigger(TriggerText(p))
    case ActionIs(text) => Action(text)
    case NoteIs(text) => Description(text)
    case ForeignIs(_) => OtherLine
  }

  lemma PropReadsBack(p: AlarmProp)
    requires ValidAlarmProp(p) && IsTrimmed(AlarmLineText(p))
    ensures ReadAlarmLine(AlarmLineText(p)) == MeaningOf(p)
  {
    AlarmNames();
    hide Trim, EscapeText, UnescapeText, ToUpper, TriggerText, ReadAlarmLine, IsTrimmed;
    match p {
      case TriggerIs(_, _, _, _) =>
        TriggerIsBare(p);
        TrimIsIdempotent(TriggerText(p));
        UnescapeLeaves(TriggerText(p));
        ReadPrintedLine("TRIGGER", TriggerText(p));
      case ActionIs(text) =>
        UnescapeInvertsEscape(text);
        ReadPrintedLine("ACTION", EscapeText(text));
      case NoteIs(text) =>
        UnescapeInvertsEscape(text);
        ReadPrintedLine("DESCRIPTION", EscapeText(text));
      case ForeignIs(_) =>
    }
  }

  // The text kept for a VALARM stands for what it says.
  ghost predicate StandsFor(a: AlarmText, t: Told) {
    && a.action == t.action && a.description == t.note
    && (a.trigger == "" <==> t.minutes.None?)
    && (a.trigger != "" ==> TriggerMinutes(a.trigger) == Ok(t.minutes))
  }

  lemma {:induction false} TextStandsFor(props: seq<AlarmProp>)
    requires ValidAlarm(props) && forall i :: 0 <= i < |props| ==> IsTrimmed(AlarmLines(props)[i])
    ensures StandsFor(AlarmTextOf(AlarmLines(props)), TellAll(props))
  {
    hide AlarmLineText, ReadAlarmLine, TriggerMinutes, TriggerText, IsTrimmed;
    if props != [] {
      var most, p := props[..|props| - 1], props[|props| - 1];
      assert AlarmLines(props)[..|props| - 1] == AlarmLines(most);
      assert AlarmLines(props)[|props| - 1] == AlarmLineText(p);
      TextStandsFor(most);
      PropReadsBack(p);
      if p.TriggerIs? {
        TriggerIsBare(p);
        TriggerOf(p);
      }
    }
  }

  lemma TriggerOf(p: AlarmProp)
    requires p.TriggerIs? && ValidAlarmProp(p)
    ensures TriggerMinutes(TriggerText(p)) == Ok(Some(Minutes(p.days, p.hours, p.minutes)))
  {
    hide SignedText, TriggerMinutes;
    TriggerReadsBack(p.before, p.days, p.hours, p.minutes);
  }

  /** Any VALARM, with its properties in any order, repeated or left out, among lines
      that mean nothing, gives the alarm it describes: none without a trigger. */
  lemma AlarmReadsBack(props: seq<AlarmProp>)
    requires ValidAlarm(props) && forall i :: 0 <= i < |props| ==> IsTrimmed(AlarmLines(props)[i])
    ensures AlarmsOf(AlarmLines(props)) == Ok(DescribedAlarms(props))
  {
    hide AlarmTextOf, TellAll, TriggerMinutes, IsTrimmed;
    TextStandsFor(props);
  }
}
