/** Building a raw event from the content lines of a VEVENT. */
module EventBuilder {
  import opened Results
  import opened Text
  import opened Decimal
  import opened Civil
  import opened DateTime
  import opened TextUtils
  import opened Events
  import opened Rrule
  import opened Alarms

  // The properties that are read.
  datatype Property =
    | Summary | Details | Uid | Place | SequenceNo | Link | Categories | StatusOf | DtStart | DtEnd
    | Created | LastModified | DtStamp | Organizer | RRule | RecurrenceId | ExDate | OtherProperty

  function PropertyOf(key: string): Property {
    if key == "SUMMARY" then Summary
    else if key == "DESCRIPTION" then Details
    else if key == "UID" then Uid
    else if key == "LOCATION" then Place
    else if key == "SEQUENCE" then SequenceNo
    else if key == "URL" then Link
    else if key == "CATEGORIES" then Categories
    else if key == "STATUS" then StatusOf
    else if key == "DTSTART" then DtStart
    else if key == "DTEND" then DtEnd
    else if key == "CREATED" then Created
    else if key == "LAST-MODIFIED" then LastModified
    else if key == "DTSTAMP" then DtStamp
    else if key == "ORGANIZER" then Organizer
    else if key == "RRULE" then RRule
    else if key == "RECURRENCE-ID" then RecurrenceId
    else if key == "EXDATE" then ExDate
    else OtherProperty
  }

  const NAMES := [
    "SUMMARY", "DESCRIPTION", "UID", "LOCATION", "SEQUENCE", "URL", "CATEGORIES", "STATUS", "DTSTART", "DTEND",
    "CREATED", "LAST-MODIFIED", "DTSTAMP", "ORGANIZER", "RRULE", "RECURRENCE-ID", "EXDATE"
  ]

  /** A property of any other name is ignored. */
  lemma PropertyIsIgnoredIff(key: string)
    ensures PropertyOf(key) == OtherProperty <==> key !in NAMES
  {
  }

  function ReadStatus(value: string): Status {
    var s := ToUpper(value);
    if s == "CANCELED" then Canceled
    else if s == "TENTATIVE" then Tentative
    else Confirmed
  }

  // The text after the last colon.
  function RecurrenceIdOf(value: string): string {
    var p := FindLast(value, ':');
    if p == NPOS then value else value[p + 1..]
  }

  // What follows "mailto:", or the whole value.
  function MailOf(value: string): string {
    var p := FindText(value, "mailto:");
    if p == NPOS then value else value[p + 7..]
  }

  // The value of a parameter, up to the next semicolon.
  function ParamValue(params: string, name: string): string {
    var p := FindText(params, name + "=");
    if p == NPOS then ""
    else
      var tail := params[p + |name| + 1..];
      var e := Find(tail, ';');
      if e == NPOS then tail else tail[..e]
  }

  // The trimmed, non-empty pieces.
  function ExdatesIn(pieces: seq<string>): set<string> {
    if pieces == [] then {}
    else
      var p := Trim(pieces[|pieces| - 1]);
      ExdatesIn(pieces[..|pieces| - 1]) + if p == "" then {} else {p}
  }

  // The system around the builder: known VTIMEZONE offsets and the local zone.
  datatype Zones = Zones(vtz: map<string, int>, local: int)

  // next, with what property p may set put back as it is in re.
  function PutBack(next: RawEvent, p: Property, re: RawEvent): RawEvent {
    match p
    case Summary => next.(ev := next.ev.(summary := re.ev.summary))
    case Details => next.(ev := next.ev.(description := re.ev.description))
    case Uid => next.(ev := next.ev.(uid := re.ev.uid))
    case Place => next.(ev := next.ev.(location := re.ev.location))
    case SequenceNo => next.(ev := next.ev.(sequence := re.ev.sequence))
    case Link => next.(ev := next.ev.(url := re.ev.url))
    case Categories => next.(ev := next.ev.(categories := re.ev.categories))
    case StatusOf => next.(ev := next.ev.(status := re.ev.status))
    case DtStart => next.(ev := next.ev.(start := re.ev.start))
    case DtEnd => next.(ev := next.ev.(end := re.ev.end))
    case Created => next.(ev := next.ev.(created := re.ev.created))
    case LastModified => next.(ev := next.ev.(lastModified := re.ev.lastModified))
    case DtStamp => next.(ev := next.ev.(stamp := re.ev.stamp))
    case Organizer => next.(ev := next.ev.(organizer := re.ev.organizer, organizerName := re.ev.organizerName))
    case RRule => next.(rule := re.rule, hasRule := re.hasRule)
    case RecurrenceId => next.(hasRecurrenceId := re.hasRecurrenceId, recurrenceId := re.recurrenceId)
    case ExDate => next.(exdates := re.exdates, ev := next.ev.(exdates := re.ev.exdates))
    case OtherProperty => next
  }

  function ApplyProperty(re: RawEvent, p: Property, line: ContentLine, z: Zones): Result<RawEvent> {
    match p
    case Summary => Ok(re.(ev := re.ev.(summary := Trim(UnescapeText(line.value)))))
    case Details => Ok(re.(ev := re.ev.(description := UnescapeText(line.value))))
    case Uid => Ok(re.(ev := re.ev.(uid := line.value)))
    case Place => Ok(re.(ev := re.ev.(location := UnescapeText(line.value))))
    case SequenceNo =>
      Ok(match Stoi(line.value) case Ok(n) => re.(ev := re.ev.(sequence := n)) case Err(_) => re)
    case Link => Ok(re.(ev := re.ev.(url := line.value)))
    case Categories => Ok(re.(ev := re.ev.(categories := UnescapeText(line.value))))
    case StatusOf => Ok(re.(ev := re.ev.(status := ReadStatus(line.value))))
    case DtStart =>
      var t :- ParseIcsDatetime(MakeDatetimeInfo(line.params, line.value), z.vtz, z.local);
      Ok(re.(ev := re.ev.(start := t)))
    case DtEnd =>
      var t :- ParseIcsDatetime(MakeDatetimeInfo(line.params, line.value), z.vtz, z.local);
      Ok(re.(ev := re.ev.(end := t)))
    case Created => Ok(re.(ev := re.ev.(created := ParseStamp(line.value))))
    case LastModified => Ok(re.(ev := re.ev.(lastModified := ParseStamp(line.value))))
    case DtStamp => Ok(re.(ev := re.ev.(stamp := ParseStamp(line.value))))
    case Organizer =>
      Ok(re.(ev := re.ev.(organizer := MailOf(line.value),
                          organizerName := UnescapeText(ParamValue(line.params, "CN")))))
    case RRule =>
      var rule :- RuleOf(line.value);
      Ok(re.(rule := rule, hasRule := true))
    case RecurrenceId => Ok(re.(hasRecurrenceId := true, recurrenceId := RecurrenceIdOf(line.value)))
    case ExDate =>
      var keys := ExdatesIn(Pieces(line.value, ','));
      Ok(re.(exdates := re.exdates + keys, ev := re.ev.(exdates := re.ev.exdates + keys)))
    case OtherProperty => Ok(re)
  }

  // A property sets its own field and no other; only dates and rules can throw.
  lemma PropertyKeepsOthers(re: RawEvent, p: Property, line: ContentLine, z: Zones)
    ensures var r := ApplyProperty(re, p, line, z);
            && (r.Ok? ==> PutBack(r.value, p, re) == re)
            && (r.Err? ==> p.DtStart? || p.DtEnd? || p.RRule?)
  {
    hide ParseIcsDatetime, MakeDatetimeInfo, RuleOf, UnescapeText, RecurrenceIdOf, ReadStatus, ExdatesIn, Trim,
      ParseStamp, Stoi, MailOf, ParamValue, Pieces;
  }

  // What a property throws: what its date or its rule throws.
  lemma PropertyThrows(re: RawEvent, p: Property, line: ContentLine, z: Zones)
    ensures p.DtStart? || p.DtEnd? ==>
      var t := ParseIcsDatetime(MakeDatetimeInfo(line.params, line.value), z.vtz, z.local);
      t.Err? ==> ApplyProperty(re, p, line, z) == Err(t.error)
    ensures p.RRule? && RuleOf(line.value).Err? ==>
      ApplyProperty(re, p, line, z) == Err(RuleOf(line.value).error)
  {
    hide ParseIcsDatetime, MakeDatetimeInfo, RuleOf;
  }

  function ApplyLine(re: RawEvent, text: string, z: Zones): Result<RawEvent> {
    var line := SplitIcsLine(Trim(text));
    if line.key == "" then Ok(re) else ApplyProperty(re, PropertyOf(line.key), line, z)
  }

  // Blanks around a line make no difference.
  lemma LineIsTrimmed(re: RawEvent, before: string, text: string, after: string, z: Zones)
    requires forall c :: c in before + after ==> IsBlank(c)
    ensures ApplyLine(re, before + text + after, z) == ApplyLine(re, text, z)
  {
    hide Trim, SplitIcsLine, ApplyProperty, PropertyOf;
    TrimSkipsBlanks(before, text, after);
  }

  function ApplyLines(lines: seq<string>, z: Zones): Result<RawEvent> {
    if lines == [] then Ok(BLANK_RAW)
    else
      var re :- ApplyLines(lines[..|lines| - 1], z);
      ApplyLine(re, lines[|lines| - 1], z)
  }

  /** The raw event of a VEVENT and its VALARM lines, or the first exception. */
  function BuildOf(lines: seq<string>, alarmLines: seq<string>, z: Zones): Result<RawEvent> {
    var re :- ApplyLines(lines, z);
    var alarms :- AlarmsOf(alarmLines);
    Ok(re.(ev := re.ev.(alarms := re.ev.alarms + alarms)))
  }

  lemma {:induction false} FirstErrorStays(lines: seq<string>, n: nat, z: Zones)
    requires n <= |lines| && ApplyLines(lines[..n], z).Err?
    ensures ApplyLines(lines, z) == ApplyLines(lines[..n], z)
    decreases |lines|
  {
    if n < |lines| {
      assert lines[..|lines| - 1][..n] == lines[..n];
      FirstErrorStays(lines[..|lines| - 1], n, z);
    } else {
      assert lines[..n] == lines;
    }
  }

  /** The first line that throws decides; where none does, the alarm. */
  lemma BuildThrows(lines: seq<string>, alarmLines: seq<string>, z: Zones, n: nat)
    ensures n < |lines| && ApplyLines(lines[..n], z).Ok? && ApplyLine(ApplyLines(lines[..n], z).value, lines[n], z).Err?
      ==> BuildOf(lines, alarmLines, z) == Err(ApplyLine(ApplyLines(lines[..n], z).value, lines[n], z).error)
    ensures ApplyLines(lines, z).Ok? && AlarmsOf(alarmLines).Err? ==>
      BuildOf(lines, alarmLines, z) == Err(AlarmsOf(alarmLines).error)
  {
    hide ApplyLine, AlarmsOf;
    if n < |lines| && ApplyLines(lines[..n], z).Ok?
       && ApplyLine(ApplyLines(lines[..n], z).value, lines[n], z).Err? {
      assert lines[..n + 1][..n] == lines[..n];
      FirstErrorStays(lines, n + 1, z);
    }
  }

  method Build(lines: seq<string>, alarmLines: seq<string>, z: Zones) returns (r: Result<RawEvent>)
    ensures r == BuildOf(lines, alarmLines, z)
  {
    hide SplitIcsLine, PropertyOf, ApplyProperty, AlarmsOf;
    var re := BLANK_RAW;
    for n := 0 to |lines|
      invariant ApplyLines(lines[..n], z) == Ok(re)
    {
      assert lines[..n + 1][..n] == lines[..n];
      var trimmed := Trim(lines[n]);
      if trimmed == "" {
        EmptyLineHasNoKey();
        continue;
      }
      var line := SplitIcsLine(trimmed);
      if line.key == "" {
        continue;
      }
      var next := SetFromLine(re, PropertyOf(line.key), line, z);
      if next.Err? {
        FirstErrorStays(lines, n + 1, z);
        return Err(next.error);
      }
      re := next.value;
    }
    assert lines[..|lines|] == lines;
    var ev := ParseAlarm(alarmLines, re.ev);
    if ev.Err? {
      return Err(ev.error);
    }
    return Ok(re.(ev := ev.value));
  }

  lemma EmptyLineHasNoKey()
    ensures SplitIcsLine("").key == ""
  {
  }

  method ReadExdates(value: string) returns (keys: set<string>)
    ensures keys == ExdatesIn(Pieces(value, ','))
  {
    hide Trim, Pieces;
    keys := {};
    var parts := Pieces(value, ',');
    for i := 0 to |parts|
      invariant keys == ExdatesIn(parts[..i])
    {
      assert parts[..i + 1][..i] == parts[..i];
      var p := Trim(parts[i]);
      if p != "" {
        keys := keys + {p};
      }
    }
    assert parts[..|parts|] == parts;
  }

  /** The branch taken for one property: it sets what the property says and leaves
      everything else as it was; only dates and rules can throw. */
  method SetFromLine(re: RawEvent, p: Property, line: ContentLine, z: Zones) returns (r: Result<RawEvent>)
    ensures r == ApplyProperty(re, p, line, z)
    ensures r.Ok? ==> PutBack(r.value, p, re) == re
    ensures r.Err? ==> p.DtStart? || p.DtEnd? || p.RRule?
  {
    hide ParseIcsDatetime, MakeDatetimeInfo, RuleOf, UnescapeText, RecurrenceIdOf, ReadStatus, ExdatesIn, Trim,
      ParseStamp, Stoi, MailOf, ParamValue, PutBack, Pieces;
    PropertyKeepsOthers(re, p, line, z);
    var next := re;
    match p {
      case Summary =>
        var summary := Unescape(line.value);
        next := next.(ev := next.ev.(summary := Trim(summary)));
      case Details =>
        var description := Unescape(line.value);
        next := next.(ev := next.ev.(description := description));
      case Uid =>
        next := next.(ev := next.ev.(uid := line.value));
      case Place =>
        var location := Unescape(line.value);
        next := next.(ev := next.ev.(location := location));
      case SequenceNo =>
        var n := Stoi(line.value);
        if n.Ok? {
          next := next.(ev := next.ev.(sequence := n.value));
        }
      case Link =>
        next := next.(ev := next.ev.(url := line.value));
      case Categories =>
        var categories := Unescape(line.value);
        next := next.(ev := next.ev.(categories := categories));
      case StatusOf =>
        next := next.(ev := next.ev.(status := ReadStatus(line.value)));
      case DtStart =>
        var t :- ParseIcsDatetime(MakeDatetimeInfo(line.params, line.value), z.vtz, z.local);
        next := next.(ev := next.ev.(start := t));
      case DtEnd =>
        var t :- ParseIcsDatetime(MakeDatetimeInfo(line.params, line.value), z.vtz, z.local);
        next := next.(ev := next.ev.(end := t));
      case Created =>
        next := next.(ev := next.ev.(created := ParseStamp(line.value)));
      case LastModified =>
        next := next.(ev := next.ev.(lastModified := ParseStamp(line.value)));
      case DtStamp =>
        next := next.(ev := next.ev.(stamp := ParseStamp(line.value)));
      case Organizer =>
        next := next.(ev := next.ev.(organizer := MailOf(line.value)));
        var name := Unescape(ParamValue(line.params, "CN"));
        next := next.(ev := next.ev.(organizerName := name));
      case RRule =>
        var rule := ParseRruleData(line.value);
        if rule.Err? {
          return Err(rule.error);
        }
        next := next.(rule := rule.value, hasRule := true);
      case RecurrenceId =>
        next := next.(hasRecurrenceId := true, recurrenceId := RecurrenceIdOf(line.value));
      case ExDate =>
        var keys := ReadExdates(line.value);
        next := next.(exdates := next.exdates + keys, ev := next.ev.(exdates := next.ev.exdates + keys));
      case OtherProperty =>
    }
    return Ok(next);
  }

  // ---- What the values mean ----------------------------------------------

  // The keys that pieces of text stand for.
  function KeysIn(pieces: seq<string>): set<string> {
    set p | p in pieces && Trim(p) != "" :: Trim(p)
  }

  /** A comma-separated EXDATE value yields exactly its pieces, without the blanks around
      them; blank pieces yield nothing. */
  lemma ExdatesReadBack(pieces: seq<string>)
    requires forall p :: p in pieces ==> ',' !in p
    requires pieces != [] ==> pieces[|pieces| - 1] != ""
    ensures ExdatesIn(Pieces(Join(pieces, ','), ',')) == KeysIn(pieces)
    ensures (forall p :: p in pieces ==> IsTrimmed(p)) ==> KeysIn(pieces) == set p | p in pieces
  {
    PiecesOfJoin(pieces, ',');
    ExdatesAreKeys(pieces);
    hide Trim, IsTrimmed, Pieces;
    forall p | p in pieces
      ensures IsTrimmed(p) ==> Trim(p) == p != ""
    {
      TrimmedStays(p);
    }
  }

  lemma TrimmedStays(p: string)
    ensures IsTrimmed(p) ==> Trim(p) == p != ""
  {
    TrimIsIdempotent(p);
  }

  lemma {:induction false} ExdatesAreKeys(pieces: seq<string>)
    ensures ExdatesIn(pieces) == KeysIn(pieces)
  {
    hide Trim;
    if pieces != [] {
      var most, last := pieces[..|pieces| - 1], pieces[|pieces| - 1];
      assert pieces == most + [last];
      ExdatesAreKeys(most);
    }
  }

  /** A date-time EXDATE or RECURRENCE-ID text names the one instant that has it as
      its local wall time, whatever TZID it carries. */
  lemma KeyNamesLocalInstant(tm: Tm, t: int, zone: int)
    requires IsNormal(tm) && 1000 <= tm.year <= 9999
    ensures FormatLocalDt(t, zone) == StampText(tm) <==> t == Mktime(tm, zone)
  {
    hide Gmtime, Mkgmtime, StampText, FormatLocalDt, IsNormal;
    var u := Mktime(tm, zone);
    GmtimeInvertsMkgmtime(tm);
    FormatIsStamp(u, zone);
    if FormatLocalDt(t, zone) == StampText(tm) {
      KeyIsInjective(t, u, zone);
    }
  }

  // The instant that the text names under a TZID of offset `hours`.
  function TzidInstant(tm: Tm, hours: int): int {
    Mkgmtime(tm) - hours * 3600
  }

  /** So a TZID-qualified key hits the instant it means exactly when that zone's
      offset is the local one. */
  lemma TzidKeyHitsIff(tm: Tm, hours: int, zone: int)
    requires IsNormal(tm) && 1000 <= tm.year <= 9999
    ensures IsExcluded(TzidInstant(tm, hours), {StampText(tm)}, zone) <==> zone == hours * 3600
  {
    hide Mkgmtime, StampText, FormatLocalDt, IsNormal;
    KeyNamesLocalInstant(tm, TzidInstant(tm, hours), zone);
  }

  /** A key in the UTC form, ending in Z, excludes nothing. */
  lemma UtcKeyExcludesNothing(key: string, t: int, zone: int)
    requires key != "" && key[|key| - 1] == 'Z'
    ensures !IsExcluded(t, {key}, zone)
  {
    hide Gmtime, PrintInt, IsNormal;
    var tm := Localtime(t, zone);
    var k := FormatLocalDt(t, zone);
    assert k[|k| - 1] == Pad(tm.sec, 2)[1] by {
      assert k[|k| - 1] == ClockText(tm)[10];
    }
  }

  /** A key excludes some instant exactly when it is the printed form of a civil time:
      in particular a date, without a time, excludes none. */
  lemma KeyExcludesIff(key: string, zone: int)
    ensures (exists t :: IsExcluded(t, {key}, zone)) <==> exists tm :: IsNormal(tm) && key == Strftime(tm)
    ensures (exists t :: IsExcluded(t, {key}, zone)) ==> 'T' in key
  {
    hide Gmtime, Mkgmtime, Strftime, IsNormal;
    if t :| IsExcluded(t, {key}, zone) {
      StrftimeHasT(Localtime(t, zone));
      assert IsNormal(Localtime(t, zone)) && key == Strftime(Localtime(t, zone));
    }
    if tm :| IsNormal(tm) && key == Strftime(tm) {
      var t := Mktime(tm, zone);
      GmtimeInvertsMkgmtime(tm);
      assert IsExcluded(t, {key}, zone);
    }
  }

  lemma StrftimeHasT(tm: Tm)
    requires IsNormal(tm)
    ensures 'T' in Strftime(tm)
  {
    var c := ClockText(tm);
    assert c[4] == 'T';
    hide ClockText;
    assert Strftime(tm)[|PrintInt(tm.year)| + 4] == c[4];
  }

  // Only the spelling CANCELED cancels; section 3.8.1.11 of RFC 5545 spells it
  // CANCELLED, which reads as confirmed.
  lemma CanceledIff(value: string)
    ensures ReadStatus(value) == Canceled <==> ToUpper(value) == "CANCELED"
    ensures ReadStatus(value) == Tentative <==> ToUpper(value) == "TENTATIVE"
    ensures ToUpper(value) == "CANCELLED" ==> ReadStatus(value) == Confirmed
  {
    assert |"CANCELLED"| == 9 && |"CANCELED"| == 8 && |"TENTATIVE"| == 9 && "TENTATIVE"[0] == 'T';
  }
}
