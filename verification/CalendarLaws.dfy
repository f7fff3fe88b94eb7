/** Printing a calendar and reading it are inverse, from property values to raw
    events: through folding, the scan, content lines and every value parser. */
module CalendarLaws {
  import opened Results
  import opened Text
  import opened Decimal
  import opened Civil
  import opened DateTime
  import opened Timezone
  import opened TextUtils
  import opened Events
  import opened Rrule
  import opened RruleLaws
  import opened Alarms
  import opened AlarmLaws
  import opened EventBuilder
  import opened Scanner
  import opened Pipeline
  import opened ZoneRecords
  import ZoneLaws = TimezoneLaws

  // The date-time forms of section 3.3.5 of RFC 5545, and a date, with or without its
  // VALUE parameter.
  datatype When = Utc(tm: Tm) | Floating(tm: Tm) | InZone(tm: Tm, tzid: string, rest: string)
    | AllDay(tm: Tm, marked: bool)

  // One property of an event, as a value.
  datatype Prop =
    | SummaryIs(text: string)
    | DetailsAre(text: string)
    | UidIs(uid: string)
    | PlaceIs(text: string)
    | SequenceIs(number: int)
    | OddSequenceIs(text: string)
    | LinkIs(url: string)
    | CategoriesAre(text: string)
    | StatusIs(status: Status)
    | StartsAt(start: When)
    | EndsAt(end: When)
    | CreatedAt(tm: Tm)
    | ModifiedAt(tm: Tm)
    | StampedAt(tm: Tm)
    | OrganizerIs(name: Option<string>, rest: string, prefixed: bool, mail: string)
    | RuleIs(parts: seq<Part>)
    | RecurrenceIdIs(before: string, key: string)
    | ExdatesAre(pieces: seq<string>)
    | OtherIs(key: string, value: string)
    | JunkIs(line: string)

  ghost predicate ValidWhen(w: When) {
    && IsStampable(w.tm)
    && (w.InZone? ==>
          w.tzid != "" && ';' !in w.tzid && ':' !in w.tzid && IsRest(w.rest)
          && FindText("TZID=" + w.tzid + w.rest, "VALUE=DATE") == NPOS)
  }

  // Further parameters.
  predicate IsRest(rest: string) {
    ':' !in rest && (rest == "" || rest[0] == ';')
  }

  predicate IsStampable(tm: Tm) {
    IsNormal(tm) && 0 <= tm.year <= 9999
  }

  ghost predicate ValidProp(p: Prop) {
    match p
    case SequenceIs(n) => INT_MIN <= n <= INT_MAX
    case OddSequenceIs(text) => Stoi(text).Err?
    case StartsAt(w) => ValidWhen(w)
    case EndsAt(w) => ValidWhen(w)
    case CreatedAt(tm) => IsStampable(tm)
    case ModifiedAt(tm) => IsStampable(tm)
    case StampedAt(tm) => IsStampable(tm)
    case OrganizerIs(name, rest, prefixed, mail) =>
      && (match name
          case Some(n) => ';' !in n && ':' !in n && IsRest(rest)
          case None => ':' !in rest && FindText(rest, "CN=") == NPOS)
      && (prefixed || FindText(mail, "mailto:") == NPOS)
    case RuleIs(parts) => forall q :: q in parts ==> ValidPart(q)
    case RecurrenceIdIs(before, key) => ':' !in key && (before == "" || before[|before| - 1] == ':')
    case ExdatesAre(pieces) => pieces != [] && pieces[|pieces| - 1] != "" && forall p :: p in pieces ==> ',' !in p
    case OtherIs(key, _) =>
      ':' !in key && ';' !in key && ToUpper(key) == key && PropertyOf(key) == OtherProperty
    case JunkIs(line) => ':' !in line
    case _ => true
  }

  function StatusText(s: Status): string {
    match s
    case Confirmed => "CONFIRMED"
    case Tentative => "TENTATIVE"
    case Canceled => "CANCELED"
  }

  function KindOf(p: Prop): Property {
    match p
    case SummaryIs(_) => Summary
    case DetailsAre(_) => Details
    case UidIs(_) => Uid
    case PlaceIs(_) => Place
    case SequenceIs(_) => SequenceNo
    case OddSequenceIs(_) => SequenceNo
    case LinkIs(_) => Link
    case CategoriesAre(_) => Categories
    case StatusIs(_) => StatusOf
    case StartsAt(_) => DtStart
    case EndsAt(_) => DtEnd
    case CreatedAt(_) => Created
    case ModifiedAt(_) => LastModified
    case StampedAt(_) => DtStamp
    case OrganizerIs(_, _, _, _) => Organizer
    case RuleIs(_) => RRule
    case RecurrenceIdIs(_, _) => RecurrenceId
    case ExdatesAre(_) => ExDate
    case OtherIs(_, _) => OtherProperty
    case JunkIs(_) => OtherProperty
  }

  function KnownName(q: Property): string {
    match q
    case Summary => "SUMMARY"
    case Details => "DESCRIPTION"
    case Uid => "UID"
    case Place => "LOCATION"
    case SequenceNo => "SEQUENCE"
    case Link => "URL"
    case Categories => "CATEGORIES"
    case StatusOf => "STATUS"
    case DtStart => "DTSTART"
    case DtEnd => "DTEND"
    case Created => "CREATED"
    case LastModified => "LAST-MODIFIED"
    case DtStamp => "DTSTAMP"
    case Organizer => "ORGANIZER"
    case RRule => "RRULE"
    case RecurrenceId => "RECURRENCE-ID"
    case ExDate => "EXDATE"
    case OtherProperty => ""
  }

  function NameOf(p: Prop): string {
    if p.OtherIs? then p.key else KnownName(KindOf(p))
  }

  function WhenParams(w: When): string {
    match w
    case InZone(_, tzid, rest) => "TZID=" + tzid + rest
    case AllDay(_, true) => "VALUE=DATE"
    case _ => ""
  }

  function WhenValue(w: When): string
    requires ValidWhen(w)
  {
    match w
    case Utc(tm) => StampText(tm) + "Z"
    case AllDay(tm, _) => DateText(tm)
    case _ => StampText(w.tm)
  }

  function ParamsOf(p: Prop): string {
    match p
    case StartsAt(w) => WhenParams(w)
    case EndsAt(w) => WhenParams(w)
    case OrganizerIs(Some(name), rest, _, _) => "CN=" + EscapeText(name) + rest
    case OrganizerIs(None, rest, _, _) => rest
    case _ => ""
  }

  function PropValue(p: Prop): string
    requires ValidProp(p)
  {
    match p
    case SummaryIs(text) => EscapeText(text)
    case DetailsAre(text) => EscapeText(text)
    case UidIs(uid) => uid
    case PlaceIs(text) => EscapeText(text)
    case SequenceIs(n) => PrintInt(n)
    case OddSequenceIs(text) => text
    case LinkIs(url) => url
    case CategoriesAre(text) => EscapeText(text)
    case StatusIs(s) => StatusText(s)
    case StartsAt(w) => WhenValue(w)
    case EndsAt(w) => WhenValue(w)
    case CreatedAt(tm) => StampText(tm) + "Z"
    case ModifiedAt(tm) => StampText(tm) + "Z"
    case StampedAt(tm) => StampText(tm) + "Z"
    case OrganizerIs(_, _, prefixed, mail) => (if prefixed then "mailto:" else "") + mail
    case RuleIs(parts) => RuleText(parts)
    case RecurrenceIdIs(before, key) => before + key
    case ExdatesAre(pieces) => Join(pieces, ',')
    case OtherIs(_, value) => value
    case JunkIs(_) => ""
  }

  // The content line a property is printed as.
  function LineOf(p: Prop): ContentLine
    requires ValidProp(p)
  {
    ContentLine(NameOf(p), ParamsOf(p), PropValue(p))
  }

  function LineText(line: ContentLine): string {
    if line.params == "" then line.key + ":" + line.value
    else line.key + ";" + line.params + ":" + line.value
  }

  function PropText(p: Prop): string
    requires ValidProp(p)
  {
    if p.JunkIs? then p.line else LineText(LineOf(p))
  }

  // ---- What a property says ----------------------------------------------

  function InstantOf(w: When, z: Zones): int {
    match w
    case Utc(tm) => TimePoint(Mkgmtime(tm))
    case Floating(tm) => TimePoint(Mktime(tm, z.local))
    case AllDay(tm, _) => TimePoint(Mktime(MidnightOfDate(tm), z.local))
    case InZone(tm, tzid, _) =>
      var hours := OffsetHours(z.vtz, tzid);
      TimePoint(if hours == UNKNOWN_OFFSET then Mktime(tm, z.local) else Mkgmtime(tm) - hours * 3600)
  }

  function Say(re: RawEvent, p: Prop, z: Zones): RawEvent {
    match p
    case SummaryIs(text) => re.(ev := re.ev.(summary := Trim(text)))
    case DetailsAre(text) => re.(ev := re.ev.(description := text))
    case UidIs(uid) => re.(ev := re.ev.(uid := uid))
    case PlaceIs(text) => re.(ev := re.ev.(location := text))
    case SequenceIs(n) => re.(ev := re.ev.(sequence := n))
    case OddSequenceIs(_) => re
    case LinkIs(url) => re.(ev := re.ev.(url := url))
    case CategoriesAre(text) => re.(ev := re.ev.(categories := text))
    case StatusIs(s) => re.(ev := re.ev.(status := s))
    case StartsAt(w) => re.(ev := re.ev.(start := InstantOf(w, z)))
    case EndsAt(w) => re.(ev := re.ev.(end := InstantOf(w, z)))
    case CreatedAt(tm) => re.(ev := re.ev.(created := TimePoint(Mkgmtime(tm))))
    case ModifiedAt(tm) => re.(ev := re.ev.(lastModified := TimePoint(Mkgmtime(tm))))
    case StampedAt(tm) => re.(ev := re.ev.(stamp := TimePoint(Mkgmtime(tm))))
    case OrganizerIs(name, _, _, mail) =>
      re.(ev := re.ev.(organizer := mail, organizerName := if name.Some? then name.value else ""))
    case RuleIs(parts) => re.(rule := Spelled(parts), hasRule := true)
    case RecurrenceIdIs(_, key) => re.(hasRecurrenceId := true, recurrenceId := key)
    case ExdatesAre(pieces) =>
      re.(exdates := re.exdates + KeysIn(pieces), ev := re.ev.(exdates := re.ev.exdates + KeysIn(pieces)))
    case OtherIs(_, _) => re
    case JunkIs(_) => re
  }

  /** The raw event a list of properties describes: of repeated ones the last,
      except that excluded dates add up. */
  function Described(props: seq<Prop>, z: Zones): RawEvent {
    if props == [] then BLANK_RAW
    else Say(Described(props[..|props| - 1], z), props[|props| - 1], z)
  }

  // ---- One line ----------------------------------------------------------

  lemma WhenReadsBack(w: When, z: Zones)
    requires ValidWhen(w)
    ensures ParseIcsDatetime(MakeDatetimeInfo(WhenParams(w), WhenValue(w)), z.vtz, z.local) == Ok(InstantOf(w, z))
  {
    hide StampText, Mkgmtime, MakeDatetimeInfo, ReadWall, ReadDate, IsNormal, OffsetHours, DateText, MidnightOfDate;
    var s := StampText(w.tm);
    StampEndsInDigit(w.tm);
    assert s + "" == s;
    ReadWallInvertsStampText(w.tm, "");
    ReadWallInvertsStampText(w.tm, "Z");
    match w {
      case Utc(tm) => UtcInfo(s);
      case Floating(tm) => LocalInfo(s);
      case InZone(tm, tzid, rest) => TzidInfoBefore(tzid, rest, s);
      case AllDay(tm, marked) => DateReadsBack(tm, marked, z.vtz, z.local);
    }
  }

  lemma UtcInfo(value: string)
    requires |value| >= 15
    ensures MakeDatetimeInfo("", value + "Z") == DatetimeInfo("", false, true, value + "Z")
  {
  }

  lemma StatusReadsBack(s: Status)
    ensures ReadStatus(StatusText(s)) == s
  {
    assert ToUpper(StatusText(s)) == StatusText(s);
  }

  // The names are taken in two halves, to keep each proof short.
  predicate IsEarly(q: Property) {
    q.Summary? || q.Details? || q.Uid? || q.Place? || q.SequenceNo? || q.Link? || q.Categories? || q.StatusOf?
    || q.DtStart?
  }

  lemma EarlyNameIsKnown(q: Property)
    requires IsEarly(q)
    ensures var name := KnownName(q); ':' !in name && ';' !in name && ToUpper(name) == name
  {
  }

  lemma LateNameIsKnown(q: Property)
    requires !IsEarly(q)
    ensures var name := KnownName(q); ':' !in name && ';' !in name && ToUpper(name) == name
  {
  }

  lemma EarlyNameIsRead(q: Property)
    requires IsEarly(q)
    ensures PropertyOf(KnownName(q)) == q
  {
  }

  lemma LateNameIsRead(q: Property)
    requires !IsEarly(q)
    ensures PropertyOf(KnownName(q)) == q
  {
  }

  lemma KnownNameIsRead(q: Property)
    ensures var name := KnownName(q);
            ':' !in name && ';' !in name && ToUpper(name) == name && PropertyOf(name) == q
  {
    hide KnownName, PropertyOf, ToUpper, IsEarly;
    if IsEarly(q) {
      EarlyNameIsKnown(q);
      EarlyNameIsRead(q);
    } else {
      LateNameIsKnown(q);
      LateNameIsRead(q);
    }
  }

  lemma NamesRead(p: Prop)
    requires ValidProp(p)
    ensures var name := NameOf(p);
            ':' !in name && ';' !in name && ToUpper(name) == name && PropertyOf(name) == KindOf(p)
  {
    hide KnownName, PropertyOf, ToUpper, IsNormal;
    KnownNameIsRead(KindOf(p));
  }

  lemma ParamsArePlain(p: Prop)
    requires ValidProp(p)
    ensures ':' !in ParamsOf(p)
  {
    hide EscapeText;
    if p.OrganizerIs? && p.name.Some? {
      EscapedHasNoSemicolon(p.name.value);
    }
  }

  lemma SplitPrinted(p: Prop)
    requires ValidProp(p)
    ensures SplitIcsLine(PropText(p)) == LineOf(p)
  {
    hide NameOf, SplitIcsLine, ValidProp, ParamsOf, PropValue, PropertyOf;
    NamesRead(p);
    ParamsArePlain(p);
    if p.JunkIs? {
      JunkSplits(p);
      return;
    }
    SplitInvertsPrint(NameOf(p), ParamsOf(p), PropValue(p));
  }

  lemma JunkSplits(p: Prop)
    requires ValidProp(p) && p.JunkIs?
    ensures SplitIcsLine(PropText(p)) == LineOf(p)
  {
  }

  // The key is what follows the last colon.
  lemma KeyIsLast(before: string, key: string)
    requires ':' !in key && (before == "" || before[|before| - 1] == ':')
    ensures RecurrenceIdOf(before + key) == key
  {
    var p := FindLast(before + key, ':');
    assert forall i :: |before| <= i < |before + key| ==> (before + key)[i] in key;
    assert before != "" ==> (before + key)[|before| - 1] == ':';
    assert p == |before| - 1;
  }

  lemma NameReadsBack(name: string, rest: string)
    requires ';' !in name && ':' !in name && IsRest(rest)
    ensures UnescapeText(ParamValue("CN=" + EscapeText(name) + rest, "CN")) == name
  {
    hide EscapeText, UnescapeText, ParamValue;
    UnescapeInvertsEscape(name);
    EscapedHasNoSemicolon(name);
    ParamReads(EscapeText(name), rest);
  }

  lemma ParamReads(value: string, rest: string)
    requires ';' !in value && (rest == "" || rest[0] == ';')
    ensures ParamValue("CN=" + value + rest, "CN") == value
  {
    hide FindText, Find;
    var p, tail := "CN=" + value + rest, value + rest;
    assert "CN" + "=" == "CN=" && p[..3] == "CN=" && p[3..] == tail && p[0..] == p;
    assert OccursAt(p, "CN=", 0);
    FindBehind(value, rest, ';');
    FirstIs(rest, ';');
    assert tail[..|value|] == value && (rest == "" ==> tail == value);
  }

  lemma NoNameReads(rest: string)
    requires FindText(rest, "CN=") == NPOS
    ensures UnescapeText(ParamValue(rest, "CN")) == ""
  {
    assert "CN" + "=" == "CN=";
  }

  lemma MailReadsBack(mail: string)
    ensures MailOf("mailto:" + mail) == mail
    ensures FindText(mail, "mailto:") == NPOS ==> MailOf("" + mail) == mail
  {
    var m := "mailto:" + mail;
    assert m[..7] == "mailto:" && m[7..] == mail && m[0..] == m;
    assert OccursAt(m, "mailto:", 0);
    assert "" + mail == mail;
  }

  lemma {:induction false} EscapedHasNoSemicolon(name: string)
    requires ';' !in name && ':' !in name
    ensures ';' !in EscapeText(name) && ':' !in EscapeText(name)
  {
    if name != "" {
      assert name[0] in name;
      EscapedHasNoSemicolon(name[1..]);
    }
  }

  lemma SequenceReadsBack(n: int)
    requires INT_MIN <= n <= INT_MAX
    ensures Stoi(PrintInt(n)) == Ok(n)
  {
    ReadPrinted(n, INT_MIN, INT_MAX);
  }

  // The properties by the kind of their value, to keep each proof short.
  predicate IsTime(p: Prop) {
    p.StartsAt? || p.EndsAt? || p.CreatedAt? || p.ModifiedAt? || p.StampedAt?
  }

  predicate IsPlainValue(p: Prop) {
    || p.SummaryIs? || p.DetailsAre? || p.UidIs? || p.PlaceIs? || p.SequenceIs? || p.OddSequenceIs? || p.LinkIs?
    || p.CategoriesAre? || p.StatusIs?
  }

  lemma MomentReadsBack(re: RawEvent, p: Prop, z: Zones)
    requires ValidProp(p) && IsTime(p)
    ensures ApplyProperty(re, KindOf(p), LineOf(p), z) == Ok(Say(re, p, z))
  {
    hide NameOf, PropertyOf, ToUpper, EscapeText, UnescapeText, StatusText, ReadStatus, RuleText, RuleOf, Spelled, Join,
      Pieces, ExdatesIn, KeysIn, WhenValue, WhenParams, InstantOf, ParseIcsDatetime, MakeDatetimeInfo, Trim,
      RecurrenceIdOf, IsNormal, PutBack, ParseStamp, StampText, Mkgmtime, Stoi, PrintInt, MailOf, ParamValue;
    match p {
      case StartsAt(w) => WhenReadsBack(w, z);
      case EndsAt(w) => WhenReadsBack(w, z);
      case CreatedAt(tm) => StampReadsBack(tm, z.vtz, z.local);
      case ModifiedAt(tm) => StampReadsBack(tm, z.vtz, z.local);
      case StampedAt(tm) => StampReadsBack(tm, z.vtz, z.local);
    }
  }

  lemma PlainValueReadsBack(re: RawEvent, p: Prop, z: Zones)
    requires ValidProp(p) && IsPlainValue(p)
    ensures ApplyProperty(re, KindOf(p), LineOf(p), z) == Ok(Say(re, p, z))
  {
    hide NameOf, PropertyOf, ToUpper, EscapeText, UnescapeText, StatusText, ReadStatus, RuleText, RuleOf, Spelled, Join,
      Pieces, ExdatesIn, KeysIn, WhenValue, WhenParams, InstantOf, ParseIcsDatetime, MakeDatetimeInfo, Trim,
      RecurrenceIdOf, IsNormal, PutBack, ParseStamp, StampText, Mkgmtime, Stoi, PrintInt, MailOf, ParamValue;
    match p {
      case SummaryIs(text) => UnescapeInvertsEscape(text);
      case DetailsAre(text) => UnescapeInvertsEscape(text);
      case UidIs(_) =>
      case PlaceIs(text) => UnescapeInvertsEscape(text);
      case SequenceIs(n) => SequenceReadsBack(n);
      case OddSequenceIs(_) =>
      case LinkIs(_) =>
      case CategoriesAre(text) => UnescapeInvertsEscape(text);
      case StatusIs(s) => StatusReadsBack(s);
    }
  }

  lemma OrganizerReadsBack(re: RawEvent, p: Prop, z: Zones)
    requires ValidProp(p) && p.OrganizerIs?
    ensures ApplyProperty(re, Organizer, LineOf(p), z) == Ok(Say(re, p, z))
  {
    hide NameOf, PropertyOf, EscapeText, UnescapeText, MailOf, ParamValue, FindText, PutBack;
    MailReadsBack(p.mail);
    match p.name {
      case Some(n) => NameReadsBack(n, p.rest);
      case None => NoNameReads(p.rest);
    }
  }

  lemma RuleReadsBack(re: RawEvent, p: Prop, z: Zones)
    requires ValidProp(p) && p.RuleIs?
    ensures ApplyProperty(re, RRule, LineOf(p), z) == Ok(Say(re, p, z))
  {
    hide NameOf, PropertyOf, RuleText, RuleOf, Spelled, PutBack, ValidPart;
    ParseInvertsPrint(p.parts);
  }

  lemma KeyReadsBack(re: RawEvent, p: Prop, z: Zones)
    requires ValidProp(p) && p.RecurrenceIdIs?
    ensures ApplyProperty(re, RecurrenceId, LineOf(p), z) == Ok(Say(re, p, z))
  {
    hide NameOf, PropertyOf, ToUpper, RecurrenceIdOf, PutBack;
    KeyIsLast(p.before, p.key);
  }

  lemma PiecesReadBack(re: RawEvent, p: Prop, z: Zones)
    requires ValidProp(p) && p.ExdatesAre?
    ensures ApplyProperty(re, ExDate, LineOf(p), z) == Ok(Say(re, p, z))
  {
    hide NameOf, PropertyOf, ToUpper, Join, Pieces, ExdatesIn, KeysIn, PutBack, IsTrimmed;
    ExdatesReadBack(p.pieces);
  }

  lemma NothingReads(re: RawEvent, p: Prop, z: Zones)
    requires ValidProp(p) && (p.OtherIs? || p.JunkIs?)
    ensures ApplyProperty(re, OtherProperty, LineOf(p), z) == Ok(Say(re, p, z))
  {
    hide NameOf, PropertyOf, ToUpper;
  }

  // Reading one printed value sets what it says.
  lemma ValueReadsBack(re: RawEvent, p: Prop, z: Zones)
    requires ValidProp(p)
    ensures ApplyProperty(re, KindOf(p), LineOf(p), z) == Ok(Say(re, p, z))
  {
    hide ValidProp, LineOf, ApplyProperty, Say;
    if IsTime(p) {
      MomentReadsBack(re, p, z);
    } else if IsPlainValue(p) {
      PlainValueReadsBack(re, p, z);
    } else if p.OrganizerIs? {
      OrganizerReadsBack(re, p, z);
    } else if p.RuleIs? {
      RuleReadsBack(re, p, z);
    } else if p.RecurrenceIdIs? {
      KeyReadsBack(re, p, z);
    } else if p.ExdatesAre? {
      PiecesReadBack(re, p, z);
    } else {
      NothingReads(re, p, z);
    }
  }

  lemma LineReadsBack(re: RawEvent, p: Prop, z: Zones)
    requires ValidProp(p) && IsTrimmed(PropText(p))
    ensures ApplyLine(re, PropText(p), z) == Ok(Say(re, p, z))
  {
    NamelessSaysNothing(re, p, z);
    hide PropText, SplitIcsLine, NameOf, PropertyOf, ApplyProperty, Say, Trim, ValidProp, ParamsOf, PropValue, KindOf;
    NamesRead(p);
    TrimIsIdempotent(PropText(p));
    SplitPrinted(p);
    ValueReadsBack(re, p, z);
  }

  lemma NamelessSaysNothing(re: RawEvent, p: Prop, z: Zones)
    requires ValidProp(p)
    ensures NameOf(p) == "" ==> Say(re, p, z) == re
  {
    hide PropertyOf, ToUpper, KnownName, ValidProp;
    if !p.OtherIs? && !p.JunkIs? {
      KnownNameIsNotEmpty(KindOf(p));
    }
  }

  lemma KnownNameIsNotEmpty(q: Property)
    requires !q.OtherProperty?
    ensures KnownName(q) != ""
  {
  }

  // ---- Whole events ------------------------------------------------------

  /** Properties whose printed lines can stand in an event: no blank at their end,
      and no line that is itself a marker. */
  ghost predicate ValidProps(props: seq<Prop>) {
    forall i :: 0 <= i < |props| ==> ValidProp(props[i]) && IsBodyLine(PropText(props[i]))
  }

  function PropLines(props: seq<Prop>): (r: seq<string>)
    requires ValidProps(props)
    ensures |r| == |props|
    ensures forall i :: 0 <= i < |props| ==> r[i] == PropText(props[i])
  {
    seq(|props|, i requires 0 <= i < |props| => PropText(props[i]))
  }

  lemma {:induction false} PropsReadBack(props: seq<Prop>, z: Zones)
    requires ValidProps(props)
    ensures ApplyLines(PropLines(props), z) == Ok(Described(props, z))
  {
    hide PropText, ApplyLine, Say, ValidProp, NameOf, IsBodyLine;
    if props != [] {
      var most, last := props[..|props| - 1], props[|props| - 1];
      PropsReadBack(most, z);
      assert PropLines(props)[..|props| - 1] == PropLines(most);
      assert IsBodyLine(PropText(last));
      LastLineReadsBack(Described(most, z), last, z);
    }
  }

  lemma LastLineReadsBack(re: RawEvent, p: Prop, z: Zones)
    requires ValidProp(p) && IsBodyLine(PropText(p))
    ensures ApplyLine(re, PropText(p), z) == Ok(Say(re, p, z))
  {
    hide PropText, ApplyLine, Say, ValidProp, NameOf;
    LineReadsBack(re, p, z);
  }

  // ---- Whole calendars ---------------------------------------------------

  /** An event to print: the lines before it, its properties, then its alarms. */
  datatype Doc = Doc(before: seq<string>, props: seq<Prop>, alarms: seq<seq<AlarmProp>>)

  ghost predicate ValidDoc(d: Doc) {
    && (forall i :: 0 <= i < |d.before| ==> IsOutsideLine(d.before[i]))
    && ValidProps(d.props)
    && (forall i :: 0 <= i < |d.alarms| ==>
          ValidAlarm(d.alarms[i]) && forall k :: 0 <= k < |d.alarms[i]| ==> IsBodyLine(AlarmLines(d.alarms[i])[k]))
  }

  function PropItems(props: seq<Prop>): (r: seq<Item>)
    requires ValidProps(props)
    ensures |r| == |props|
  {
    seq(|props|, i requires 0 <= i < |props| => Line(PropText(props[i])))
  }

  function AlarmItems(alarms: seq<seq<AlarmProp>>): (r: seq<Item>)
    ensures |r| == |alarms|
  {
    seq(|alarms|, i requires 0 <= i < |alarms| => AlarmBlock(AlarmLines(alarms[i])))
  }

  function VeventOf(d: Doc): Vevent
    requires ValidDoc(d)
  {
    Vevent(d.before, PropItems(d.props) + AlarmItems(d.alarms))
  }

  /** The raw event of a document: its properties, and its last alarm. */
  function DescribedEvent(d: Doc, z: Zones): RawEvent {
    var re := Described(d.props, z);
    re.(ev := re.ev.(alarms := if d.alarms == [] then [] else DescribedAlarms(d.alarms[|d.alarms| - 1])))
  }

  // Events without a property line or without a UID are dropped.
  function DescribedAll(docs: seq<Doc>, z: Zones): seq<RawEvent> {
    if docs == [] then []
    else
      (if docs[0].props == [] || DescribedEvent(docs[0], z).ev.uid == "" then [] else [DescribedEvent(docs[0], z)])
      + DescribedAll(docs[1..], z)
  }

  lemma {:induction false} PropItemLines(props: seq<Prop>)
    requires ValidProps(props)
    ensures EventLines(PropItems(props)) == PropLines(props) && LastAlarm(PropItems(props)) == []
  {
    hide PropText, ValidProp, NameOf, IsBodyLine;
    if props != [] {
      var most := props[..|props| - 1];
      PropItemLines(most);
      assert PropItems(props)[..|props| - 1] == PropItems(most);
      assert PropLines(props) == PropLines(most) + [PropText(props[|props| - 1])];
    }
  }

  lemma {:induction false} AlarmItemLines(items: seq<Item>, alarms: seq<seq<AlarmProp>>)
    ensures EventLines(items + AlarmItems(alarms)) == EventLines(items)
    ensures LastAlarm(items + AlarmItems(alarms))
         == if alarms == [] then LastAlarm(items) else AlarmLines(alarms[|alarms| - 1])
  {
    hide AlarmLines;
    if alarms == [] {
      assert items + AlarmItems(alarms) == items;
    } else {
      var most := alarms[..|alarms| - 1];
      var all := items + AlarmItems(alarms);
      assert all[..|all| - 1] == items + AlarmItems(most);
      assert all[|all| - 1] == AlarmBlock(AlarmLines(alarms[|alarms| - 1]));
      AlarmItemLines(items, most);
    }
  }

  lemma SayKeepsAlarms(re: RawEvent, p: Prop, z: Zones)
    ensures Say(re, p, z).ev.alarms == re.ev.alarms
  {
    hide InstantOf, Spelled, KeysIn, Trim, Mkgmtime;
  }

  lemma {:induction false} DescribedHasNoAlarms(props: seq<Prop>, z: Zones)
    ensures Described(props, z).ev.alarms == []
  {
    hide Say;
    if props != [] {
      var most := props[..|props| - 1];
      DescribedHasNoAlarms(most, z);
      SayKeepsAlarms(Described(most, z), props[|props| - 1], z);
    }
  }

  // The lines of a document build what it describes.
  lemma DocReadsBack(d: Doc, z: Zones)
    requires ValidDoc(d)
    ensures var items := VeventOf(d).items;
            && EventLines(items) == PropLines(d.props)
            && BuildOf(EventLines(items), LastAlarm(items), z) == Ok(DescribedEvent(d, z))
  {
    hide PropItems, AlarmItems, PropLines, ApplyLines, AlarmsOf, Described, DescribedAlarms, AlarmLines, ValidAlarm,
      IsBodyLine;
    PropItemLines(d.props);
    AlarmItemLines(PropItems(d.props), d.alarms);
    PropsReadBack(d.props, z);
    DescribedHasNoAlarms(d.props, z);
    var re := Described(d.props, z);
    if d.alarms == [] {
      NoAlarmLines();
      assert re.ev.alarms + [] == [];
    } else {
      var a := d.alarms[|d.alarms| - 1];
      BodyLinesAreTrimmed(AlarmLines(a));
      AlarmReadsBack(a);
      assert re.ev.alarms + DescribedAlarms(a) == DescribedAlarms(a);
    }
  }

  lemma NoAlarmLines()
    ensures AlarmsOf([]) == Ok([])
  {
  }

  lemma BodyLinesAreTrimmed(lines: seq<string>)
    requires forall i :: 0 <= i < |lines| ==> IsBodyLine(lines[i])
    ensures forall i :: 0 <= i < |lines| ==> IsTrimmed(lines[i])
  {
  }

  lemma RawsOfPrefix(blocks: seq<Block>, b: Block, z: Zones)
    requires RawsOf(blocks + [b], z).Ok?
    ensures RawsOf(blocks, z).Ok? && BuildOf(b.event, b.alarm, z).Ok?
  {
  }

  lemma {:induction false} RawsJoin(a: seq<Block>, b: seq<Block>, z: Zones)
    requires RawsOf(a, z).Ok? && RawsOf(b, z).Ok?
    ensures RawsOf(a + b, z) == Ok(RawsOf(a, z).value + RawsOf(b, z).value)
  {
    hide BuildOf, RawsOf;
    if b == [] {
      NoRaws(z);
      assert a + b == a && RawsOf(a, z).value + [] == RawsOf(a, z).value;
    } else {
      var most, last := b[..|b| - 1], b[|b| - 1];
      assert b == most + [last] && a + b == (a + most) + [last];
      RawsOfPrefix(most, last, z);
      RawsJoin(a, most, z);
      RawsAppend(most, last, z);
      RawsAppend(a + most, last, z);
      var x, y, e := RawsOf(a, z).value, RawsOf(most, z).value, BuildOf(last.event, last.alarm, z).value;
      assert (x + y) + [e] == x + (y + [e]);
    }
  }

  function VeventsOf(docs: seq<Doc>): (r: seq<Vevent>)
    requires forall i :: 0 <= i < |docs| ==> ValidDoc(docs[i])
    ensures |r| == |docs|
  {
    seq(|docs|, i requires 0 <= i < |docs| => VeventOf(docs[i]))
  }

  // One document's block.
  lemma DocRaws(d: Doc, z: Zones)
    requires ValidDoc(d)
    ensures RawsOf(PrintedBlocks([VeventOf(d)]), z) == Ok(DescribedAll([d], z))
  {
    DocReadsBack(d, z);
    hide VeventOf, PropLines, BuildOf, EventLines, LastAlarm, DescribedEvent, RawsOf, PrintedBlocks, DescribedAll;
    var v := VeventOf(d);
    OneBlock(v);
    OneDescribed(d, z);
    NoRaws(z);
    if d.props != [] {
      OneRaw(Block(EventLines(v.items), LastAlarm(v.items)), z);
    }
  }

  lemma OneRaw(b: Block, z: Zones)
    requires BuildOf(b.event, b.alarm, z).Ok?
    ensures var re := BuildOf(b.event, b.alarm, z).value;
            RawsOf([b], z) == Ok(if re.ev.uid == "" then [] else [re])
  {
    hide BuildOf, RawsOf;
    NoRaws(z);
    assert [b] == [] + [b];
    RawsAppend([], b, z);
    var re := BuildOf(b.event, b.alarm, z).value;
    assert [] + [re] == [re];
  }

  lemma OneBlock(v: Vevent)
    ensures PrintedBlocks([v])
         == if EventLines(v.items) == [] then [] else [Block(EventLines(v.items), LastAlarm(v.items))]
  {
  }

  lemma OneDescribed(d: Doc, z: Zones)
    ensures DescribedAll([d], z)
         == if d.props == [] || DescribedEvent(d, z).ev.uid == "" then [] else [DescribedEvent(d, z)]
  {
  }

  lemma DescribedNothing(z: Zones)
    ensures DescribedAll([], z) == []
  {
  }

  lemma DescribedSplits(docs: seq<Doc>, z: Zones)
    requires docs != []
    ensures DescribedAll(docs, z) == DescribedAll([docs[0]], z) + DescribedAll(docs[1..], z)
  {
    hide DescribedEvent;
    var one := [docs[0]];
    assert one[1..] == [];
    DescribedNothing(z);
    var e := DescribedEvent(docs[0], z);
    var first := if docs[0].props == [] || e.ev.uid == "" then [] else [e];
    assert DescribedAll(one, z) == first + [] == first;
  }

  lemma {:induction false} DocsReadBack(docs: seq<Doc>, z: Zones)
    requires forall i :: 0 <= i < |docs| ==> ValidDoc(docs[i])
    ensures RawsOf(PrintedBlocks(VeventsOf(docs)), z) == Ok(DescribedAll(docs, z))
  {
    hide ValidDoc, VeventOf, BuildOf, RawsOf, DescribedAll, PrintedBlocks;
    DescribedNothing(z);
    PrintedNothing();
    if docs == [] {
      NoRaws(z);
    } else {
      var vs := VeventsOf(docs);
      DocRaws(docs[0], z);
      DocsReadBack(docs[1..], z);
      assert vs[1..] == VeventsOf(docs[1..]) && vs[0] == VeventOf(docs[0]);
      PrintedSplits(vs);
      RawsJoin(PrintedBlocks([vs[0]]), PrintedBlocks(vs[1..]), z);
      DescribedSplits(docs, z);
    }
  }

  lemma DocIsVevent(d: Doc)
    requires ValidDoc(d)
    ensures ValidVevent(VeventOf(d))
  {
    hide IsBodyLine, IsOutsideLine, ValidProp, NameOf, PropText, ValidAlarm;
    var items := VeventOf(d).items;
    forall i | 0 <= i < |items|
      ensures ValidItem(items[i])
    {
      if i < |d.props| {
        assert items[i] == Line(PropText(d.props[i]));
      } else {
        assert items[i] == AlarmBlock(AlarmLines(d.alarms[i - |d.props|]));
      }
    }
  }

  /** Print any events from their values, fold the text anywhere: reading it gives
      back the raw events described, with every property in whatever order, every
      form of date, rule and alarm. */
  lemma CalendarReadsBack(docs: seq<Doc>, after: seq<string>, fs: seq<Folding>, zone: int)
    requires forall i :: 0 <= i < |docs| ==> ValidDoc(docs[i])
    requires forall i :: 0 <= i < |after| ==> IsOutsideLine(after[i])
    requires ValidFile(fs) && Contents(fs) == CalendarLines(VeventsOf(docs), after)
    ensures var text := FoldedText(fs);
            RawEventsOf(text, zone) == Ok(DescribedAll(docs, Zones(VtzOffsets(text), zone)))
  {
    hide ValidDoc, IsOutsideLine, ValidFile, Contents, CalendarLines, FoldedText, UnfoldText, Lines, BlocksOf, RawsOf,
      PrintedBlocks, DescribedAll, VtzOffsets, VeventOf;
    forall i | 0 <= i < |docs|
      ensures ValidVevent(VeventsOf(docs)[i])
    {
      DocIsVevent(docs[i]);
    }
    ScanInvertsFoldedPrint(VeventsOf(docs), after, fs);
    DocsReadBack(docs, Zones(VtzOffsets(FoldedText(fs)), zone));
  }

  /** With any VTIMEZONE components between the events, folded anywhere but in their
      own lines, the dates in those zones are read by the offsets they state. */
  lemma CalendarWithZonesReadsBack(docs: seq<Doc>, after: seq<string>, zones: seq<ZoneLaws.Zone>, rest: seq<string>,
                                   fs: seq<Folding>, zone: int)
    requires forall i :: 0 <= i < |docs| ==> ValidDoc(docs[i])
    requires forall i :: 0 <= i < |after| ==> IsOutsideLine(after[i])
    requires forall i :: 0 <= i < |zones| ==> ZoneLaws.ValidZone(zones[i])
    requires forall i :: 0 <= i < |rest| ==> ZoneLaws.IsBetween(rest[i])
    requires ValidFile(fs) && ZoneLaws.FoldedUnseen(false, fs)
    requires Contents(fs) == CalendarLines(VeventsOf(docs), after) && Contents(fs) == ZoneLaws.ZonesText(zones, rest)
    ensures RawEventsOf(FoldedText(fs), zone)
         == Ok(DescribedAll(docs, Zones(ZoneLaws.RecordAll(map[], zones), zone)))
  {
    hide ValidDoc, IsOutsideLine, ValidFile, Contents, CalendarLines, FoldedText, DescribedAll, VtzOffsets, VeventsOf,
      RawEventsOf, ZoneLaws.ValidZone, ZoneLaws.IsBetween, ZoneLaws.FoldedUnseen, ZoneLaws.ZonesText,
      ZoneLaws.RecordAll;
    CalendarReadsBack(docs, after, fs, zone);
    ZoneLaws.FoldedZonesReadBack(fs, zones, rest);
  }

  // ---- Times in the calendar's own zones ---------------------------------

  /** A wall time is shifted by the standard offset of the last component of the text
      that ends with the name of its zone and a known one. */
  lemma DefinedZoneReads(ics: string, tm: Tm, name: string, hours: int, i: nat, e: nat, zone: int)
    requires IsNormal(tm) && 0 <= tm.year <= 9999 && IsTzid(name)
    requires IsLastRecord(ZoneLines(ics), |ZoneLines(ics)|, name, hours, i, e)
    ensures ParseIcsDatetime(MakeDatetimeInfo("TZID=" + name, StampText(tm)), VtzOffsets(ics), zone)
         == Ok(TimePoint(Mkgmtime(tm) - 3600 * hours))
  {
    LastRecordIsKnown(ZoneLines(ics), |ZoneLines(ics)|, name, hours, i, e);
    hide *;
    ZonesAreLastRecords(ics, name, hours);
    KnownZoneReads(tm, name, VtzOffsets(ics), hours, zone);
  }

  lemma KnownZoneReads(tm: Tm, name: string, vtz: map<string, int>, hours: int, zone: int)
    requires IsNormal(tm) && 0 <= tm.year <= 9999 && IsTzid(name)
    requires name in vtz && vtz[name] == hours && hours != UNKNOWN_OFFSET
    ensures ParseIcsDatetime(MakeDatetimeInfo("TZID=" + name, StampText(tm)), vtz, zone)
         == Ok(TimePoint(Mkgmtime(tm) - 3600 * hours))
  {
    hide *;
    ZonedTimeReads(tm, name, vtz, zone);
  }

  lemma LastRecordIsKnown(lines: seq<ZoneLine>, n: nat, name: string, hours: int, i: nat, e: nat)
    requires IsLastRecord(lines, n, name, hours, i, e)
    ensures hours != UNKNOWN_OFFSET
  {
  }

  /** What a printed time in a zone means beside printed components: the standard
      offset of the last component of that name that has a known one. */
  lemma ZonedInstantIs(tm: Tm, name: string, zones: seq<ZoneLaws.Zone>, i: nat, local: int)
    requires IsTzid(name) && ZoneLaws.IsLastNamed(zones, name, i)
    ensures InstantOf(InZone(tm, name, ""), Zones(ZoneLaws.RecordAll(map[], zones), local))
         == TimePoint(Mkgmtime(tm) - 3600 * ZoneLaws.StandardHours(zones[i].parts))
  {
    hide Mkgmtime, ZoneLaws.RecordAll, ZoneLaws.ZoneName, ZoneLaws.StandardHours, OffsetHours;
    ZoneLaws.LastNamedIsRecorded(map[], zones, name, i);
    OffsetIsDefinedOrTabled(ZoneLaws.RecordAll(map[], zones), name);
  }
}
