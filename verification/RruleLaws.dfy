/** Printing an RRULE and parsing it are inverse, in every order of the parts. */
module RruleLaws {
  import opened Results
  import opened Text
  import opened Decimal
  import opened Civil
  import opened DateTime
  import opened Events
  import opened Rrule

  /** One part of a printed rule.  UntilDate is the date form of UNTIL that section
      3.3.10 of RFC 5545 also allows; Foreign is any part of another name. */
  datatype Part =
    | Freq(freq: Freq)
    | Interval(n: nat)
    | Until(tm: Tm, utc: bool)
    | UntilDate(date: string)
    | Byday(days: seq<Weekday>)
    | Foreign(text: string)

  function DayName(d: Weekday): (s: string)
    ensures |s| == 2 && DayOf(s) == Some(d)
  {
    var s := match d
      case 1 => "MO" case 2 => "TU" case 3 => "WE" case 4 => "TH"
      case 5 => "FR" case 6 => "SA" case 7 => "SU";
    assert ToUpper(s) == s;
    s
  }

  function DayNames(days: seq<Weekday>): (names: seq<string>)
    ensures |names| == |days|
    ensures forall i :: 0 <= i < |days| ==> names[i] == DayName(days[i])
  {
    seq(|days|, i requires 0 <= i < |days| => DayName(days[i]))
  }

  predicate IsValueChar(c: char) {
    c != ';' && c != '='
  }

  ghost predicate ValidPart(p: Part) {
    match p
    case Freq(_) => true
    case Interval(n) => n <= INT_MAX
    case Until(tm, _) => IsNormal(tm) && 0 <= tm.year <= 9999
    case UntilDate(date) => date != "" && AllDigits(date)
    case Byday(days) => days != []
    case Foreign(text) =>
      ';' !in text && forall k: Key, i: nat :: !OccursAt(text, KeyText(k), i)
  }

  // An UNTIL with a time, in UTC form or without its Z.
  function UntilText(tm: Tm, utc: bool): string
    requires IsNormal(tm) && 0 <= tm.year <= 9999
  {
    StampText(tm) + if utc then "Z" else ""
  }

  function ValueText(p: Part): string
    requires ValidPart(p)
  {
    match p
    case Freq(f) => FreqName(f)
    case Interval(n) => Print(n)
    case Until(tm, utc) => UntilText(tm, utc)
    case UntilDate(date) => date
    case Byday(days) => Join(DayNames(days), ',')
    case Foreign(text) => text
  }

  // The key a part is printed with.
  function KeyOf(p: Part): Option<Key> {
    match p
    case Freq(_) => Some(FreqKey)
    case Interval(_) => Some(IntervalKey)
    case Until(_, _) => Some(UntilKey)
    case UntilDate(_) => Some(UntilKey)
    case Byday(_) => Some(BydayKey)
    case Foreign(_) => None
  }

  function RulePartText(p: Part): string
    requires ValidPart(p)
  {
    (match p
     case Freq(_) => "FREQ="
     case Interval(_) => "INTERVAL="
     case Until(_, _) => "UNTIL="
     case UntilDate(_) => "UNTIL="
     case Byday(_) => "BYDAY="
     case Foreign(_) => "")
    + ValueText(p)
  }

  lemma PartHasKey(p: Part)
    requires ValidPart(p)
    ensures RulePartText(p) == (match KeyOf(p) case Some(k) => KeyText(k) case None => "") + ValueText(p)
  {
    hide ValueText;
  }

  // The parts separated by semicolons.
  function RuleText(parts: seq<Part>): string
    requires forall p :: p in parts ==> ValidPart(p)
  {
    if parts == [] then ""
    else if |parts| == 1 then RulePartText(parts[0])
    else RulePartText(parts[0]) + ";" + RuleText(parts[1..])
  }

  // The pattern that captures something in the part, if any does.
  predicate Captures(p: Part, k: Key) {
    KeyOf(p) == Some(k) && !p.UntilDate?
  }

  // ---- Where the patterns match ------------------------------------------

  predicate EndsPart(tail: string) {
    tail == "" || tail[0] == ';'
  }

  lemma KeysHaveOneEquals(k: Key)
    ensures var s := KeyText(k); s[|s| - 1] == '=' && ';' !in s
    ensures forall i :: 0 <= i < |KeyText(k)| - 1 ==> KeyText(k)[i] != '='
  {
  }

  // No key is the end of another.
  lemma KeysAreApart(k: Key, l: Key, i: nat)
    requires i < |KeyText(l)| && KeyText(k) == KeyText(l)[i..]
    ensures k == l && i == 0
  {
  }

  lemma StampChars(tm: Tm)
    requires IsNormal(tm) && 0 <= tm.year <= 9999
    ensures var s := StampText(tm);
            && AllDigits(s[..8]) && s[8] == 'T' && AllDigits(s[9..])
  {
    hide IsNormal, Pad;
    var s := StampText(tm);
    assert s[..8] == Pad(tm.year, 4) + Pad(tm.mon + 1, 2) + Pad(tm.mday, 2);
    assert s[9..] == Pad(tm.hour, 2) + Pad(tm.min, 2) + Pad(tm.sec, 2);
  }

  lemma DayNameChars(d: Weekday)
    ensures forall c :: c in DayName(d) ==> IsDayListChar(c) && c != ','
  {
  }

  lemma FreqNameChars(f: Freq)
    ensures FreqName(f) != "" && forall c :: c in FreqName(f) ==> IsValueChar(c)
  {
  }

  lemma {:induction false} JoinedDays(days: seq<Weekday>)
    requires days != []
    ensures var s := Join(DayNames(days), ',');
            s != "" && forall i :: 0 <= i < |s| ==> IsDayListChar(s[i])
  {
    hide DayName;
    var names := DayNames(days);
    DayNameChars(days[0]);
    if |days| > 1 {
      assert names[1..] == DayNames(days[1..]);
      JoinedDays(days[1..]);
    }
  }

  lemma ValueIsPlain(p: Part)
    requires ValidPart(p) && !p.Foreign?
    ensures forall c :: c in ValueText(p) ==> IsValueChar(c)
  {
    hide StampText, FreqName, IsNormal, DayNames;
    match p {
      case Freq(f) => FreqNameChars(f);
      case Until(tm, _) =>
        StampChars(tm);
        var s := StampText(tm);
        assert s == s[..8] + [s[8]] + s[9..];
      case Byday(days) => JoinedDays(days);
      case _ =>
    }
  }

  lemma ForeignText(p: Part)
    requires ValidPart(p) && p.Foreign?
    ensures RulePartText(p) == p.text
  {
  }

  /** Inside a part, a key other than its own never occurs, nor its own after the front. */
  lemma KeyOccurs(p: Part, k: Key, i: nat)
    requires ValidPart(p) && OccursAt(RulePartText(p), KeyText(k), i)
    ensures KeyOf(p) == Some(k) && i == 0
  {
    hide KeyText, ValueText, RulePartText;
    PartHasKey(p);
    if p.Foreign? {
      ForeignText(p);
    } else {
      var l := KeyOf(p).value;
      var s, t := RulePartText(p), KeyText(k);
      ValueIsPlain(p);
      KeysHaveOneEquals(k);
      KeysHaveOneEquals(l);
      var e := i + |t| - 1;
      assert s[e] == s[i..][|t| - 1] == '=';
      forall j | |KeyText(l)| <= j < |s|
        ensures s[j] != '='
      {
        var c := ValueText(p)[j - |KeyText(l)|];
        assert c in ValueText(p) && s[j] == c;
      }
      assert t == s[i..][..|t|] == KeyText(l)[i..];
      KeysAreApart(k, l, i);
    }
  }

  // A search skips text in which the pattern does not match.
  lemma {:induction false} SearchSkips(k: Key, x: string, tail: string)
    requires forall i :: 0 <= i < |x| ==> CaptureHere(k, x[i..] + tail).None?
    ensures Search(k, x + tail) == Search(k, tail)
  {
    hide CaptureHere;
    if x == "" {
      assert x + tail == tail;
    } else {
      assert x[0..] + tail == x + tail;
      assert (x + tail)[1..] == x[1..] + tail;
      forall i | 0 <= i < |x[1..]|
        ensures CaptureHere(k, x[1..][i..] + tail).None?
      {
        assert x[1..][i..] == x[i + 1..];
      }
      SearchSkips(k, x[1..], tail);
    }
  }

  // A key that occurs across the end of x would contain the semicolon.
  lemma KeyStaysInside(k: Key, x: string, tail: string, i: nat)
    requires i <= |x| && EndsPart(tail) && KeyText(k) <= x[i..] + tail
    ensures OccursAt(x, KeyText(k), i)
  {
    hide KeyText;
    KeysHaveOneEquals(k);
    var y := x[i..];
    assert forall j :: 0 <= j < |KeyText(k)| ==> (y + tail)[j] == KeyText(k)[j] && KeyText(k)[j] != ';';
    assert tail != "" ==> (y + tail)[|y|] == ';';
    assert (y + tail)[..|KeyText(k)|] == y[..|KeyText(k)|];
  }

  lemma CaptureStops(p: Part, k: Key, tail: string)
    requires ValidPart(p) && KeyOf(p) == Some(k) && EndsPart(tail)
    ensures Capture(k, ValueText(p) + tail) == if Captures(p, k) then Some(ValueText(p)) else None
  {
    hide StampText, FreqName, IsNormal, DayNames, CaptureFreq, CaptureUntil, DigitRun, DayListRun;
    var v := ValueText(p);
    match p {
      case Freq(f) => FreqCapture(f, tail);
      case Interval(n) => DigitRunIs(v, tail);
      case UntilDate(date) => DateCapture(date, tail);
      case Until(tm, utc) => UntilCapture(tm, utc, tail);
      case Byday(days) =>
        JoinedDays(days);
        DayListRunIs(v, tail);
    }
  }

  lemma FreqCapture(f: Freq, tail: string)
    ensures CaptureFreq(FreqName(f) + tail) == Some(FreqName(f))
  {
    assert (FreqName(f) + tail)[0] == FreqName(f)[0];
    assert FreqName(f) <= FreqName(f) + tail;
  }

  lemma DateCapture(date: string, tail: string)
    requires AllDigits(date) && EndsPart(tail)
    ensures CaptureUntil(date + tail) == None
  {
    DigitRunIs(date, tail);
    assert tail != "" ==> (date + tail)[|date|] == tail[0];
  }

  lemma DayListRunIs(v: string, tail: string)
    requires EndsPart(tail) && forall i :: 0 <= i < |v| ==> IsDayListChar(v[i])
    ensures DayListRun(v + tail) == |v| && (v + tail)[..|v|] == v
  {
  }

  // Digits, T and digits are captured, with a Z that follows.
  lemma CaptureTimes(d: string, e: string, rest: string)
    requires d != "" && e != "" && AllDigits(d) && AllDigits(e) && (rest == "" || !IsDigit(rest[0]))
    ensures CaptureUntil(d + ("T" + (e + rest))) == Some(d + "T" + e + if rest != "" && rest[0] == 'Z' then "Z" else "")
  {
    NoDigits();
    hide *;
    var text := d + ("T" + (e + rest));
    TimesAre(d, e, rest);
    DigitRunIs(d, "T" + (e + rest));
    DigitRunIs(e, rest);
    CaptureAt(text, |d|, |e|);
  }

  lemma NoDigits()
    ensures !IsDigit('T')
  {
  }

  lemma CaptureAt(text: string, k: nat, m: nat)
    requires 0 < k < |text| && DigitRun(text) == k && text[k] == 'T' && 0 < m && DigitRun(text[k + 1..]) == m
    ensures var end := k + 1 + m;
            end <= |text|
            && CaptureUntil(text) == Some(if end < |text| && text[end] == 'Z' then text[..end + 1] else text[..end])
  {
    hide DigitsValue, DigitRun, AllDigits, IsDigit;
  }

  lemma TimesAre(d: string, e: string, rest: string)
    ensures var text, end := d + ("T" + (e + rest)), |d| + 1 + |e|;
            && |text| == end + |rest| && text[|d|] == 'T' && text[|d| + 1..] == e + rest
            && text[..end] == d + "T" + e && d + "T" + e + "" == d + "T" + e
            && (rest != "" ==> text[end] == rest[0])
            && (rest != "" && rest[0] == 'Z' ==> text[..end + 1] == d + "T" + e + "Z")
  {
  }

  lemma UntilCapture(tm: Tm, utc: bool, tail: string)
    requires IsNormal(tm) && 0 <= tm.year <= 9999 && EndsPart(tail)
    ensures CaptureUntil(UntilText(tm, utc) + tail) == Some(UntilText(tm, utc))
  {
    hide CaptureUntil, StampText, IsNormal, AllDigits;
    StampChars(tm);
    var s := StampText(tm);
    var rest := (if utc then "Z" else "") + tail;
    CaptureTimes(s[..8], s[9..], rest);
    assert s[..8] + ("T" + (s[9..] + rest)) == UntilText(tm, utc) + tail;
    assert s[..8] + "T" + s[9..] == s;
  }

  lemma SearchEmpty(k: Key)
    ensures Search(k, "") == None
  {
  }

  // Past a part that the pattern does not capture, the search goes on behind it.
  lemma SearchPasses(k: Key, p: Part, tail: string)
    requires ValidPart(p) && !Captures(p, k) && EndsPart(tail)
    ensures Search(k, RulePartText(p) + tail) == Search(k, if tail == "" then "" else tail[1..])
  {
    hide KeyText, Capture, ValueText, Search, RulePartText;
    PartHasKey(p);
    var x := RulePartText(p);
    forall i | 0 <= i < |x|
      ensures CaptureHere(k, x[i..] + tail).None?
    {
      if KeyText(k) <= x[i..] + tail {
        KeyStaysInside(k, x, tail, i);
        KeyOccurs(p, k, i);
        assert (x + tail)[|KeyText(k)|..] == ValueText(p) + tail;
        assert x[0..] == x;
        CaptureStops(p, k, tail);
      }
    }
    SearchSkips(k, x, tail);
    SearchSemicolon(k, tail);
  }

  lemma SearchSemicolon(k: Key, tail: string)
    requires EndsPart(tail)
    ensures Search(k, tail) == Search(k, if tail == "" then "" else tail[1..])
  {
  }

  lemma SearchFinds(k: Key, p: Part, tail: string)
    requires ValidPart(p) && Captures(p, k) && EndsPart(tail)
    ensures Search(k, RulePartText(p) + tail) == Some(ValueText(p))
  {
    hide KeyText, Capture, ValueText, RulePartText;
    PartHasKey(p);
    var x := RulePartText(p) + tail;
    assert x == KeyText(k) + (ValueText(p) + tail);
    assert x[|KeyText(k)|..] == ValueText(p) + tail;
    CaptureStops(p, k, tail);
  }

  // The first part that pattern k captures from.
  function FirstOf(k: Key, parts: seq<Part>): (r: Option<Part>)
    ensures r.Some? ==> r.value in parts && Captures(r.value, k)
  {
    if parts == [] then None
    else if Captures(parts[0], k) then Some(parts[0])
    else FirstOf(k, parts[1..])
  }

  /** Searching the printed rule finds the value of the first part of that key. */
  lemma {:induction false} SearchRule(k: Key, parts: seq<Part>)
    requires forall p :: p in parts ==> ValidPart(p)
    ensures Search(k, RuleText(parts))
         == match FirstOf(k, parts) case Some(p) => Some(ValueText(p)) case None => None
  {
    hide KeyText, Search, ValueText, Captures, RulePartText, ValidPart;
    if parts == [] {
      SearchEmpty(k);
    } else {
      var p, rest := parts[0], parts[1..];
      SearchRule(k, rest);
      var tail := if rest == [] then "" else ";" + RuleText(rest);
      assert RuleText(parts) == RulePartText(p) + tail;
      if Captures(p, k) {
        SearchFinds(k, p, tail);
      } else {
        SearchPasses(k, p, tail);
        assert tail != "" ==> tail[1..] == RuleText(rest);
      }
    }
  }

  // ---- Reading the values ------------------------------------------------

  lemma NameIsOfDay(d: Weekday)
    ensures DayOf(DayName(d)) == Some(d)
  {
  }

  lemma {:induction false} DaysOfNames(days: seq<Weekday>)
    ensures DaysIn(DayNames(days)) == set d | d in days
  {
    hide DayName, DayOf;
    if days != [] {
      var most := days[..|days| - 1];
      DaysOfNames(most);
      NameIsOfDay(days[|days| - 1]);
      assert DayNames(days)[..|days| - 1] == DayNames(most);
      assert days == most + [days[|days| - 1]];
    }
  }

  /** Of a BYDAY list the names of weekdays count, in either case; others, as a weekday
      with an ordinal, are dropped. */
  lemma {:induction false} DaysAreNamed(names: seq<string>, d: Weekday)
    ensures d in DaysIn(names) <==> exists i :: 0 <= i < |names| && IsSameName(DayName(d), names[i])
  {
    hide DayOf, IsSameName;
    if names != [] {
      var most, last := names[..|names| - 1], names[|names| - 1];
      DaysAreNamed(most, d);
      NamesDay(last, d);
      assert names == most + [last];
    }
  }

  lemma NamesDay(name: string, d: Weekday)
    ensures DayOf(name) == Some(d) <==> IsSameName(DayName(d), name)
  {
    NameIsOfDay(d);
    DayNameIsUpper(d);
    UpperFoldsCase(DayName(d), name);
    hide IsSameName;
  }

  lemma DayNameIsUpper(d: Weekday)
    ensures ToUpper(DayName(d)) == DayName(d)
  {
  }

  predicate IsListName(name: string) {
    name != "" && forall c :: c in name ==> 'A' <= c <= 'Z' || '0' <= c <= '9'
  }

  /** The whole list is captured, ordinals and unknown names in it too. */
  lemma BydayListReads(names: seq<string>, tail: string, d: Weekday)
    requires names != [] && (forall i :: 0 <= i < |names| ==> IsListName(names[i])) && EndsPart(tail)
    ensures d in BydayField("BYDAY=" + Join(names, ',') + tail) <==> DayName(d) in names
  {
    hide DayName, DayOf, Search, IsListName, IsSameName, DaysIn, Join, Pieces;
    ListIsCaptured(names, tail);
    forall i | 0 <= i < |names|
      ensures ',' !in names[i] && names[i] != ""
      ensures IsSameName(DayName(d), names[i]) <==> DayName(d) == names[i]
    {
      ListNameIsPlain(names[i], d);
    }
    PiecesOfJoin(names, ',');
    DaysAreNamed(names, d);
  }

  lemma ListNameIsPlain(name: string, d: Weekday)
    requires IsListName(name)
    ensures ',' !in name && name != "" && (IsSameName(DayName(d), name) <==> DayName(d) == name)
  {
    DayNameIsUpper(d);
    UpperFoldsCase(DayName(d), name);
    UpperFoldsCase(name, name);
    assert HasNoLower(name) by {
      forall k | 0 <= k < |name|
        ensures !('a' <= name[k] <= 'z')
      {
        assert name[k] in name;
      }
    }
  }

  lemma {:induction false} JoinedNames(names: seq<string>)
    requires forall i :: 0 <= i < |names| ==> IsListName(names[i])
    ensures forall c :: c in Join(names, ',') ==> IsDayListChar(c)
    ensures names != [] ==> Join(names, ',') != ""
  {
    if |names| > 1 {
      JoinedNames(names[1..]);
    }
  }

  lemma ListIsCaptured(names: seq<string>, tail: string)
    requires names != [] && (forall i :: 0 <= i < |names| ==> IsListName(names[i])) && EndsPart(tail)
    ensures Search(BydayKey, "BYDAY=" + Join(names, ',') + tail) == Some(Join(names, ','))
  {
    hide Join, IsListName, IsDayListChar;
    JoinedNames(names);
    var list := Join(names, ',');
    var text := "BYDAY=" + list + tail;
    assert text[6..] == list + tail && text[..6] == "BYDAY=";
    assert forall i :: 0 <= i < |list| ==> list[i] in list;
    DayListRunIs(list, tail);
  }

  lemma DaysReadBack(days: seq<Weekday>)
    requires days != []
    ensures DaysIn(Pieces(Join(DayNames(days), ','), ',')) == set d | d in days
  {
    hide DayName;
    var names := DayNames(days);
    forall i | 0 <= i < |names|
      ensures ',' !in names[i]
    {
      DayNameChars(days[i]);
    }
    PiecesOfJoin(names, ',');
    DaysOfNames(days);
  }

  lemma UntilReadsBack(tm: Tm, utc: bool)
    requires IsNormal(tm) && 0 <= tm.year <= 9999
    ensures UntilOf(UntilText(tm, utc)) == Ok(TimePoint(Mkgmtime(tm)))
  {
    hide StampText, ReadWall, IsNormal, Mkgmtime;
    var s := UntilText(tm, utc);
    StampEndsInDigit(tm);
    assert (if utc then s[..|s| - 1] else s) == StampText(tm) == StampText(tm) + "";
    ReadWallInvertsStampText(tm, "");
  }

  // The rule that the parts spell out, defaults where there is no part.
  function Spelled(parts: seq<Part>): Rule {
    Rule(
      match FirstOf(FreqKey, parts) case Some(Freq(f)) => f case _ => DailyFreq,
      match FirstOf(IntervalKey, parts) case Some(Interval(n)) => n case _ => 1,
      match FirstOf(UntilKey, parts) case Some(Until(tm, _)) => TimePoint(Mkgmtime(tm)) case _ => NO_TIME,
      match FirstOf(BydayKey, parts) case Some(Byday(days)) => (set d | d in days) case _ => {})
  }

  lemma IntervalReadsBack(n: nat)
    requires n <= INT_MAX
    ensures Stoi(Print(n)) == Ok(n)
  {
    assert Print(n) + "" == Print(n);
    ReadDigits(Print(n), "", INT_MIN, INT_MAX);
  }

  /** Whatever its parts and their order, a printed rule parses to what its parts
      spell out.  COUNT, WKST and every other part, and an UNTIL that is a date,
      count for nothing. */
  lemma ParseInvertsPrint(parts: seq<Part>)
    requires forall p :: p in parts ==> ValidPart(p)
    ensures RuleOf(RuleText(parts)) == Ok(Spelled(parts))
  {
    hide Search, RuleText, ValueText, UntilOf, Stoi, StampText, FirstOf, Mkgmtime, DaysIn, IsNormal;
    forall k: Key
      ensures FirstOf(k, parts).Some? ==> ReadsBack(FirstOf(k, parts).value)
    {
      SearchRule(k, parts);
      if FirstOf(k, parts).Some? {
        PartReadsBack(FirstOf(k, parts).value);
      }
    }
    var text := RuleText(parts);
    SearchRule(FreqKey, parts);
    assert FreqField(text) == Spelled(parts).freq;
    SearchRule(IntervalKey, parts);
    assert IntervalField(text) == Ok(Spelled(parts).interval);
    SearchRule(UntilKey, parts);
    assert UntilField(text) == Ok(Spelled(parts).until);
    SearchRule(BydayKey, parts);
    assert BydayField(text) == Spelled(parts).byday;
  }

  // Reading the value of a part gives what was printed.
  ghost predicate ReadsBack(p: Part)
    requires ValidPart(p)
  {
    var v := ValueText(p);
    match p
    case Freq(f) => FreqOf(v) == f
    case Interval(n) => Stoi(v) == Ok(n) && AllDigits(v)
    case Until(tm, _) => UntilOf(v) == Ok(TimePoint(Mkgmtime(tm)))
    case Byday(days) => DaysIn(Pieces(v, ',')) == set d | d in days
    case _ => true
  }

  lemma PartReadsBack(p: Part)
    requires ValidPart(p)
    ensures ReadsBack(p)
  {
    hide UntilOf, Stoi, StampText, Mkgmtime, DaysIn, IsNormal, DayNames, AllDigits;
    match p {
      case Interval(n) => IntervalReadsBack(n);
      case Until(tm, utc) => UntilReadsBack(tm, utc);
      case Byday(days) => DaysReadBack(days);
      case _ =>
    }
  }

  // ---- The round trip ----------------------------------------------------

  /** The rules a printer can spell: an int INTERVAL, and an UNTIL in a four-digit
      year that is neither of the two seconds the program reads as "no time". */
  predicate Printable(r: Rule) {
    && r.interval <= INT_MAX
    && (r.until != NO_TIME ==> r.until != TIME_FAILED && 0 <= Gmtime(r.until).year <= 9999)
  }

  // The parts of a rule, its weekdays listed in the order of `days`, its UNTIL with or
  // without Z.
  function PartsOf(r: Rule, days: seq<Weekday>, utc: bool): seq<Part> {
    [Freq(r.freq), Interval(r.interval)]
    + (if r.until == NO_TIME then [] else [Until(Gmtime(r.until), utc)])
    + (if days == [] then [] else [Byday(days)])
  }

  lemma {:induction false} FirstOfIs(k: Key, parts: seq<Part>, p: Option<Part>)
    requires p.Some? ==> p.value in parts && Captures(p.value, k)
    requires forall q :: q in parts && Captures(q, k) ==> p == Some(q)
    ensures FirstOf(k, parts) == p
  {
    if parts != [] && !Captures(parts[0], k) {
      forall q | q in parts[1..]
        ensures q in parts
      {
      }
      FirstOfIs(k, parts[1..], p);
    }
  }

  /** Print the parts of any rule in any order, with any other parts in between:
      parsing gives the rule back. */
  lemma RuleRoundTrip(r: Rule, days: seq<Weekday>, utc: bool, parts: seq<Part>)
    requires Printable(r) && r.byday == set d | d in days
    requires forall p :: p in PartsOf(r, days, utc) ==> p in parts
    requires forall p :: p in parts ==> p in PartsOf(r, days, utc) || (p.Foreign? && ValidPart(p))
    ensures (forall p :: p in parts ==> ValidPart(p)) && RuleOf(RuleText(parts)) == Ok(r)
  {
    hide RuleText, RuleOf, Gmtime, Mkgmtime, PartsOf, FirstOf;
    PartsAre(r, days, utc);
    FirstOfIs(FreqKey, parts, Some(Freq(r.freq)));
    FirstOfIs(IntervalKey, parts, Some(Interval(r.interval)));
    FirstOfIs(UntilKey, parts, if r.until == NO_TIME then None else Some(Until(Gmtime(r.until), utc)));
    FirstOfIs(BydayKey, parts, if days == [] then None else Some(Byday(days)));
    MkgmtimeInvertsGmtime(r.until);
    assert days == [] ==> r.byday == {};
    assert Spelled(parts) == r;
    ParseInvertsPrint(parts);
  }

  lemma PartsAre(r: Rule, days: seq<Weekday>, utc: bool)
    requires Printable(r)
    ensures forall p :: p in PartsOf(r, days, utc) <==>
      p == Freq(r.freq) || p == Interval(r.interval)
      || (r.until != NO_TIME && p == Until(Gmtime(r.until), utc)) || (days != [] && p == Byday(days))
    ensures forall p :: p in PartsOf(r, days, utc) ==> ValidPart(p)
  {
    hide Gmtime;
  }

  /** COUNT is one of the parts that are ignored. */
  lemma CountIsForeign(n: nat)
    ensures ValidPart(Foreign("COUNT=" + Print(n)))
  {
    hide Print;
    var d := Print(n);
    var s := "COUNT=" + d;
    assert AllDigits(d);
    forall j | 0 <= j < |s|
      ensures s[j] != ';' && (s[j] == '=' ==> j == 5)
    {
      assert j >= 6 ==> s[j] == d[j - 6];
    }
    forall k: Key, i: nat | OccursAt(s, KeyText(k), i)
      ensures false
    {
      KeyEnds(s, k, i);
    }
  }

  lemma KeyEnds(s: string, k: Key, i: nat)
    requires OccursAt(s, KeyText(k), i)
    ensures var e := i + |KeyText(k)| - 1;
            e < |s| && s[e] == '=' && (s[e - 1] == 'Q' || s[e - 1] == 'L' || s[e - 1] == 'Y')
  {
  }
}
