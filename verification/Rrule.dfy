/** The RRULE value parser: four searches over the text, in any order of parts. */
module Rrule {
  import opened Results
  import opened Text
  import opened Decimal
  import opened Civil
  import opened DateTime
  import opened Events

  // The four patterns; each is a key with '=' and a value it captures.
  datatype Key = FreqKey | IntervalKey | UntilKey | BydayKey

  function KeyText(k: Key): (s: string)
    ensures |s| >= 5
  {
    match k
    case FreqKey => "FREQ="
    case IntervalKey => "INTERVAL="
    case UntilKey => "UNTIL="
    case BydayKey => "BYDAY="
  }

  function FreqName(f: Freq): string {
    match f
    case YearlyFreq => "YEARLY"
    case MonthlyFreq => "MONTHLY"
    case WeeklyFreq => "WEEKLY"
    case DailyFreq => "DAILY"
  }

  predicate IsDayListChar(c: char) {
    'A' <= c <= 'Z' || IsDigit(c) || c == ','
  }

  function DayListRun(s: string): (k: nat)
    ensures k <= |s|
    ensures forall i :: 0 <= i < k ==> IsDayListChar(s[i])
    ensures k < |s| ==> !IsDayListChar(s[k])
  {
    if s != "" && IsDayListChar(s[0]) then 1 + DayListRun(s[1..]) else 0
  }

  // YEARLY|MONTHLY|WEEKLY|DAILY
  function CaptureFreq(s: string): Option<string> {
    if "YEARLY" <= s then Some("YEARLY")
    else if "MONTHLY" <= s then Some("MONTHLY")
    else if "WEEKLY" <= s then Some("WEEKLY")
    else if "DAILY" <= s then Some("DAILY")
    else None
  }

  // [0-9]+T[0-9]+Z?
  function CaptureUntil(s: string): Option<string> {
    var d := DigitRun(s);
    if d == 0 || d == |s| || s[d] != 'T' then None
    else
      var e := DigitRun(s[d + 1..]);
      var end := d + 1 + e;
      if e == 0 then None
      else if end < |s| && s[end] == 'Z' then Some(s[..end + 1])
      else Some(s[..end])
  }

  // What pattern k captures at the front of s, the text after its key.
  function Capture(k: Key, s: string): (r: Option<string>)
    ensures k == IntervalKey && r.Some? ==> r.value != "" && AllDigits(r.value)
  {
    match k
    case FreqKey => CaptureFreq(s)
    case IntervalKey => var d := DigitRun(s); if d == 0 then None else Some(s[..d])
    case UntilKey => CaptureUntil(s)
    case BydayKey => var d := DayListRun(s); if d == 0 then None else Some(s[..d])
  }

  function CaptureHere(k: Key, s: string): (r: Option<string>)
    ensures k == IntervalKey && r.Some? ==> r.value != "" && AllDigits(r.value)
  {
    if KeyText(k) <= s then Capture(k, s[|KeyText(k)|..]) else None
  }

  /** std::regex_search: the capture of the first place where pattern k matches. */
  function Search(k: Key, s: string): (r: Option<string>)
    ensures k == IntervalKey && r.Some? ==> r.value != "" && AllDigits(r.value)
  {
    if CaptureHere(k, s).Some? then CaptureHere(k, s)
    else if s == "" then None
    else Search(k, s[1..])
  }

  function FreqOf(name: string): Freq {
    if name == "WEEKLY" then WeeklyFreq
    else if name == "MONTHLY" then MonthlyFreq
    else if name == "YEARLY" then YearlyFreq
    else DailyFreq
  }

  function WithoutZ(text: string): string {
    if text != "" && text[|text| - 1] == 'Z' then text[..|text| - 1] else text
  }

  // UNTIL is read as UTC, with or without its Z.
  function UntilOf(text: string): Result<int> {
    var tm :- ReadWall(WithoutZ(text));
    Ok(TimePoint(Mkgmtime(tm)))
  }

  function DayOf(name: string): Option<Weekday> {
    var d := ToUpper(name);
    if d == "MO" then Some(1)
    else if d == "TU" then Some(2)
    else if d == "WE" then Some(3)
    else if d == "TH" then Some(4)
    else if d == "FR" then Some(5)
    else if d == "SA" then Some(6)
    else if d == "SU" then Some(7)
    else None
  }

  function DaysIn(names: seq<string>): set<Weekday> {
    if names == [] then {}
    else
      var last := DayOf(names[|names| - 1]);
      DaysIn(names[..|names| - 1]) + if last.Some? then {last.value} else {}
  }

  function FreqField(text: string): Freq {
    match Search(FreqKey, text)
    case Some(t) => FreqOf(t)
    case None => DailyFreq
  }

  function IntervalField(text: string): Result<nat> {
    match Search(IntervalKey, text)
    case Some(t) =>
      DigitsAreNatural(t);
      var n :- Stoi(t);
      Ok(n)
    case None => Ok(1)
  }

  function UntilField(text: string): Result<int> {
    match Search(UntilKey, text)
    case Some(t) => UntilOf(t)
    case None => Ok(NO_TIME)
  }

  function BydayField(text: string): set<Weekday> {
    match Search(BydayKey, text)
    case Some(t) => DaysIn(Pieces(t, ','))
    case None => {}
  }

  /** The rule an RRULE value denotes, or the exception reading it throws. */
  function RuleOf(text: string): Result<Rule> {
    var interval :- IntervalField(text);
    var until :- UntilField(text);
    Ok(Rule(FreqField(text), interval, until, BydayField(text)))
  }

  method ParseRruleData(text: string) returns (r: Result<Rule>)
    ensures r == RuleOf(text)
  {
    hide Search, UntilOf, Stoi, FreqOf, DayOf, Pieces;
    var rule := DEFAULT_RULE;
    if text == "" {
      EmptyRule();
      return Ok(rule);
    }
    var found := Search(FreqKey, text);
    if found.Some? {
      rule := rule.(freq := FreqOf(found.value));
    }
    found := Search(IntervalKey, text);
    if found.Some? {
      DigitsAreNatural(found.value);
      var n :- Stoi(found.value);
      rule := rule.(interval := n);
    }
    found := Search(UntilKey, text);
    if found.Some? {
      var until :- UntilOf(found.value);
      rule := rule.(until := until);
    }
    found := Search(BydayKey, text);
    if found.Some? {
      var days := Pieces(found.value, ',');
      for i := 0 to |days|
        invariant rule == Rule(FreqField(text), rule.interval, rule.until, DaysIn(days[..i]))
        invariant IntervalField(text) == Ok(rule.interval) && UntilField(text) == Ok(rule.until)
      {
        assert days[..i + 1][..i] == days[..i];
        var d := DayOf(days[i]);
        if d.Some? {
          rule := rule.(byday := rule.byday + {d.value});
        }
      }
      assert days[..|days|] == days;
    }
    return Ok(rule);
  }

  /** What throws: an INTERVAL beyond int, whatever else the text says; or else an UNTIL
      that has no date-time at its front. */
  lemma RuleThrowsIff(text: string)
    ensures var interval, until := Search(IntervalKey, text), Search(UntilKey, text);
            && (interval.Some? && DigitsValue(interval.value) > INT_MAX ==> RuleOf(text) == Err(OutOfRange))
            && (RuleOf(text).Err? <==>
                  || (interval.Some? && DigitsValue(interval.value) > INT_MAX)
                  || (until.Some? && ReadWall(WithoutZ(until.value)).Err?))
  {
    hide Search, ReadWall, ReadNumber, DigitsValue, Mkgmtime;
    var interval := Search(IntervalKey, text);
    if interval.Some? {
      assert interval.value + "" == interval.value;
      ReadDigits(interval.value, "", INT_MIN, INT_MAX);
    }
  }

  lemma EmptyRule()
    ensures RuleOf("") == Ok(DEFAULT_RULE)
  {
  }
}
