/** The offset of a TZID from UTC: VTIMEZONE blocks of the calendar first, then a
    static table of names. */
module Timezone {
  import opened Results
  import opened Text
  import opened Decimal

  // kUnknownOffset.
  const UNKNOWN_OFFSET := INT_MIN

  /** A TZOFFSETTO value such as +0530 in whole hours, half hours rounded up in
      magnitude; anything std::stoi rejects is unknown. */
  function ParseTzOffset(s: string): int {
    var i := if s != "" && (s[0] == '+' || s[0] == '-') then 1 else 0;
    if |s| < 5 || i + 4 > |s| then UNKNOWN_OFFSET
    else
      var sign := if s[0] == '-' then -1 else 1;
      match (Stoi(s[i..i + 2]), Stoi(s[i + 2..i + 4]))
      case (Ok(hh), Ok(mm)) => sign * (hh + if mm >= 30 then 1 else 0)
      case _ => UNKNOWN_OFFSET
  }

  function OffsetText(west: bool, hh: nat, mm: nat): string {
    (if west then "-" else "+") + Pad(hh, 2) + Pad(mm, 2)
  }

  function OffsetMinutes(west: bool, hh: nat, mm: nat): int {
    if west then -(60 * hh + mm) else 60 * hh + mm
  }

  /** For a well-formed offset the hours kept are within half an hour of it, and
      exact only for whole hours. */
  lemma OffsetIsNearest(west: bool, hh: nat, mm: nat)
    requires hh < 100 && mm < 60
    ensures var h := ParseTzOffset(OffsetText(west, hh, mm));
            -30 <= 60 * h - OffsetMinutes(west, hh, mm) <= 30
            && (60 * h == OffsetMinutes(west, hh, mm) <==> mm == 0)
  {
    var s := OffsetText(west, hh, mm);
    assert s[1..3] == Pad(hh, 2) && s[3..5] == Pad(mm, 2);
    assert Power10(2) == 100;
    StoiPad(hh, 2);
    StoiPad(mm, 2);
  }

  /** An offset is unknown exactly when it has fewer than five characters or one of its
      two pairs, behind a sign if there is one, does not begin like a number. */
  lemma OffsetIsUnknownIff(s: string)
    ensures ParseTzOffset(s) == UNKNOWN_OFFSET <==>
      |s| < 5 || var t := if s[0] in "+-" then s[1..] else s; Stoi(t[..2]).Err? || Stoi(t[2..4]).Err?
  {
    if |s| >= 5 {
      var i := if s[0] in "+-" then 1 else 0;
      var t := s[i..];
      assert s[i..i + 2] == t[..2] && s[i + 2..i + 4] == t[2..4];
      PairIsSmall(t[..2]);
      PairIsSmall(t[2..4]);
    }
  }

  // The static fallback table, names in upper case.
  const STATIC_OFFSETS: seq<(string, int)> := [
    ("UTC", 0), ("EUROPE/KALININGRAD", 2), ("EUROPE/MOSCOW", 3), ("EUROPE/VOLGOGRAD", 3),
    ("EUROPE/SAMARA", 4), ("ASIA/YEKATERINBURG", 5), ("ASIA/BANGKOK", 7), ("EUROPE/LONDON", 1),
    ("RUSSIAN STANDARD TIME", 3), ("GMT STANDARD TIME", 0), ("SE ASIA STANDARD TIME", 7),
    ("EKATERINBURG STANDARD TIME", 5), ("RUSSIA TIME ZONE 3", 4)
  ]

  function TableOffset(table: seq<(string, int)>, key: string): (r: int)
    ensures if exists i :: 0 <= i < |table| && table[i].0 == key
            then exists i :: 0 <= i < |table| && table[i] == (key, r) && forall j :: 0 <= j < i ==> table[j].0 != key
            else r == UNKNOWN_OFFSET
  {
    if table == [] then UNKNOWN_OFFSET
    else if table[0].0 == key then table[0].1
    else TableOffset(table[1..], key)
  }

  function OffsetHours(vtz: map<string, int>, tz: string): int {
    if tz in vtz then vtz[tz] else TableOffset(STATIC_OFFSETS, ToUpper(tz))
  }

  // Row k is the first of the table that has the name, in whatever case.
  ghost predicate IsRowOf(table: seq<(string, int)>, name: string, k: nat) {
    && k < |table| && IsSameName(name, table[k].0)
    && forall j: nat :: j < k ==> !IsSameName(name, table[j].0)
  }

  lemma RowsAreUpper(k: nat)
    requires k < |STATIC_OFFSETS|
    ensures HasNoLower(STATIC_OFFSETS[k].0) && STATIC_OFFSETS[k].1 != UNKNOWN_OFFSET
  {
  }

  // A look-up in a table of names in upper case.
  lemma TableIsCaseless(table: seq<(string, int)>, name: string)
    requires forall k :: 0 <= k < |table| ==> HasNoLower(table[k].0) && table[k].1 != UNKNOWN_OFFSET
    ensures forall k: nat :: IsRowOf(table, name, k) ==> TableOffset(table, ToUpper(name)) == table[k].1
    ensures (forall k: nat :: !IsRowOf(table, name, k)) ==> TableOffset(table, ToUpper(name)) == UNKNOWN_OFFSET
  {
    hide HasNoLower, ToUpper, IsSameName;
    forall k: nat | k < |table|
      ensures ToUpper(name) == table[k].0 <==> IsSameName(name, table[k].0)
    {
      UpperFoldsCase(name, table[k].0);
      UpperFoldsCase(table[k].0, name);
    }
    var key, hours := ToUpper(name), TableOffset(table, ToUpper(name));
    if hours != UNKNOWN_OFFSET {
      var k :| 0 <= k < |table| && table[k] == (key, hours) && forall j :: 0 <= j < k ==> table[j].0 != key;
      assert IsRowOf(table, name, k);
    }
  }

  /** A name the calendar defines has the hours defined, where they are known; another
      name has the hours of its row in the table, in whatever case it is written; and
      without either it is unknown. */
  lemma OffsetIsDefinedOrTabled(vtz: map<string, int>, name: string)
    ensures name in vtz ==> OffsetHours(vtz, name) == vtz[name]
    ensures forall k: nat :: name !in vtz && IsRowOf(STATIC_OFFSETS, name, k) ==>
      OffsetHours(vtz, name) == STATIC_OFFSETS[k].1
    ensures name !in vtz && (forall k: nat :: !IsRowOf(STATIC_OFFSETS, name, k)) ==>
      OffsetHours(vtz, name) == UNKNOWN_OFFSET
  {
    hide *;
    forall k | 0 <= k < |STATIC_OFFSETS|
      ensures HasNoLower(STATIC_OFFSETS[k].0) && STATIC_OFFSETS[k].1 != UNKNOWN_OFFSET
    {
      RowsAreUpper(k);
    }
    TableIsCaseless(STATIC_OFFSETS, name);
    OffsetIs(vtz, name);
  }

  lemma OffsetIs(vtz: map<string, int>, name: string)
    ensures OffsetHours(vtz, name) == if name in vtz then vtz[name] else TableOffset(STATIC_OFFSETS, ToUpper(name))
  {
    hide TableOffset;
  }

  // What a trimmed line means to the VTIMEZONE scanner.
  datatype ZoneLine =
    BeginZone | EndZone | BeginStandard | BeginDaylight | Tzid(id: string) | OffsetTo(hours: int) | Other

  function Classify(t: string): ZoneLine {
    if "BEGIN:VTIMEZONE" <= t then BeginZone
    else if "END:VTIMEZONE" <= t then EndZone
    else if "BEGIN:STANDARD" <= t then BeginStandard
    else if "BEGIN:DAYLIGHT" <= t then BeginDaylight
    else if "TZID:" <= t then Tzid(t[5..])
    else if "TZOFFSETTO:" <= t then OffsetTo(ParseTzOffset(t[11..]))
    else Other
  }

  /** Six beginnings of a line mean something, and no others. */
  lemma LineMeansNothingIff(t: string)
    ensures Classify(t) == Other <==>
      !("BEGIN:VTIMEZONE" <= t || "END:VTIMEZONE" <= t || "BEGIN:STANDARD" <= t || "BEGIN:DAYLIGHT" <= t
        || "TZID:" <= t || "TZOFFSETTO:" <= t)
  {
    hide ParseTzOffset;
  }

  function ZoneLines(ics: string): seq<ZoneLine> {
    var lines := Lines(ics);
    seq(|lines|, i requires 0 <= i < |lines| => Classify(Trim(lines[i])))
  }

  // The variables of the scanner.
  datatype ZoneScan = ZoneScan(inTz: bool, inStd: bool, tzid: string, stdOffset: int, offsets: map<string, int>)

  const NO_ZONE := ZoneScan(false, false, "", UNKNOWN_OFFSET, map[])

  function ZoneStep(st: ZoneScan, line: ZoneLine): ZoneScan {
    if line.BeginZone? then ZoneScan(true, false, "", UNKNOWN_OFFSET, st.offsets)
    else if !st.inTz then st
    else match line
      case EndZone =>
        st.(inTz := false, inStd := false,
            offsets := if st.tzid != "" && st.stdOffset != UNKNOWN_OFFSET
                       then st.offsets[st.tzid := st.stdOffset] else st.offsets)
      case BeginStandard => st.(inStd := true)
      case BeginDaylight => st.(inStd := false)
      case Tzid(id) => st.(tzid := id)
      case OffsetTo(hours) => if st.inStd then st.(stdOffset := hours) else st
      case _ => st
  }

  function ScanZones(st: ZoneScan, lines: seq<ZoneLine>): ZoneScan {
    if lines == [] then st
    else ZoneStep(ScanZones(st, lines[..|lines| - 1]), lines[|lines| - 1])
  }

  function VtzOffsets(ics: string): map<string, int> {
    ScanZones(NO_ZONE, ZoneLines(ics)).offsets
  }

  lemma ScanNothing()
    ensures ScanZones(NO_ZONE, []) == NO_ZONE
  {
  }

  lemma LinesAreMeant(ics: string)
    ensures |ZoneLines(ics)| == |Lines(ics)|
  {
  }

  lemma ScanStep(lines: seq<ZoneLine>, n: nat)
    requires n < |lines|
    ensures ScanZones(NO_ZONE, lines[..n + 1]) == ZoneStep(ScanZones(NO_ZONE, lines[..n]), lines[n])
  {
    hide ZoneStep;
    assert lines[..n + 1][..n] == lines[..n];
  }

  // Popping a '\r' first makes no difference to what a line means.
  lemma LineMeaning(ics: string, n: nat)
    requires n < |Lines(ics)|
    ensures var line := Lines(ics)[n];
            var popped := if line != "" && line[|line| - 1] == '\r' then line[..|line| - 1] else line;
            n < |ZoneLines(ics)| && Classify(Trim(popped)) == ZoneLines(ics)[n]
  {
    hide Classify, Lines, Trim;
    TrimDropsReturn(Lines(ics)[n]);
  }

  class Resolver {
    var offsets: map<string, int>

    constructor ()
      ensures offsets == map[]
    {
      offsets := map[];
    }

    method CollectVtimezones(ics: string)
      modifies this
      ensures offsets == VtzOffsets(ics)
    {
      hide Classify, ScanZones, ZoneLines, Lines, Trim;
      offsets := map[];
      ScanNothing();
      LinesAreMeant(ics);
      var lines := Lines(ics);
      ghost var kinds := ZoneLines(ics);
      var inTz, inStd, tzid, stdOffset := false, false, "", UNKNOWN_OFFSET;
      for n := 0 to |lines|
        invariant ZoneScan(inTz, inStd, tzid, stdOffset, offsets) == ScanZones(NO_ZONE, kinds[..n])
      {
        var line := lines[n];
        ScanStep(kinds, n);
        LineMeaning(ics, n);
        if line != "" && line[|line| - 1] == '\r' {
          line := line[..|line| - 1];
        }
        var kind := Classify(Trim(line));
        assert kind == kinds[n];
        if kind.BeginZone? {
          inTz, inStd, tzid, stdOffset := true, false, "", UNKNOWN_OFFSET;
          continue;
        }
        if !inTz {
          continue;
        }
        if kind.EndZone? {
          if tzid != "" && stdOffset != UNKNOWN_OFFSET {
            offsets := offsets[tzid := stdOffset];
          }
          inTz, inStd := false, false;
          continue;
        }
        if kind.BeginStandard? {
          inStd := true;
          continue;
        }
        if kind.BeginDaylight? {
          inStd := false;
          continue;
        }
        if kind.Tzid? {
          tzid := kind.id;
        } else if inStd && kind.OffsetTo? {
          stdOffset := kind.hours;
        }
      }
      assert kinds[..|lines|] == kinds;
    }
  }

  // ---- Daylight offsets do not matter ------------------------------------

  // A line that opens or closes a component.
  predicate IsMarker(line: ZoneLine) {
    line.BeginZone? || line.EndZone? || line.BeginStandard? || line.BeginDaylight?
  }

  // Line i lies in a DAYLIGHT section: no marker separates it from its BEGIN.
  ghost predicate InDaylight(lines: seq<ZoneLine>, i: nat) {
    exists j :: 0 <= j < i && j < |lines| && lines[j].BeginDaylight?
             && forall k :: j < k < i && k < |lines| ==> !IsMarker(lines[k])
  }

  // The two scans differ at most in TZOFFSETTO values inside DAYLIGHT sections.
  ghost predicate SameButDaylight(a: seq<ZoneLine>, b: seq<ZoneLine>) {
    && |a| == |b|
    && forall i :: 0 <= i < |a| ==>
         a[i] == b[i] || (InDaylight(a, i) && a[i].OffsetTo? && b[i].OffsetTo?)
  }

  lemma {:induction false} DaylightIsNotStandard(lines: seq<ZoneLine>, j: nat, i: nat)
    requires j < i <= |lines| && lines[j].BeginDaylight?
    requires forall k :: j < k < i ==> !IsMarker(lines[k])
    ensures var st := ScanZones(NO_ZONE, lines[..i]); st.inTz ==> !st.inStd
    decreases i
  {
    assert lines[..i][..i - 1] == lines[..i - 1];
    if i > j + 1 {
      DaylightIsNotStandard(lines, j, i - 1);
      assert !IsMarker(lines[i - 1]);
    }
  }

  lemma {:induction false} SameStates(a: seq<ZoneLine>, b: seq<ZoneLine>, n: nat)
    requires SameButDaylight(a, b) && n <= |a|
    ensures ScanZones(NO_ZONE, a[..n]) == ScanZones(NO_ZONE, b[..n])
  {
    if n > 0 {
      SameStates(a, b, n - 1);
      assert a[..n][..n - 1] == a[..n - 1] && b[..n][..n - 1] == b[..n - 1];
      if a[n - 1] != b[n - 1] {
        var j :| 0 <= j < n - 1 && j < |a| && a[j].BeginDaylight?
              && forall k :: j < k < n - 1 && k < |a| ==> !IsMarker(a[k]);
        DaylightIsNotStandard(a, j, n - 1);
      }
    }
  }

  /** Two calendars that differ only in the offsets of DAYLIGHT sections resolve
      every zone name alike. */
  lemma DaylightDoesNotMatter(a: string, b: string)
    requires SameButDaylight(ZoneLines(a), ZoneLines(b))
    ensures VtzOffsets(a) == VtzOffsets(b)
  {
    hide ZoneLines, ScanZones;
    var p, q := ZoneLines(a), ZoneLines(b);
    SameStates(p, q, |p|);
    assert p[..|p|] == p && q[..|q|] == q;
  }
}
