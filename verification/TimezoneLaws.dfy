/** Printed VTIMEZONE components, the offsets recorded from them, and what folding
    does to them: the scan reads physical lines. */
module TimezoneLaws {
  import opened Text
  import opened Decimal
  import opened Timezone
  import opened TextUtils

  // A line of a section: a TZOFFSETTO, or one the scan has no use for (DTSTART,
  // TZOFFSETFROM, RRULE, TZNAME and the like).
  datatype SectionLine = Offset(west: bool, hh: nat, mm: nat) | Note(text: string)

  // A part of a component: its TZID, a section, or a line of no use.
  datatype ZonePart =
    Name(id: string) | Section(standard: bool, lines: seq<SectionLine>) | Remark(text: string)

  // A component, and the lines between it and the one before.
  datatype Zone = Zone(before: seq<string>, parts: seq<ZonePart>)

  // Nothing to the scan, wherever it stands.
  predicate IsIdle(text: string) {
    Classify(Trim(text)) == Other
  }

  predicate IsBetween(text: string) {
    !Classify(Trim(text)).BeginZone?
  }

  ghost predicate ValidSectionLine(line: SectionLine) {
    match line
    case Offset(_, hh, mm) => hh < 100 && mm < 60
    case Note(text) => IsIdle(text)
  }

  ghost predicate ValidZonePart(part: ZonePart) {
    match part
    case Name(id) => IsTrimmed(id)
    case Section(_, lines) => forall i :: 0 <= i < |lines| ==> ValidSectionLine(lines[i])
    case Remark(text) => IsIdle(text)
  }

  ghost predicate ValidZoneParts(parts: seq<ZonePart>) {
    forall i :: 0 <= i < |parts| ==> ValidZonePart(parts[i])
  }

  ghost predicate ValidZone(z: Zone) {
    (forall i :: 0 <= i < |z.before| ==> IsBetween(z.before[i])) && ValidZoneParts(z.parts)
  }

  function SectionLineText(line: SectionLine): string {
    match line
    case Offset(west, hh, mm) => "TZOFFSETTO:" + OffsetText(west, hh, mm)
    case Note(text) => text
  }

  function SectionText(lines: seq<SectionLine>): (r: seq<string>)
    ensures |r| == |lines|
  {
    seq(|lines|, i requires 0 <= i < |lines| => SectionLineText(lines[i]))
  }

  function BeginText(standard: bool): string {
    if standard then "BEGIN:STANDARD" else "BEGIN:DAYLIGHT"
  }

  function EndText(standard: bool): string {
    if standard then "END:STANDARD" else "END:DAYLIGHT"
  }

  function PartText(part: ZonePart): seq<string> {
    match part
    case Name(id) => ["TZID:" + id]
    case Section(standard, lines) => [BeginText(standard)] + SectionText(lines) + [EndText(standard)]
    case Remark(text) => [text]
  }

  function PartsText(parts: seq<ZonePart>): seq<string> {
    if parts == [] then [] else PartsText(parts[..|parts| - 1]) + PartText(parts[|parts| - 1])
  }

  function ZoneText(z: Zone): seq<string> {
    z.before + ["BEGIN:VTIMEZONE"] + PartsText(z.parts) + ["END:VTIMEZONE"]
  }

  // The components of a calendar, and the lines after them.
  function ZonesText(zones: seq<Zone>, after: seq<string>): seq<string> {
    if zones == [] then after else ZoneText(zones[0]) + ZonesText(zones[1..], after)
  }

  // ---- What they say -----------------------------------------------------

  function OffsetHoursOf(line: SectionLine, before: int): int {
    match line
    case Offset(west, hh, mm) => ParseTzOffset(OffsetText(west, hh, mm))
    case Note(_) => before
  }

  // The hours of the last TZOFFSETTO of a section, or the ones known before.
  function SectionHours(lines: seq<SectionLine>, before: int): int {
    if lines == [] then before
    else OffsetHoursOf(lines[|lines| - 1], SectionHours(lines[..|lines| - 1], before))
  }

  // The last offset of the STANDARD sections, or the one known before.
  function HoursAfter(before: int, parts: seq<ZonePart>): int {
    if parts == [] then before
    else
      var last := parts[|parts| - 1];
      var hours := HoursAfter(before, parts[..|parts| - 1]);
      if last.Section? && last.standard then SectionHours(last.lines, hours) else hours
  }

  // The last TZID, or the one known before.
  function NameAfter(before: string, parts: seq<ZonePart>): string {
    if parts == [] then before
    else
      var last := parts[|parts| - 1];
      if last.Name? then last.id else NameAfter(before, parts[..|parts| - 1])
  }

  function StandardHours(parts: seq<ZonePart>): int {
    HoursAfter(UNKNOWN_OFFSET, parts)
  }

  function ZoneName(parts: seq<ZonePart>): string {
    NameAfter("", parts)
  }

  /** A component with a name and a standard offset replaces what was recorded for
      the name. */
  function Recorded(m: map<string, int>, name: string, hours: int): map<string, int> {
    if name == "" || hours == UNKNOWN_OFFSET then m else m[name := hours]
  }

  function RecordAll(m: map<string, int>, zones: seq<Zone>): map<string, int>
    decreases |zones|
  {
    if zones == [] then m
    else RecordAll(Recorded(m, ZoneName(zones[0].parts), StandardHours(zones[0].parts)), zones[1..])
  }

  // ---- The scan over content lines ---------------------------------------

  function Meanings(lines: seq<string>): (r: seq<ZoneLine>)
    ensures |r| == |lines|
  {
    seq(|lines|, i requires 0 <= i < |lines| => Classify(Trim(lines[i])))
  }

  function ScanLines(st: ZoneScan, lines: seq<string>): ZoneScan {
    ScanZones(st, Meanings(lines))
  }

  lemma {:induction false} ScanZonesSplits(st: ZoneScan, a: seq<ZoneLine>, b: seq<ZoneLine>)
    ensures ScanZones(st, a + b) == ScanZones(ScanZones(st, a), b)
  {
    hide ZoneStep;
    if b == [] {
      assert a + b == a;
    } else {
      assert (a + b)[..|a + b| - 1] == a + b[..|b| - 1];
      ScanZonesSplits(st, a, b[..|b| - 1]);
    }
  }

  lemma ScanLinesSplits(st: ZoneScan, a: seq<string>, b: seq<string>)
    ensures ScanLines(st, a + b) == ScanLines(ScanLines(st, a), b)
  {
    hide Classify, Trim, ScanZones;
    assert Meanings(a + b) == Meanings(a) + Meanings(b);
    ScanZonesSplits(st, Meanings(a), Meanings(b));
  }

  lemma ScanOne(st: ZoneScan, line: string)
    ensures ScanLines(st, [line]) == ZoneStep(st, Classify(Trim(line)))
  {
    hide Classify, Trim, ZoneStep;
    assert Meanings([line]) == [Classify(Trim(line))];
    assert ScanZones(st, []) == st;
  }

  lemma ScanNone(st: ZoneScan)
    ensures ScanLines(st, []) == st
  {
  }

  lemma MarkersMean()
    ensures Classify(Trim("BEGIN:VTIMEZONE")) == BeginZone && Classify(Trim("END:VTIMEZONE")) == EndZone
    ensures Classify(Trim("BEGIN:STANDARD")) == BeginStandard && Classify(Trim("BEGIN:DAYLIGHT")) == BeginDaylight
  {
    TrimIsIdempotent("BEGIN:VTIMEZONE");
    TrimIsIdempotent("END:VTIMEZONE");
    TrimIsIdempotent("BEGIN:STANDARD");
    TrimIsIdempotent("BEGIN:DAYLIGHT");
    hide Trim;
  }

  lemma EndsMeanNothing()
    ensures Classify(Trim("END:STANDARD")) == Other && Classify(Trim("END:DAYLIGHT")) == Other
  {
    TrimIsIdempotent("END:STANDARD");
    TrimIsIdempotent("END:DAYLIGHT");
    hide Trim;
  }

  lemma TzidMeans(id: string)
    requires IsTrimmed(id)
    ensures Classify(Trim("TZID:" + id)) == Tzid(id)
  {
    hide Trim;
    var t := "TZID:" + id;
    assert t[|t| - 1] == id[|id| - 1];
    TrimIsIdempotent(t);
    ClassifyTzid(id);
  }

  lemma ClassifyTzid(id: string)
    ensures Classify("TZID:" + id) == Tzid(id)
  {
    hide ParseTzOffset;
    var t := "TZID:" + id;
    assert t[0] == 'T' && t[1] == 'Z' && t[2] == 'I' && t[5..] == id;
  }

  lemma OffsetMeans(west: bool, hh: nat, mm: nat)
    ensures var o := OffsetText(west, hh, mm); Classify(Trim("TZOFFSETTO:" + o)) == OffsetTo(ParseTzOffset(o))
  {
    hide Trim, ParseTzOffset, OffsetText;
    var o := OffsetText(west, hh, mm);
    OffsetIsDigits(west, hh, mm);
    var t := "TZOFFSETTO:" + o;
    assert t[|t| - 1] == o[|o| - 1];
    TrimIsIdempotent(t);
    ClassifyOffset(o);
  }

  lemma ClassifyOffset(o: string)
    ensures Classify("TZOFFSETTO:" + o) == OffsetTo(ParseTzOffset(o))
  {
    hide ParseTzOffset;
    var t := "TZOFFSETTO:" + o;
    assert t[0] == 'T' && t[2] == 'O' && t[11..] == o;
  }

  lemma OffsetIsDigits(west: bool, hh: nat, mm: nat)
    ensures var o := OffsetText(west, hh, mm); |o| == 5 && '0' <= o[4] <= '9'
  {
  }

  lemma ScanSectionLine(st: ZoneScan, line: SectionLine)
    requires st.inTz && ValidSectionLine(line)
    ensures ScanLines(st, [SectionLineText(line)])
         == if st.inStd then st.(stdOffset := OffsetHoursOf(line, st.stdOffset)) else st
  {
    hide Classify, Trim, ParseTzOffset, OffsetText;
    ScanOne(st, SectionLineText(line));
    if line.Offset? {
      OffsetMeans(line.west, line.hh, line.mm);
    }
  }

  lemma {:induction false} ScanSectionLines(st: ZoneScan, lines: seq<SectionLine>)
    requires st.inTz && forall i :: 0 <= i < |lines| ==> ValidSectionLine(lines[i])
    ensures ScanLines(st, SectionText(lines))
         == if st.inStd then st.(stdOffset := SectionHours(lines, st.stdOffset)) else st
  {
    hide ScanLines, SectionLineText, ValidSectionLine, OffsetHoursOf;
    if lines == [] {
      ScanNone(st);
      assert SectionText(lines) == [];
    } else {
      var most, last := lines[..|lines| - 1], lines[|lines| - 1];
      ScanSectionLines(st, most);
      assert SectionText(lines) == SectionText(most) + [SectionLineText(last)];
      ScanLinesSplits(st, SectionText(most), [SectionLineText(last)]);
      ScanSectionLine(ScanLines(st, SectionText(most)), last);
    }
  }

  lemma ScanSection(st: ZoneScan, standard: bool, lines: seq<SectionLine>)
    requires st.inTz && forall i :: 0 <= i < |lines| ==> ValidSectionLine(lines[i])
    ensures ScanLines(st, [BeginText(standard)] + SectionText(lines) + [EndText(standard)])
         == st.(inStd := standard, stdOffset := if standard then SectionHours(lines, st.stdOffset) else st.stdOffset)
  {
    hide Classify, Trim, ScanLines, SectionText, SectionHours, ValidSectionLine;
    MarkersMean();
    EndsMeanNothing();
    var begin, body, end := [BeginText(standard)], SectionText(lines), [EndText(standard)];
    ScanLinesSplits(st, begin + body, end);
    ScanLinesSplits(st, begin, body);
    ScanOne(st, BeginText(standard));
    var begun := st.(inStd := standard);
    ScanSectionLines(begun, lines);
    ScanOne(ScanLines(begun, body), EndText(standard));
  }

  // What one part does to the scan of an open component.
  lemma ScanPart(st: ZoneScan, part: ZonePart)
    requires st.inTz && ValidZonePart(part)
    ensures var r := ScanLines(st, PartText(part));
            && r.inTz && r.offsets == st.offsets
            && r.tzid == (if part.Name? then part.id else st.tzid)
            && r.stdOffset
            == (if part.Section? && part.standard then SectionHours(part.lines, st.stdOffset) else st.stdOffset)
  {
    hide Classify, Trim, ScanLines, SectionText, SectionHours, ValidSectionLine;
    match part {
      case Name(id) =>
        TzidMeans(id);
        ScanOne(st, "TZID:" + id);
      case Section(standard, lines) => ScanSection(st, standard, lines);
      case Remark(text) => ScanOne(st, text);
    }
  }

  lemma {:induction false} ScanParts(st: ZoneScan, parts: seq<ZonePart>)
    requires st.inTz && ValidZoneParts(parts)
    ensures var r := ScanLines(st, PartsText(parts));
            && r.inTz && r.offsets == st.offsets
            && r.tzid == NameAfter(st.tzid, parts) && r.stdOffset == HoursAfter(st.stdOffset, parts)
  {
    hide ScanLines, PartText, SectionHours, ValidZonePart;
    if parts == [] {
      ScanNone(st);
    } else {
      var most, last := parts[..|parts| - 1], parts[|parts| - 1];
      ScanParts(st, most);
      ScanLinesSplits(st, PartsText(most), PartText(last));
      ScanPart(ScanLines(st, PartsText(most)), last);
    }
  }

  lemma {:induction false} ScanBetween(st: ZoneScan, lines: seq<string>)
    requires !st.inTz && forall i :: 0 <= i < |lines| ==> IsBetween(lines[i])
    ensures ScanLines(st, lines) == st
  {
    hide Classify, Trim, ScanLines;
    if lines == [] {
      ScanNone(st);
    } else {
      var most, last := lines[..|lines| - 1], lines[|lines| - 1];
      ScanBetween(st, most);
      assert lines == most + [last];
      assert IsBetween(last);
      ScanLinesSplits(st, most, [last]);
      ScanOne(st, last);
    }
  }

  // BEGIN, parts, END from outside to outside.
  lemma ScanComponent(st: ZoneScan, parts: seq<ZonePart>)
    requires !st.inTz && ValidZoneParts(parts)
    ensures var r := ScanLines(st, ["BEGIN:VTIMEZONE"] + PartsText(parts) + ["END:VTIMEZONE"]);
            !r.inTz && r.offsets == Recorded(st.offsets, ZoneName(parts), StandardHours(parts))
  {
    hide Classify, Trim, ScanLines, PartsText, ValidZoneParts, NameAfter, HoursAfter;
    MarkersMean();
    var begin, body, end := ["BEGIN:VTIMEZONE"], PartsText(parts), ["END:VTIMEZONE"];
    ScanLinesSplits(st, begin + body, end);
    ScanLinesSplits(st, begin, body);
    ScanOne(st, "BEGIN:VTIMEZONE");
    var begun := ScanLines(st, begin);
    ScanParts(begun, parts);
    ScanOne(ScanLines(begun, body), "END:VTIMEZONE");
  }

  lemma ScanZone(st: ZoneScan, z: Zone)
    requires !st.inTz && ValidZone(z)
    ensures var r := ScanLines(st, ZoneText(z));
            !r.inTz && r.offsets == Recorded(st.offsets, ZoneName(z.parts), StandardHours(z.parts))
  {
    hide ScanLines, PartsText, IsBetween, ValidZoneParts, Recorded;
    var component := ["BEGIN:VTIMEZONE"] + PartsText(z.parts) + ["END:VTIMEZONE"];
    assert ZoneText(z) == z.before + component;
    ScanLinesSplits(st, z.before, component);
    ScanBetween(st, z.before);
    ScanComponent(st, z.parts);
  }

  /** From the content lines of a calendar with any VTIMEZONE components in it, each
      TZID is recorded with the last STANDARD offset of the last component of that
      name that has one. */
  lemma {:induction false} ZonesReadBack(st: ZoneScan, zones: seq<Zone>, after: seq<string>)
    requires !st.inTz && forall i :: 0 <= i < |zones| ==> ValidZone(zones[i])
    requires forall i :: 0 <= i < |after| ==> IsBetween(after[i])
    ensures var r := ScanLines(st, ZonesText(zones, after));
            !r.inTz && r.offsets == RecordAll(st.offsets, zones)
    decreases |zones|
  {
    hide ScanLines, ZoneText, IsBetween, ValidZone, Recorded, ZoneName, StandardHours;
    if zones == [] {
      ScanBetween(st, after);
    } else {
      ScanLinesSplits(st, ZoneText(zones[0]), ZonesText(zones[1..], after));
      ScanZone(st, zones[0]);
      ZonesReadBack(ScanLines(st, ZoneText(zones[0])), zones[1..], after);
    }
  }

  // ---- The last component of a name --------------------------------------

  // Component i is the last one of that name with a known standard offset.
  ghost predicate IsLastNamed(zones: seq<Zone>, name: string, i: nat) {
    && i < |zones| && ZoneName(zones[i].parts) == name && StandardHours(zones[i].parts) != UNKNOWN_OFFSET
    && forall j :: i < j < |zones| && ZoneName(zones[j].parts) == name ==>
         StandardHours(zones[j].parts) == UNKNOWN_OFFSET
  }

  lemma {:induction false} RecordStays(name: string, m: map<string, int>, zones: seq<Zone>)
    requires name in m
    requires forall j :: 0 <= j < |zones| && ZoneName(zones[j].parts) == name ==>
               StandardHours(zones[j].parts) == UNKNOWN_OFFSET
    ensures name in RecordAll(m, zones) && RecordAll(m, zones)[name] == m[name]
    decreases |zones|
  {
    hide ZoneName, StandardHours;
    if zones != [] {
      RecordStays(name, Recorded(m, ZoneName(zones[0].parts), StandardHours(zones[0].parts)), zones[1..]);
    }
  }

  lemma {:induction false} LastNamedIsRecorded(m: map<string, int>, zones: seq<Zone>, name: string, i: nat)
    requires name != "" && IsLastNamed(zones, name, i)
    ensures name in RecordAll(m, zones) && RecordAll(m, zones)[name] == StandardHours(zones[i].parts)
    decreases |zones|
  {
    hide ZoneName, StandardHours;
    var first := Recorded(m, ZoneName(zones[0].parts), StandardHours(zones[0].parts));
    if i == 0 {
      RecordStays(name, first, zones[1..]);
    } else {
      LastNamedIsRecorded(first, zones[1..], name, i - 1);
    }
  }

  // ---- Folding -----------------------------------------------------------

  /** A line whose folding the scan cannot notice: it is not folded, or neither it nor
      any of its physical lines means anything where it stands, inside a component or
      between components. */
  ghost predicate FoldsUnseen(f: Folding, inTz: bool) {
    || |f| == 1
    || (inTz && IsIdle(Content(f)) && forall k :: 0 <= k < |f| ==> IsIdle(PieceText(f[k], k == 0)))
    || (!inTz && IsBetween(Content(f)) && forall k :: 0 <= k < |f| ==> IsBetween(PieceText(f[k], k == 0)))
  }

  // Inside a component after the line, or outside.
  function InZoneAfter(inTz: bool, line: string): bool {
    match Classify(Trim(line))
    case BeginZone => true
    case EndZone => false
    case _ => inTz
  }

  // A file of such lines, from inside a component or from outside.
  ghost predicate FoldedUnseen(inTz: bool, fs: seq<Folding>)
    decreases |fs|
  {
    fs == [] || (FoldsUnseen(fs[0], inTz) && FoldedUnseen(InZoneAfter(inTz, Content(fs[0])), fs[1..]))
  }

  // A physical line without its line end.
  function PieceText(p: Piece, first: bool): string {
    (if first then "" else [p.blank]) + p.text
  }

  lemma PhysicalMeans(p: Piece, first: bool)
    requires IsPlain(p.text) && IsFoldBlank(p.blank)
    ensures Trim(Physical(p, first)) == Trim(PieceText(p, first))
  {
    hide Trim;
    var s := Physical(p, first);
    TrimDropsReturn(s);
    if p.crlf {
      assert s[..|s| - 1] == PieceText(p, first);
    } else {
      assert s == PieceText(p, first);
    }
  }

  lemma {:induction false} ScanIdle(st: ZoneScan, lines: seq<string>)
    requires forall i :: 0 <= i < |lines| ==> IsIdle(lines[i])
    ensures ScanLines(st, lines) == st
  {
    hide Classify, Trim, ScanLines;
    if lines == [] {
      ScanNone(st);
    } else {
      var most, last := lines[..|lines| - 1], lines[|lines| - 1];
      ScanIdle(st, most);
      assert lines == most + [last];
      assert IsIdle(last);
      ScanLinesSplits(st, most, [last]);
      ScanOne(st, last);
    }
  }

  lemma {:induction false} ContinuationsAre(f: Folding, i: nat)
    requires i < |f|
    ensures |Continuations(f)| == |f| && Continuations(f)[i] == Physical(f[i], false)
  {
    if i > 0 {
      ContinuationsAre(f[1..], i - 1);
    } else if |f| > 1 {
      ContinuationsAre(f[1..], 0);
    }
  }

  // The continuation lines mean what their pieces mean.
  lemma ContinuationsMean(f: Folding)
    requires forall p :: p in f ==> IsPlain(p.text) && IsFoldBlank(p.blank)
    ensures |Continuations(f)| == |f|
    ensures forall k :: 0 <= k < |f| ==> Trim(Continuations(f)[k]) == Trim(PieceText(f[k], false))
  {
    hide Trim, Physical, PieceText, IsPlain, IsFoldBlank;
    if f != [] {
      ContinuationsAre(f, 0);
    }
    forall k | 0 <= k < |f|
      ensures Trim(Continuations(f)[k]) == Trim(PieceText(f[k], false))
    {
      ContinuationsAre(f, k);
      assert f[k] in f;
      PhysicalMeans(f[k], false);
    }
  }

  lemma ScanFolded(st: ZoneScan, f: Folding)
    requires ValidFolding(f) && forall k :: 1 <= k < |f| ==> IsIdle(PieceText(f[k], false))
    ensures ScanLines(st, [Physical(f[0], true)] + Continuations(f[1..])) == ScanLines(st, [f[0].text])
  {
    hide Classify, Trim, ScanLines, Physical, IsPlain, IsFoldBlank, PieceText;
    assert f[0] in f;
    PhysicalMeans(f[0], true);
    assert PieceText(f[0], true) == f[0].text by {
      FirstPieceText(f[0]);
    }
    ScanLinesSplits(st, [Physical(f[0], true)], Continuations(f[1..]));
    ScanOne(st, Physical(f[0], true));
    ScanOne(st, f[0].text);
    assert forall p :: p in f[1..] ==> p in f;
    ContinuationsMean(f[1..]);
    forall k | 0 <= k < |f[1..]|
      ensures IsIdle(Continuations(f[1..])[k])
    {
      assert IsIdle(PieceText(f[k + 1], false));
    }
    ScanIdle(ScanLines(st, [f[0].text]), Continuations(f[1..]));
  }

  lemma FirstPieceText(p: Piece)
    ensures PieceText(p, true) == p.text
  {
  }

  lemma UnseenFolding(st: ZoneScan, f: Folding)
    requires ValidFolding(f) && FoldsUnseen(f, st.inTz)
    ensures ScanLines(st, [Physical(f[0], true)] + Continuations(f[1..])) == ScanLines(st, [Content(f)])
  {
    hide Classify, Trim, ScanLines, Physical, IsPlain, IsFoldBlank, Continuations, PieceText;
    FirstPieceText(f[0]);
    assert PieceText(f[0], 0 == 0) == f[0].text;
    if |f| == 1 {
      ScanFolded(st, f);
      OnePiece(f);
    } else if st.inTz {
      ScanFolded(st, f);
      ScanIdle(st, [f[0].text]);
      ScanIdle(st, [Content(f)]);
    } else {
      assert f[0] in f;
      PhysicalMeans(f[0], true);
      assert forall p :: p in f[1..] ==> p in f;
      ContinuationsMean(f[1..]);
      var lines := [Physical(f[0], true)] + Continuations(f[1..]);
      forall k | 0 <= k < |lines|
        ensures IsBetween(lines[k])
      {
        assert IsBetween(PieceText(f[k], k == 0));
        assert k > 0 ==> lines[k] == Continuations(f[1..])[k - 1] && f[1..][k - 1] == f[k];
      }
      ScanBetween(st, lines);
      ScanBetween(st, [Content(f)]);
    }
  }

  lemma OnePiece(f: Folding)
    requires |f| == 1
    ensures Content(f) == f[0].text
  {
    assert f[1..] == [];
    assert f[0].text + "" == f[0].text;
  }

  lemma ZoneAfterLine(st: ZoneScan, line: string)
    ensures ScanLines(st, [line]).inTz == InZoneAfter(st.inTz, line)
  {
    hide Classify, Trim, ScanLines;
    ScanOne(st, line);
  }

  /** A calendar folded anywhere but in lines that matter where they stand is scanned
      as its content lines are. */
  lemma {:induction false} ScanUnseenFile(st: ZoneScan, fs: seq<Folding>)
    requires ValidFile(fs) && FoldedUnseen(st.inTz, fs)
    ensures ScanLines(st, PhysicalLines(fs)) == ScanLines(st, Contents(fs))
    decreases |fs|
  {
    hide ScanLines, Physical, Continuations, Content, FoldsUnseen, ValidFolding, InZoneAfter;
    if fs == [] {
      assert Contents(fs) == [];
    } else {
      var f := fs[0];
      ValidIsNotEmpty(f);
      var first := [Physical(f[0], true)] + Continuations(f[1..]);
      assert PhysicalLines(fs) == first + PhysicalLines(fs[1..]);
      ScanLinesSplits(st, first, PhysicalLines(fs[1..]));
      UnseenFolding(st, f);
      ZoneAfterLine(st, Content(f));
      ScanUnseenFile(ScanLines(st, first), fs[1..]);
      assert Contents(fs) == [Content(f)] + Contents(fs[1..]);
      ScanLinesSplits(st, [Content(f)], Contents(fs[1..]));
    }
  }

  lemma ValidIsNotEmpty(f: Folding)
    requires ValidFolding(f)
    ensures f != []
  {
  }

  lemma OffsetsOfFile(fs: seq<Folding>)
    requires ValidFile(fs)
    ensures VtzOffsets(FoldedText(fs)) == ScanLines(NO_ZONE, PhysicalLines(fs)).offsets
  {
    hide Classify, Trim, Pieces, Terminated, PhysicalLines, ScanZones;
    PhysicalHasNoNewline(fs);
    PiecesOfTerminated(PhysicalLines(fs), '\n');
    assert ZoneLines(FoldedText(fs)) == Meanings(PhysicalLines(fs));
  }

  /** From the text of a calendar, with LF or CRLF and folded in lines that do not
      matter here, each TZID is recorded as its components say. */
  lemma FoldedZonesReadBack(fs: seq<Folding>, zones: seq<Zone>, after: seq<string>)
    requires ValidFile(fs) && FoldedUnseen(false, fs)
    requires forall i :: 0 <= i < |zones| ==> ValidZone(zones[i])
    requires forall i :: 0 <= i < |after| ==> IsBetween(after[i])
    requires Contents(fs) == ZonesText(zones, after)
    ensures VtzOffsets(FoldedText(fs)) == RecordAll(map[], zones)
  {
    hide ValidFile, FoldedUnseen, ValidZone, IsBetween, Contents, ZonesText, FoldedText, VtzOffsets, ScanLines,
      PhysicalLines, RecordAll;
    OffsetsOfFile(fs);
    ScanUnseenFile(NO_ZONE, fs);
    ZonesReadBack(NO_ZONE, zones, after);
  }

  // ---- A folded TZID -----------------------------------------------------

  // A colon comes only after characters of "ZID:".
  predicate ColonsAreEarly(s: string) {
    forall k :: 0 <= k < |s| && s[k] == ':' ==> forall j :: 0 <= j <= k ==> s[j] in "ZID:"
  }

  lemma ClassifyNeedsColon(t: string)
    requires ':' !in t || t[0] in "ZID:"
    ensures Classify(t) == Other
  {
    assert "BEGIN:VTIMEZONE"[5] == ':' && "END:VTIMEZONE"[3] == ':' && "BEGIN:STANDARD"[5] == ':';
    assert "BEGIN:DAYLIGHT"[5] == ':' && "TZID:"[4] == ':' && "TZOFFSETTO:"[10] == ':';
  }

  lemma EarlyColonsAreIdle(p: Piece)
    requires IsFoldBlank(p.blank) && ColonsAreEarly(p.text)
    ensures IsIdle(PieceText(p, false))
  {
    hide Classify, Trim;
    var s := PieceText(p, false);
    var t := Trim(s);
    TrimCutsBlanks(s);
    TrimIsIdempotent(s);
    var i, j :| 0 <= i <= j <= |s| && t == s[i..j] && forall k :: 0 <= k < i || j <= k < |s| ==> IsBlank(s[k]);
    if m :| 0 <= m < |t| && t[m] == ':' {
      assert s[m + i] == ':';
      FirstBlankOnly(p, i, m);
      assert t[0] == s[i];
    }
    ClassifyNeedsColon(t);
  }

  // Where a colon follows the fold, the fold is the only blank before the text.
  lemma FirstBlankOnly(p: Piece, i: nat, m: nat)
    requires IsFoldBlank(p.blank) && ColonsAreEarly(p.text)
    requires var s := PieceText(p, false);
             m + i < |s| && s[m + i] == ':' && !IsBlank(s[i]) && forall k :: 0 <= k < i ==> IsBlank(s[k])
    ensures PieceText(p, false)[i] in "ZID:"
  {
    var s := PieceText(p, false);
    assert s[0] == p.blank && IsBlank(p.blank);
    assert p.text[m + i - 1] == s[m + i];
    assert p.text[0] in "ZID:" && s[1] == p.text[0];
    assert !IsBlank(s[1]);
  }

  lemma EarlyColonsSplit(s: string, t: string)
    requires ColonsAreEarly(s + t)
    ensures ColonsAreEarly(s) && ColonsAreEarly(t)
  {
    var u := s + t;
    forall k | 0 <= k < |s| && s[k] == ':'
      ensures forall j :: 0 <= j <= k ==> s[j] in "ZID:"
    {
      assert u[k] == ':';
      assert forall j :: 0 <= j <= k ==> s[j] == u[j];
    }
    forall k | 0 <= k < |t| && t[k] == ':'
      ensures forall j :: 0 <= j <= k ==> t[j] in "ZID:"
    {
      assert u[|s| + k] == ':';
      assert forall j :: 0 <= j <= k ==> t[j] == u[|s| + j];
    }
  }

  lemma {:induction false} PiecesHaveEarlyColons(f: Folding)
    requires ColonsAreEarly(Content(f))
    ensures forall k :: 0 <= k < |f| ==> ColonsAreEarly(f[k].text)
  {
    hide ColonsAreEarly;
    if f != [] {
      EarlyColonsSplit(f[0].text, Content(f[1..]));
      PiecesHaveEarlyColons(f[1..]);
    }
  }

  ghost predicate HasNoName(parts: seq<ZonePart>) {
    forall i :: 0 <= i < |parts| ==> !parts[i].Name?
  }

  ghost predicate AreValidZones(zones: seq<Zone>) {
    forall i :: 0 <= i < |zones| ==> ValidZone(zones[i])
  }

  ghost predicate AreBetween(lines: seq<string>) {
    forall i :: 0 <= i < |lines| ==> IsBetween(lines[i])
  }

  // The name the scan finds in a folded TZID line: its first physical line only.
  function CutName(f: Folding): string
    requires f != []
  {
    var t := Trim(f[0].text);
    if "TZID:" <= t then t[5..] else ""
  }

  // A folded TZID line; none of its continuation lines reads as something else.
  ghost predicate IsFoldedName(f: Folding, id: string) {
    && ValidFolding(f) && IsTrimmed(id) && Content(f) == "TZID:" + id
    && forall k :: 1 <= k < |f| ==> IsIdle(PieceText(f[k], false))
  }

  lemma NameColon(id: string, n: nat)
    requires ':' !in id && n < |"TZID:" + id| && ("TZID:" + id)[n] == ':'
    ensures n < 5
  {
    assert forall k :: 0 <= k < |id| ==> ("TZID:" + id)[k + 5] == id[k];
  }

  // Behind the first piece of a TZID a colon is the one of TZID: itself.
  lemma RestHasEarlyColons(s: string, rest: string, id: string)
    requires s != "" && ':' !in id && s + rest == "TZID:" + id
    ensures ColonsAreEarly(rest)
  {
    var full := "TZID:" + id;
    forall k | 0 <= k < |rest| && rest[k] == ':'
      ensures forall j :: 0 <= j <= k ==> rest[j] in "ZID:"
    {
      assert full[|s| + k] == rest[k];
      NameColon(id, |s| + k);
      assert forall j :: 0 <= j <= k ==> rest[j] == full[|s| + j];
    }
  }

  // So it is with every name that has no colon.
  lemma ContinuedNameIsIdle(f: Folding, id: string)
    requires ValidFolding(f) && ':' !in id && Content(f) == "TZID:" + id
    ensures forall k :: 1 <= k < |f| ==> IsIdle(PieceText(f[k], false))
  {
    hide ColonsAreEarly, Classify, Trim, PieceText, IsPlain, IsFoldBlank;
    assert Content(f) == f[0].text + Content(f[1..]);
    RestHasEarlyColons(f[0].text, Content(f[1..]), id);
    PiecesHaveEarlyColons(f[1..]);
    forall k | 1 <= k < |f|
      ensures IsIdle(PieceText(f[k], false))
    {
      assert f[k] == f[1..][k - 1] && f[k] in f;
      EarlyColonsAreIdle(f[k]);
    }
  }

  lemma TrimIsShorter(s: string)
    ensures |Trim(s)| <= |s|
  {
  }

  lemma StartsWithName(s: string)
    requires "TZID:" <= s
    ensures "TZID:" <= Trim(s)
  {
    hide Trim;
    TrimCutsBlanks(s);
    var i, j :| 0 <= i <= j <= |s| && Trim(s) == s[i..j]
             && forall k :: 0 <= k < i || j <= k < |s| ==> s[k] in " \t\r\n";
    assert s[0] == 'T' && s[4] == ':';
    assert i == 0 && j >= 5;
  }

  // A cut name, or nothing at all.
  lemma CutNameMeans(f: Folding, id: string)
    requires IsFoldedName(f, id)
    ensures Classify(Trim(f[0].text)) == if "TZID:" <= f[0].text then Tzid(CutName(f)) else Other
    ensures !("TZID:" <= f[0].text) ==> f[0].text <= "TZID:"
  {
    hide ParseTzOffset, Trim, Classify;
    var s, full := f[0].text, "TZID:" + id;
    assert full == s + Content(f[1..]);
    if "TZID:" <= s {
      StartsWithName(s);
      ClassifyTzid(CutName(f));
      assert Trim(s) == "TZID:" + CutName(f);
    } else {
      PartOfTag(s, Content(f[1..]), id);
      PartOfTagIsIdle(s);
    }
  }

  lemma PartOfTag(s: string, rest: string, id: string)
    requires s + rest == "TZID:" + id && !("TZID:" <= s)
    ensures s <= "TZID:" && |s| < 5
  {
    var full := "TZID:" + id;
    var n := if |s| < 5 then |s| else 5;
    assert s[..n] == full[..n] == "TZID:"[..n];
  }

  lemma PartOfTagIsIdle(s: string)
    requires s <= "TZID:" && |s| < 5
    ensures IsIdle(s)
  {
    hide Classify, Trim;
    TrimIsIdempotent(s);
    assert s != "" ==> s[0] == 'T' && s[|s| - 1] == "TZID:"[|s| - 1];
    assert s == "" || IsTrimmed(s);
    TrimIsShorter(s);
    ClassifyNeedsColon(Trim(s));
  }

  // The cut name is the name when nothing is cut off.
  lemma CutNameIsWholeIff(f: Folding, id: string)
    requires IsFoldedName(f, id)
    ensures CutName(f) == id <==> f[0].text == "TZID:" + id
  {
    hide Trim;
    var s, full := f[0].text, "TZID:" + id;
    assert full == s + Content(f[1..]);
    TrimIsShorter(s);
    TrimIsIdempotent(full);
    assert full[|full| - 1] == id[|id| - 1];
    if CutName(f) == id {
      assert Trim(s) == full;
    }
  }

  /** The scan reads physical lines: of a folded TZID it sees only the first one.  In
      any calendar the component, if it has a known standard offset, is recorded under
      the cut name; where no other component has its name, it is recorded under its
      own exactly when the first physical line holds all of it. */
  lemma {:induction false} FoldedNameReadsBackIff(pre: seq<Folding>, f: Folding, post: seq<Folding>, id: string,
                                                  first: seq<Zone>, before: seq<string>, a: seq<ZonePart>,
                                                  b: seq<ZonePart>, last: seq<Zone>, after: seq<string>)
    requires ValidFile(pre + [f] + post) && IsFoldedName(f, id)
    requires FoldedUnseen(false, pre) && FoldedUnseen(true, post)
    requires Contents(pre) == ZonesText(first, before + ["BEGIN:VTIMEZONE"] + PartsText(a))
    requires Contents(post) == PartsText(b) + ["END:VTIMEZONE"] + ZonesText(last, after)
    requires AreValidZones(first) && AreValidZones(last)
    requires AreBetween(before) && AreBetween(after)
    requires ValidZoneParts(a) && ValidZoneParts(b) && StandardHours(a + b) != UNKNOWN_OFFSET
    requires HasNoName(a) && HasNoName(b)
    ensures var m := VtzOffsets(FoldedText(pre + [f] + post));
            && m == RecordAll(Recorded(RecordAll(map[], first), CutName(f), StandardHours(a + b)), last)
            && (IsUnnamed(id, first) && IsUnnamed(id, last) ==> (id in m <==> f[0].text == "TZID:" + id))
  {
    hide *;
    FoldedIsNamed(f, id);
    CutNameIsWholeIff(f, id);
    CutRecordIff(id, first, CutName(f), StandardHours(a + b), last);
    OffsetsOfFile(pre + [f] + post);
    UpToName(pre, f, id, first, before, a);
    FileSplits(pre, f, post);
    FromName(ScanLines(ScanLines(NO_ZONE, Contents(pre)), [f[0].text]), a, b, last, after);
  }

  lemma FoldedIsNamed(f: Folding, id: string)
    requires IsFoldedName(f, id)
    ensures ValidFolding(f) && f != [] && id != "" && forall k :: 1 <= k < |f| ==> IsIdle(PieceText(f[k], false))
  {
  }

  lemma UpToName(pre: seq<Folding>, f: Folding, id: string, first: seq<Zone>, before: seq<string>, a: seq<ZonePart>)
    requires IsFoldedName(f, id) && f != []
    requires Contents(pre) == ZonesText(first, before + ["BEGIN:VTIMEZONE"] + PartsText(a))
    requires AreValidZones(first)
    requires ValidZoneParts(a) && AreBetween(before)
    requires HasNoName(a)
    ensures var st := ScanLines(ScanLines(NO_ZONE, Contents(pre)), [f[0].text]);
            && st.inTz && st.offsets == RecordAll(map[], first)
            && st.tzid == CutName(f) && st.stdOffset == StandardHours(a)
  {
    hide Classify, Trim, ScanLines, PartsText, ValidZoneParts, NameAfter, HoursAfter, IsBetween, Contents, CutName,
      ZonesText, RecordAll, ValidZone, IsFoldedName;
    BeginParts(first, before, a);
    var st := ScanLines(NO_ZONE, Contents(pre));
    CutNameMeans(f, id);
    CutIsNothing(f);
    ScanOne(st, f[0].text);
    NoNames(a, "");
  }

  lemma FromName(st: ZoneScan, a: seq<ZonePart>, b: seq<ZonePart>, last: seq<Zone>, after: seq<string>)
    requires st.inTz && st.stdOffset == StandardHours(a) && ValidZoneParts(b)
    requires AreValidZones(last)
    requires AreBetween(after)
    requires HasNoName(b)
    ensures ScanLines(st, PartsText(b) + ["END:VTIMEZONE"] + ZonesText(last, after)).offsets
         == RecordAll(Recorded(st.offsets, st.tzid, StandardHours(a + b)), last)
  {
    hide ScanLines, PartsText, ValidZoneParts, NameAfter, HoursAfter, IsBetween, ZonesText, RecordAll, Recorded,
      ValidZone;
    NoNames(b, st.tzid);
    HoursSplit(a, b);
    EndComponent(st, b);
    ScanLinesSplits(st, PartsText(b) + ["END:VTIMEZONE"], ZonesText(last, after));
    ZonesReadBack(ScanLines(st, PartsText(b) + ["END:VTIMEZONE"]), last, after);
  }

  // No component of that name.
  predicate IsUnnamed(id: string, zones: seq<Zone>) {
    forall i :: 0 <= i < |zones| ==> ZoneName(zones[i].parts) != id
  }

  lemma {:induction false} UnnamedStays(id: string, m: map<string, int>, zones: seq<Zone>)
    requires IsUnnamed(id, zones)
    ensures id in RecordAll(m, zones) <==> id in m
    decreases |zones|
  {
    hide ZoneName, StandardHours;
    if zones != [] {
      UnnamedStays(id, Recorded(m, ZoneName(zones[0].parts), StandardHours(zones[0].parts)), zones[1..]);
    }
  }

  lemma CutRecordIff(id: string, first: seq<Zone>, name: string, hours: int, last: seq<Zone>)
    requires id != "" && hours != UNKNOWN_OFFSET
    ensures IsUnnamed(id, first) && IsUnnamed(id, last) ==>
      (id in RecordAll(Recorded(RecordAll(map[], first), name, hours), last) <==> name == id)
  {
    hide RecordAll, IsUnnamed;
    if IsUnnamed(id, first) && IsUnnamed(id, last) {
      UnnamedStays(id, map[], first);
      UnnamedStays(id, Recorded(RecordAll(map[], first), name, hours), last);
    }
  }

  lemma {:induction false} ZonesTextSplits(zones: seq<Zone>, lines: seq<string>)
    ensures ZonesText(zones, lines) == ZonesText(zones, []) + lines
    decreases |zones|
  {
    hide ZoneText;
    if zones != [] {
      ZonesTextSplits(zones[1..], lines);
    }
  }

  // Past some components and into the next, up to the end of some of its parts.
  lemma BeginParts(first: seq<Zone>, before: seq<string>, a: seq<ZonePart>)
    requires AreValidZones(first)
    requires ValidZoneParts(a) && AreBetween(before)
    ensures var r := ScanLines(NO_ZONE, ZonesText(first, before + ["BEGIN:VTIMEZONE"] + PartsText(a)));
            && r.inTz && r.offsets == RecordAll(map[], first)
            && r.tzid == NameAfter("", a) && r.stdOffset == StandardHours(a)
  {
    hide Classify, Trim, ScanLines, PartsText, ValidZoneParts, NameAfter, HoursAfter, IsBetween, ZonesText, RecordAll,
      ValidZone;
    var begin := before + ["BEGIN:VTIMEZONE"];
    ZonesTextSplits(first, begin + PartsText(a));
    ScanLinesSplits(NO_ZONE, ZonesText(first, []), begin + PartsText(a));
    ZonesReadBack(NO_ZONE, first, []);
    var st := ScanLines(NO_ZONE, ZonesText(first, []));
    ScanLinesSplits(st, begin, PartsText(a));
    BeginComponent(st, before);
    ScanParts(ScanLines(st, begin), a);
  }

  lemma CutIsNothing(f: Folding)
    requires f != []
    ensures !("TZID:" <= f[0].text) && f[0].text <= "TZID:" ==> CutName(f) == ""
  {
    TrimIsShorter(f[0].text);
  }

  lemma BeginComponent(st: ZoneScan, before: seq<string>)
    requires !st.inTz && forall i :: 0 <= i < |before| ==> IsBetween(before[i])
    ensures ScanLines(st, before + ["BEGIN:VTIMEZONE"]) == ZoneScan(true, false, "", UNKNOWN_OFFSET, st.offsets)
  {
    hide Classify, Trim, ScanLines;
    MarkersMean();
    ScanLinesSplits(st, before, ["BEGIN:VTIMEZONE"]);
    ScanBetween(st, before);
    ScanOne(st, "BEGIN:VTIMEZONE");
  }

  lemma EndComponent(st: ZoneScan, parts: seq<ZonePart>)
    requires st.inTz && ValidZoneParts(parts)
    ensures var r := ScanLines(st, PartsText(parts) + ["END:VTIMEZONE"]);
            !r.inTz && r.offsets == Recorded(st.offsets, NameAfter(st.tzid, parts), HoursAfter(st.stdOffset, parts))
  {
    hide Classify, Trim, ScanLines, PartsText, ValidZoneParts, NameAfter, HoursAfter;
    MarkersMean();
    var body, end := PartsText(parts), ["END:VTIMEZONE"];
    ScanLinesSplits(st, body, end);
    ScanParts(st, parts);
    ScanOne(ScanLines(st, body), "END:VTIMEZONE");
  }

  lemma {:induction false} NoNames(parts: seq<ZonePart>, name: string)
    requires HasNoName(parts)
    ensures NameAfter(name, parts) == name
  {
    if parts != [] {
      NoNames(parts[..|parts| - 1], name);
    }
  }

  lemma {:induction false} HoursSplit(a: seq<ZonePart>, b: seq<ZonePart>)
    ensures StandardHours(a + b) == HoursAfter(StandardHours(a), b)
  {
    hide SectionHours;
    if b == [] {
      assert a + b == a;
    } else {
      assert (a + b)[..|a + b| - 1] == a + b[..|b| - 1];
      HoursSplit(a, b[..|b| - 1]);
    }
  }

  // The physical lines around a folded line are scanned as content lines.
  lemma FileSplits(pre: seq<Folding>, f: Folding, post: seq<Folding>)
    requires ValidFile(pre + [f] + post) && ValidFolding(f)
    requires forall k :: 1 <= k < |f| ==> IsIdle(PieceText(f[k], false))
    requires FoldedUnseen(false, pre)
    requires FoldedUnseen(ScanLines(ScanLines(NO_ZONE, Contents(pre)), [f[0].text]).inTz, post)
    ensures ScanLines(NO_ZONE, PhysicalLines(pre + [f] + post))
         == ScanLines(ScanLines(ScanLines(NO_ZONE, Contents(pre)), [f[0].text]), Contents(post))
  {
    hide Classify, Trim, ScanLines, Physical, Continuations, FoldedUnseen, ValidFolding, Contents;
    var fs := pre + [f] + post;
    assert forall i :: 0 <= i < |pre| ==> pre[i] == fs[i];
    assert forall i :: 0 <= i < |post| ==> post[i] == fs[|pre| + 1 + i];
    assert f == fs[|pre|];
    PhysicalSplits(pre, [f] + post);
    assert fs == pre + ([f] + post);
    ValidIsNotEmpty(f);
    var first := [Physical(f[0], true)] + Continuations(f[1..]);
    assert ([f] + post)[1..] == post;
    assert PhysicalLines([f] + post) == first + PhysicalLines(post);
    ScanLinesSplits(NO_ZONE, PhysicalLines(pre), first + PhysicalLines(post));
    ScanUnseenFile(NO_ZONE, pre);
    var st := ScanLines(NO_ZONE, Contents(pre));
    ScanLinesSplits(st, first, PhysicalLines(post));
    ScanFolded(st, f);
    ScanUnseenFile(ScanLines(st, [f[0].text]), post);
  }

  lemma {:induction false} PhysicalSplits(a: seq<Folding>, b: seq<Folding>)
    requires ValidFile(a) && ValidFile(b) && ValidFile(a + b)
    ensures PhysicalLines(a + b) == PhysicalLines(a) + PhysicalLines(b)
    decreases |a|
  {
    hide Physical, Continuations, ValidFolding;
    if a == [] {
      assert a + b == b;
    } else {
      ValidIsNotEmpty(a[0]);
      assert (a + b)[1..] == a[1..] + b;
      PhysicalSplits(a[1..], b);
    }
  }

  // A line that is not folded, with LF.
  function Whole(text: string): Folding {
    [Piece(text, ' ', false)]
  }

  function Wholes(lines: seq<string>): (fs: seq<Folding>)
    ensures |fs| == |lines|
    ensures forall i :: 0 <= i < |lines| ==> fs[i] == Whole(lines[i])
  {
    seq(|lines|, i requires 0 <= i < |lines| => Whole(lines[i]))
  }

  lemma WholesAre(lines: seq<string>)
    requires forall i :: 0 <= i < |lines| ==>
      lines[i] != "" && !IsFoldBlank(lines[i][0]) && IsPlain(lines[i])
    ensures ValidFile(Wholes(lines)) && Contents(Wholes(lines)) == lines
    ensures FoldedUnseen(false, Wholes(lines)) && FoldedUnseen(true, Wholes(lines))
  {
    UnfoldedIsUnseen(false, Wholes(lines));
    UnfoldedIsUnseen(true, Wholes(lines));
    hide IsPlain, Content, FoldedUnseen;
    forall i | 0 <= i < |lines|
      ensures Content(Whole(lines[i])) == lines[i] && ValidFolding(Whole(lines[i]))
    {
      OnePiece(Whole(lines[i]));
    }
  }

  lemma {:induction false} UnfoldedIsUnseen(inTz: bool, fs: seq<Folding>)
    requires forall i :: 0 <= i < |fs| ==> |fs[i]| == 1
    ensures FoldedUnseen(inTz, fs)
    decreases |fs|
  {
    hide InZoneAfter, Content;
    if fs != [] {
      UnfoldedIsUnseen(InZoneAfter(inTz, Content(fs[0])), fs[1..]);
    }
  }

  const HEAD := ["BEGIN:VTIMEZONE"]
  const TAIL := ["BEGIN:STANDARD", "TZOFFSETTO:+0300", "END:STANDARD", "END:VTIMEZONE"]
  const FOLDED_NAME: Folding := [Piece("TZID:AB", ' ', false), Piece("C", ' ', false)]
  const CUT_FILE: seq<Folding> := Wholes(HEAD) + [FOLDED_NAME] + Wholes(TAIL)
  const MOSCOW := Section(true, [Offset(false, 3, 0)])

  // Whatever lines stand for the rest of the component.
  lemma CutZoneReads(pre: seq<Folding>, post: seq<Folding>, parts: seq<ZonePart>)
    requires ValidFile(pre + [FOLDED_NAME] + post)
    requires FoldedUnseen(false, pre) && FoldedUnseen(true, post)
    requires Contents(pre) == ["BEGIN:VTIMEZONE"] && Contents(post) == PartsText(parts) + ["END:VTIMEZONE"]
    requires ValidZoneParts(parts) && StandardHours(parts) != UNKNOWN_OFFSET
    requires HasNoName(parts)
    ensures VtzOffsets(FoldedText(pre + [FOLDED_NAME] + post)) == map["AB" := StandardHours(parts)]
  {
    CutToAB();
    FoldedNameIsValid();
    NoParts();
    NoZones(["BEGIN:VTIMEZONE"]);
    NoZones([]);
    hide VtzOffsets, FoldedText, Contents, FoldedUnseen, StandardHours, CutName, IsFoldedName, ValidFile, PartsText,
      ValidZoneParts, ZonesText, RecordAll, HasNoName, AreValidZones, AreBetween;
    var none: seq<ZonePart> := [];
    assert none + parts == parts;
    assert [] + ["BEGIN:VTIMEZONE"] + PartsText(none) == ["BEGIN:VTIMEZONE"];
    assert PartsText(parts) + ["END:VTIMEZONE"] + [] == PartsText(parts) + ["END:VTIMEZONE"];
    FoldedNameReadsBackIff(pre, FOLDED_NAME, post, "ABC", [], [], none, parts, [], []);
  }

  /** So a zone ABC whose TZID line is folded after AB is known as AB only. */
  lemma FoldedNameIsLost()
    ensures Content(FOLDED_NAME) == "TZID:ABC"
    ensures ValidFile(CUT_FILE) && VtzOffsets(FoldedText(CUT_FILE)) == map["AB" := 3]
  {
    hide *;
    HeadAndTailAre();
    MoscowIs();
    CutZoneReads(Wholes(HEAD), Wholes(TAIL), [MOSCOW]);
  }

  lemma MoscowIs()
    ensures PartsText([MOSCOW]) == TAIL[..3] && |TAIL| == 4 && ValidZoneParts([MOSCOW]) && HasNoName([MOSCOW])
    ensures StandardHours([MOSCOW]) == 3 && 3 != UNKNOWN_OFFSET
  {
    TailIs(MOSCOW);
  }

  lemma NoZones(lines: seq<string>)
    ensures ZonesText([], lines) == lines && forall m :: RecordAll(m, []) == m
  {
  }

  lemma NoParts()
    ensures PartsText([]) == [] && ValidZoneParts([]) && HasNoName([]) && AreValidZones([]) && AreBetween([])
  {
  }

  lemma HeadAndTailAre()
    ensures CUT_FILE == Wholes(HEAD) + [FOLDED_NAME] + Wholes(TAIL) && ValidFile(CUT_FILE)
    ensures Content(FOLDED_NAME) == "TZID:ABC"
    ensures Contents(Wholes(HEAD)) == ["BEGIN:VTIMEZONE"] && |TAIL| == 4
    ensures Contents(Wholes(TAIL)) == TAIL[..3] + ["END:VTIMEZONE"]
    ensures FoldedUnseen(false, Wholes(HEAD)) && FoldedUnseen(true, Wholes(TAIL))
  {
    hide FoldedUnseen, Content, ValidFolding, Contents;
    TailIsPlain();
    WholesAre(HEAD);
    WholesAre(TAIL);
    FoldedNameIsValid();
  }

  lemma TailIsPlain()
    ensures forall i :: 0 <= i < |TAIL| ==> TAIL[i] != "" && !IsFoldBlank(TAIL[i][0]) && IsPlain(TAIL[i])
  {
  }

  lemma FoldedNameIsValid()
    ensures IsFoldedName(FOLDED_NAME, "ABC")
  {
    var rest := FOLDED_NAME[1..];
    assert rest == [Piece("C", ' ', false)];
    OnePiece(rest);
    assert "TZID:AB" + "C" == "TZID:" + "ABC";
    ContinuedNameIsIdle(FOLDED_NAME, "ABC");
  }

  lemma CutToAB()
    ensures CutName(FOLDED_NAME) == "AB"
  {
    var t := "TZID:AB";
    assert IsTrimmed(t);
    TrimIsIdempotent(t);
    hide Trim;
    assert "TZID:" <= t && t[5..] == "AB";
  }

  lemma TailIs(section: ZonePart)
    requires section == Section(true, [Offset(false, 3, 0)])
    ensures PartsText([section]) == TAIL[..3] && ValidZoneParts([section]) && StandardHours([section]) == 3
  {
    hide ParseTzOffset;
    OffsetIsNearest(false, 3, 0);
    var line := Offset(false, 3, 0);
    assert SectionText([line]) == [SectionLineText(line)];
    assert OffsetText(false, 3, 0) == "+0300" by {
      assert Pad(0, 2) == "00" && Pad(3, 2) == "03";
    }
    assert "TZOFFSETTO:" + "+0300" == "TZOFFSETTO:+0300";
    assert [section][..0] == [] && [line][..0] == [];
    assert PartsText([section]) == PartText(section);
    assert SectionHours([line], UNKNOWN_OFFSET) == ParseTzOffset(OffsetText(false, 3, 0));
    assert StandardHours([section]) == SectionHours([line], UNKNOWN_OFFSET);
  }

  // ---- A folded TZOFFSETTO -----------------------------------------------

  // No two characters with which a line that matters begins.
  predicate BeginsNoKey(s: string) {
    forall k :: 0 <= k < |s| - 1 ==>
      !(s[k] == 'B' && s[k + 1] == 'E') && !(s[k] == 'E' && s[k + 1] == 'N') && !(s[k] == 'T' && s[k + 1] == 'Z')
  }

  lemma ClassifyNeedsKey(t: string)
    requires BeginsNoKey(t)
    ensures Classify(t) == Other
  {
    assert |t| >= 2 ==> !(t[0] == 'B' && t[1] == 'E') && !(t[0] == 'E' && t[1] == 'N') && !(t[0] == 'T' && t[1] == 'Z');
  }

  lemma SliceBeginsNoKey(s: string, i: nat, j: nat)
    requires BeginsNoKey(s) && i <= j <= |s|
    ensures BeginsNoKey(s[i..j])
  {
    var t := s[i..j];
    forall k | 0 <= k < |t| - 1
      ensures !(t[k] == 'B' && t[k + 1] == 'E') && !(t[k] == 'E' && t[k + 1] == 'N')
              && !(t[k] == 'T' && t[k + 1] == 'Z')
    {
      assert t[k] == s[i + k] && t[k + 1] == s[i + k + 1];
    }
  }

  lemma BlankBeginsNoKey(p: Piece)
    requires IsFoldBlank(p.blank) && BeginsNoKey(p.text)
    ensures BeginsNoKey(PieceText(p, false))
  {
    var s := PieceText(p, false);
    forall k | 0 <= k < |s| - 1
      ensures !(s[k] == 'B' && s[k + 1] == 'E') && !(s[k] == 'E' && s[k + 1] == 'N')
              && !(s[k] == 'T' && s[k + 1] == 'Z')
    {
      assert k > 0 ==> s[k] == p.text[k - 1] && s[k + 1] == p.text[k];
    }
  }

  lemma NoKeyIsIdle(p: Piece)
    requires IsFoldBlank(p.blank) && BeginsNoKey(p.text)
    ensures IsIdle(PieceText(p, false))
  {
    hide Classify, Trim, BeginsNoKey, PieceText, IsBlank, IsFoldBlank;
    var s := PieceText(p, false);
    BlankBeginsNoKey(p);
    TrimCutsBlanks(s);
    var i, j :| 0 <= i <= j <= |s| && Trim(s) == s[i..j]
             && forall k :: 0 <= k < i || j <= k < |s| ==> s[k] in " \t\r\n";
    SliceBeginsNoKey(s, i, j);
    ClassifyNeedsKey(s[i..j]);
  }

  lemma {:induction false} PiecesBeginNoKey(f: Folding)
    requires BeginsNoKey(Content(f))
    ensures forall k :: 0 <= k < |f| ==> BeginsNoKey(f[k].text)
  {
    if f != [] {
      var s, t := f[0].text, Content(f[1..]);
      assert forall k :: 0 <= k < |s| ==> Content(f)[k] == s[k];
      assert forall k :: 0 <= k < |t| ==> Content(f)[|s| + k] == t[k];
      PiecesBeginNoKey(f[1..]);
    }
  }

  ghost predicate IsFoldedOffset(f: Folding, west: bool, hh: nat, mm: nat) {
    ValidFolding(f) && hh < 100 && mm < 60 && Content(f) == "TZOFFSETTO:" + OffsetText(west, hh, mm)
  }

  lemma OffsetChars(west: bool, hh: nat, mm: nat)
    ensures var o := OffsetText(west, hh, mm);
            |o| == 5 && (o[0] == '+' || o[0] == '-') && forall k :: 1 <= k < 5 ==> IsDigit(o[k])
  {
  }

  lemma ContinuedOffsetIsIdle(f: Folding, west: bool, hh: nat, mm: nat)
    requires IsFoldedOffset(f, west, hh, mm)
    ensures forall k :: 1 <= k < |f| ==> IsIdle(PieceText(f[k], false))
  {
    OffsetChars(west, hh, mm);
    hide OffsetText;
    var o, rest := OffsetText(west, hh, mm), Content(f[1..]);
    var full := "TZOFFSETTO:" + o;
    assert full == f[0].text + rest;
    forall k | 0 <= k < |rest| - 1
      ensures !(rest[k] == 'B' && rest[k + 1] == 'E') && !(rest[k] == 'E' && rest[k + 1] == 'N')
              && !(rest[k] == 'T' && rest[k + 1] == 'Z')
    {
      var n := |f[0].text| + k;
      assert rest[k] == full[n] && rest[k + 1] == full[n + 1];
      assert n >= 11 ==> full[n] == o[n - 11];
      assert n >= 10 ==> full[n + 1] == o[n - 10];
    }
    PiecesBeginNoKey(f[1..]);
    forall k | 1 <= k < |f|
      ensures IsIdle(PieceText(f[k], false))
    {
      assert f[k] == f[1..][k - 1] && f[k] in f;
      NoKeyIsIdle(f[k]);
    }
  }

  // The offset the scan finds in the first physical line, if any.
  function CutHours(f: Folding, before: int): int
    requires f != []
  {
    match Classify(Trim(f[0].text)) case OffsetTo(h) => h case _ => before
  }

  // A cut offset is too short to be one.
  lemma CutOffsetMeans(f: Folding, west: bool, hh: nat, mm: nat)
    requires IsFoldedOffset(f, west, hh, mm)
    ensures Classify(Trim(f[0].text)).OffsetTo? || Classify(Trim(f[0].text)) == Other
    ensures CutHours(f, UNKNOWN_OFFSET)
         == if f[0].text == Content(f) then ParseTzOffset(OffsetText(west, hh, mm)) else UNKNOWN_OFFSET
  {
    OffsetChars(west, hh, mm);
    hide OffsetText, Classify, Trim, ParseTzOffset, IsTrimmed, IsPlain, IsFoldBlank;
    var s, o := f[0].text, OffsetText(west, hh, mm);
    assert Content(f) == s + Content(f[1..]);
    CutOffsetIs(s, Content(f[1..]), o);
    TrimIsIdempotent(s);
    if |s| >= 11 {
      ClassifyOffset(o[..|s| - 11]);
      ShortIsUnknown(o[..|s| - 11]);
      if |s| == 16 {
        assert o[..5] == o;
      }
    } else {
      PartOfKeyIsIdle(s);
    }
  }

  lemma CutOffsetIs(s: string, rest: string, o: string)
    requires s != "" && s + rest == "TZOFFSETTO:" + o && |o| == 5
    requires (o[0] == '+' || o[0] == '-') && forall k :: 1 <= k < 5 ==> IsDigit(o[k])
    ensures IsTrimmed(s) && (|s| == 16 <==> s == s + rest)
    ensures if |s| < 11 then s <= "TZOFFSETTO:" else s == "TZOFFSETTO:" + o[..|s| - 11]
  {
    var key, full := "TZOFFSETTO:", "TZOFFSETTO:" + o;
    assert s == full[..|s|];
    assert s[0] == 'T' && s[|s| - 1] == full[|s| - 1];
    assert |s| > 11 ==> s[|s| - 1] == o[|s| - 12];
    if |s| < 11 {
      assert s == key[..|s|];
    } else {
      assert s == key + o[..|s| - 11];
    }
  }

  lemma ShortIsUnknown(o: string)
    ensures |o| < 5 ==> ParseTzOffset(o) == UNKNOWN_OFFSET
  {
  }

  lemma PartOfKeyIsIdle(s: string)
    requires s <= "TZOFFSETTO:" && |s| < 11
    ensures Classify(s) == Other
  {
    assert |s| >= 3 ==> s[2] == 'O';
  }

  ghost predicate AreNotes(lines: seq<SectionLine>) {
    forall i :: 0 <= i < |lines| ==> lines[i].Note? && ValidSectionLine(lines[i])
  }

  lemma {:induction false} NotesKeepHours(lines: seq<SectionLine>, hours: int)
    requires AreNotes(lines)
    ensures SectionHours(lines, hours) == hours
  {
    hide ValidSectionLine;
    if lines != [] {
      NotesKeepHours(lines[..|lines| - 1], hours);
    }
  }

  // No STANDARD sections.
  ghost predicate HasNoHours(parts: seq<ZonePart>) {
    forall i :: 0 <= i < |parts| ==> !(parts[i].Section? && parts[i].standard)
  }

  lemma {:induction false} NoHours(parts: seq<ZonePart>, hours: int)
    requires HasNoHours(parts)
    ensures HoursAfter(hours, parts) == hours
  {
    hide SectionHours;
    if parts != [] {
      NoHours(parts[..|parts| - 1], hours);
    }
  }

  // Into the one STANDARD section, up to its offset.
  lemma BeginSection(before: seq<string>, a: seq<ZonePart>, x: seq<SectionLine>)
    requires forall i :: 0 <= i < |before| ==> IsBetween(before[i])
    requires ValidZoneParts(a) && HasNoHours(a) && AreNotes(x)
    ensures ScanLines(NO_ZONE, before + ["BEGIN:VTIMEZONE"] + PartsText(a) + ["BEGIN:STANDARD"] + SectionText(x))
         == ZoneScan(true, true, ZoneName(a), UNKNOWN_OFFSET, map[])
  {
    hide Classify, Trim, ScanLines, PartsText, SectionText, ValidZoneParts, HoursAfter, SectionHours, IsBetween;
    MarkersMean();
    var start := before + ["BEGIN:VTIMEZONE"];
    ScanLinesSplits(NO_ZONE, start + PartsText(a) + ["BEGIN:STANDARD"], SectionText(x));
    ScanLinesSplits(NO_ZONE, start + PartsText(a), ["BEGIN:STANDARD"]);
    ScanLinesSplits(NO_ZONE, start, PartsText(a));
    BeginComponent(NO_ZONE, before);
    var begun := ScanLines(NO_ZONE, start);
    ScanParts(begun, a);
    NoHours(a, UNKNOWN_OFFSET);
    var st := ScanLines(begun, PartsText(a));
    ScanOne(st, "BEGIN:STANDARD");
    ScanSectionLines(st.(inStd := true), x);
    NotesKeepHours(x, UNKNOWN_OFFSET);
  }

  // From there to the end of the calendar.
  lemma EndSection(st: ZoneScan, y: seq<SectionLine>, b: seq<ZonePart>, after: seq<string>)
    requires st.inTz && st.inStd && AreNotes(y) && ValidZoneParts(b) && HasNoHours(b)
    requires forall i :: 0 <= i < |after| ==> IsBetween(after[i])
    ensures ScanLines(st, SectionText(y) + ["END:STANDARD"] + (PartsText(b) + ["END:VTIMEZONE"] + after)).offsets
         == Recorded(st.offsets, NameAfter(st.tzid, b), st.stdOffset)
  {
    hide Classify, Trim, ScanLines, PartsText, SectionText, ValidZoneParts, HoursAfter, SectionHours, IsBetween,
      NameAfter, Recorded;
    EndsMeanNothing();
    var tail := PartsText(b) + ["END:VTIMEZONE"] + after;
    ScanLinesSplits(st, SectionText(y) + ["END:STANDARD"], tail);
    ScanLinesSplits(st, SectionText(y), ["END:STANDARD"]);
    ScanSectionLines(st, y);
    NotesKeepHours(y, st.stdOffset);
    ScanOne(st, "END:STANDARD");
    ScanLinesSplits(st, PartsText(b) + ["END:VTIMEZONE"], after);
    EndComponent(st, b);
    ScanBetween(ScanLines(st, PartsText(b) + ["END:VTIMEZONE"]), after);
    NoHours(b, st.stdOffset);
  }

  /** Nor does a folded TZOFFSETTO survive: in a calendar whose only VTIMEZONE has a
      name and one STANDARD offset, the zone is recorded, and with that offset,
      exactly when the first physical line holds all of it. */
  lemma {:induction false} FoldedOffsetReadsBackIff(pre: seq<Folding>, f: Folding, post: seq<Folding>,
                                                    west: bool, hh: nat, mm: nat,
                                                    before: seq<string>, a: seq<ZonePart>, x: seq<SectionLine>,
                                                    y: seq<SectionLine>, b: seq<ZonePart>, after: seq<string>)
    requires ValidFile(pre + [f] + post) && IsFoldedOffset(f, west, hh, mm)
    requires FoldedUnseen(false, pre) && FoldedUnseen(true, post)
    requires Contents(pre) == before + ["BEGIN:VTIMEZONE"] + PartsText(a) + ["BEGIN:STANDARD"] + SectionText(x)
    requires Contents(post) == SectionText(y) + ["END:STANDARD"] + (PartsText(b) + ["END:VTIMEZONE"] + after)
    requires forall i :: 0 <= i < |before| ==> IsBetween(before[i])
    requires forall i :: 0 <= i < |after| ==> IsBetween(after[i])
    requires ValidZoneParts(a) && ValidZoneParts(b) && HasNoHours(a) && HasNoHours(b) && AreNotes(x) && AreNotes(y)
    requires NameAfter(ZoneName(a), b) != ""
    ensures VtzOffsets(FoldedText(pre + [f] + post))
         == if f[0].text == Content(f) then map[NameAfter(ZoneName(a), b) := ParseTzOffset(OffsetText(west, hh, mm))]
            else map[]
  {
    WholeOffsetIsKnown(west, hh, mm);
    hide Classify, Trim, ScanLines, PartsText, SectionText, ValidZoneParts, NameAfter, HoursAfter, IsBetween,
      FoldedUnseen, Contents, PhysicalLines, VtzOffsets, FoldedText, ValidFile, ParseTzOffset, OffsetText, HasNoHours,
      AreNotes, IsFoldedOffset, Content;
    OffsetsOfFile(pre + [f] + post);
    FoldedOffsetIsValid(f, west, hh, mm);
    ContinuedOffsetIsIdle(f, west, hh, mm);
    BeginSection(before, a, x);
    var st := ScanLines(NO_ZONE, Contents(pre));
    ScanOne(st, f[0].text);
    CutOffsetMeans(f, west, hh, mm);
    var hours := CutHours(f, UNKNOWN_OFFSET);
    assert ScanLines(st, [f[0].text]) == st.(stdOffset := hours);
    FileSplits(pre, f, post);
    EndSection(ScanLines(st, [f[0].text]), y, b, after);
  }

  lemma FoldedOffsetIsValid(f: Folding, west: bool, hh: nat, mm: nat)
    requires IsFoldedOffset(f, west, hh, mm)
    ensures ValidFolding(f) && hh < 100 && mm < 60
  {
  }

  lemma WholeOffsetIsKnown(west: bool, hh: nat, mm: nat)
    ensures hh < 100 && mm < 60 ==> ParseTzOffset(OffsetText(west, hh, mm)) != UNKNOWN_OFFSET
  {
    hide ParseTzOffset, OffsetText;
    if hh < 100 && mm < 60 {
      OffsetIsNearest(west, hh, mm);
    }
  }
}
