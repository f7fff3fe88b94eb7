/** The line-driven scan that hands VEVENT blocks to the builder. */
module Scanner {
  import opened Results
  import opened Text
  import opened TextUtils
  import opened Events
  import opened EventBuilder

  datatype Marker = BeginEvent | EndEvent | BeginAlarm | EndAlarm | Plain

  function MarkerOf(t: string): Marker {
    if t == "BEGIN:VEVENT" then BeginEvent
    else if t == "END:VEVENT" then EndEvent
    else if t == "BEGIN:VALARM" then BeginAlarm
    else if t == "END:VALARM" then EndAlarm
    else Plain
  }

  /** Four lines are markers, and no others. */
  lemma LineIsPlainIff(t: string)
    ensures MarkerOf(t) == Plain <==> t !in ["BEGIN:VEVENT", "END:VEVENT", "BEGIN:VALARM", "END:VALARM"]
  {
  }

  // What one END:VEVENT hands to the builder.
  datatype Block = Block(event: seq<string>, alarm: seq<string>)

  // The variables of the scan, and the blocks handed over so far.
  datatype Scan = Scan(inEvent: bool, inAlarm: bool, event: seq<string>, alarm: seq<string>, blocks: seq<Block>)

  const START := Scan(false, false, [], [], [])

  function Step(st: Scan, t: string): Scan {
    match MarkerOf(t)
    case BeginEvent => Scan(true, false, [], [], st.blocks)
    case EndEvent =>
      Scan(false, false, [], [], st.blocks + if st.event == [] then [] else [Block(st.event, st.alarm)])
    case _ =>
      if !st.inEvent then st
      else match MarkerOf(t)
        case BeginAlarm => st.(inAlarm := true, alarm := [])
        case EndAlarm => st.(inAlarm := false)
        case _ =>
          if st.inAlarm then st.(alarm := st.alarm + [t]) else st.(event := st.event + [t])
  }

  function Run(st: Scan, lines: seq<string>): Scan
    decreases |lines|
  {
    if lines == [] then st else Run(Step(st, Trim(lines[0])), lines[1..])
  }

  function BlocksOf(lines: seq<string>): seq<Block> {
    Run(START, lines).blocks
  }

  predicate Consistent(st: Scan) {
    && (!st.inEvent ==> st.event == [] && st.alarm == [])
    && (st.inAlarm ==> st.inEvent)
  }

  /** Along every run, outside an event both buffers are empty, and an alarm is
      always inside an event. */
  lemma {:induction false} RunStaysConsistent(st: Scan, lines: seq<string>)
    requires Consistent(st)
    ensures Consistent(Run(st, lines))
    decreases |lines|
  {
    hide MarkerOf, Trim;
    if lines != [] {
      RunStaysConsistent(Step(st, Trim(lines[0])), lines[1..]);
    }
  }

  lemma {:induction false} RunKeepsBlocks(st: Scan, lines: seq<string>)
    ensures st.blocks <= Run(st, lines).blocks
    decreases |lines|
  {
    hide MarkerOf, Trim;
    if lines != [] {
      RunKeepsBlocks(Step(st, Trim(lines[0])), lines[1..]);
    }
  }

  lemma {:induction false} RunSplits(st: Scan, a: seq<string>, b: seq<string>)
    ensures Run(st, a + b) == Run(Run(st, a), b)
    decreases |a|
  {
    hide Step, Trim;
    if a == [] {
      assert a + b == b;
    } else {
      assert (a + b)[1..] == a[1..] + b;
      RunSplits(Step(st, Trim(a[0])), a[1..], b);
    }
  }

  /** The raw events built from the blocks, in order; those without a UID are
      dropped, and the first exception ends the scan. */
  function RawsOf(blocks: seq<Block>, z: Zones): Result<seq<RawEvent>> {
    if blocks == [] then Ok([])
    else
      var last := blocks[|blocks| - 1];
      var raws :- RawsOf(blocks[..|blocks| - 1], z);
      var re :- BuildOf(last.event, last.alarm, z);
      Ok(if re.ev.uid == "" then raws else raws + [re])
  }

  lemma {:induction false} FirstFailureStays(blocks: seq<Block>, n: nat, z: Zones)
    requires n <= |blocks| && RawsOf(blocks[..n], z).Err?
    ensures RawsOf(blocks, z) == RawsOf(blocks[..n], z)
    decreases |blocks|
  {
    if n < |blocks| {
      assert blocks[..|blocks| - 1][..n] == blocks[..n];
      FirstFailureStays(blocks[..|blocks| - 1], n, z);
    } else {
      assert blocks[..n] == blocks;
    }
  }

  lemma RawsAppend(blocks: seq<Block>, b: Block, z: Zones)
    requires RawsOf(blocks, z).Ok?
    ensures RawsOf(blocks + [b], z)
         == match BuildOf(b.event, b.alarm, z)
            case Ok(re) => Ok(if re.ev.uid == "" then RawsOf(blocks, z).value else RawsOf(blocks, z).value + [re])
            case Err(e) => Err(e)
  {
  }

  lemma RunStep(st: Scan, lines: seq<string>, n: nat)
    requires n < |lines|
    ensures Run(st, lines[n..]) == Run(Step(st, Trim(lines[n])), lines[n + 1..])
  {
  }

  // A failed block fails the whole scan.
  lemma FailureEndsScan(st: Scan, rest: seq<string>, z: Zones)
    requires RawsOf(st.blocks, z).Err?
    ensures RawsOf(Run(st, rest).blocks, z) == RawsOf(st.blocks, z)
  {
    hide Run, RawsOf;
    RunKeepsBlocks(st, rest);
    var all := Run(st, rest).blocks;
    assert all[..|st.blocks|] == st.blocks;
    FirstFailureStays(all, |st.blocks|, z);
  }

  method CollectRawEvents(unfolded: string, z: Zones) returns (r: Result<seq<RawEvent>>)
    ensures r == RawsOf(BlocksOf(Lines(unfolded)), z)
  {
    hide MarkerOf, Trim, BuildOf, Lines, Run, RawsOf;
    var lines := Lines(unfolded);
    var raws: seq<RawEvent> := [];
    var inEvent, inAlarm := false, false;
    var event: seq<string>, alarm: seq<string> := [], [];
    ghost var blocks: seq<Block> := [];
    NoRaws(z);
    assert lines[0..] == lines;
    for n := 0 to |lines|
      invariant RawsOf(blocks, z) == Ok(raws)
      invariant Run(START, lines) == Run(Scan(inEvent, inAlarm, event, alarm, blocks), lines[n..])
    {
      RunStep(Scan(inEvent, inAlarm, event, alarm, blocks), lines, n);
      var line := lines[n];
      TrimDropsReturn(line);
      if line != "" && line[|line| - 1] == '\r' {
        line := line[..|line| - 1];
      }
      var t := Trim(line);
      var marker := MarkerOf(t);
      if marker == BeginEvent {
        inEvent, inAlarm, event, alarm := true, false, [], [];
        continue;
      }
      if marker == EndEvent {
        inEvent, inAlarm := false, false;
        assert blocks + [] == blocks;
        if event != [] {
          var re := Build(event, alarm, z);
          RawsAppend(blocks, Block(event, alarm), z);
          blocks := blocks + [Block(event, alarm)];
          if re.Err? {
            FailureEndsScan(Scan(false, false, [], [], blocks), lines[n + 1..], z);
            return Err(re.error);
          }
          if re.value.ev.uid != "" {
            raws := raws + [re.value];
          }
        }
        event, alarm := [], [];
        continue;
      }
      if !inEvent {
        continue;
      }
      if marker == BeginAlarm {
        inAlarm, alarm := true, [];
        continue;
      }
      if marker == EndAlarm {
        inAlarm := false;
        continue;
      }
      if inAlarm {
        alarm := alarm + [t];
      } else {
        event := event + [t];
      }
    }
    assert lines[|lines|..] == [];
    RunNothing(Scan(inEvent, inAlarm, event, alarm, blocks));
    return Ok(raws);
  }

  lemma NoRaws(z: Zones)
    ensures RawsOf([], z) == Ok([])
  {
  }

  // ---- Any calendar ------------------------------------------------------

  // The block handed to the builder at k is the first it cannot read.
  ghost predicate IsFirstBad(blocks: seq<Block>, z: Zones, k: nat) {
    && k < |blocks| && BuildOf(blocks[k].event, blocks[k].alarm, z).Err?
    && forall j :: 0 <= j < k ==> BuildOf(blocks[j].event, blocks[j].alarm, z).Ok?
  }

  /** The first block that throws decides, and where there is none nothing throws. */
  lemma {:induction false} RawsThrowIff(blocks: seq<Block>, z: Zones)
    ensures forall k: nat :: IsFirstBad(blocks, z, k) ==>
      RawsOf(blocks, z) == Err(BuildOf(blocks[k].event, blocks[k].alarm, z).error)
    ensures RawsOf(blocks, z).Ok? <==>
      forall k :: 0 <= k < |blocks| ==> BuildOf(blocks[k].event, blocks[k].alarm, z).Ok?
  {
    hide BuildOf;
    if blocks != [] {
      var n := |blocks| - 1;
      RawsThrowIff(blocks[..n], z);
      assert blocks == blocks[..n] + [blocks[n]];
      forall k: nat | k < n && IsFirstBad(blocks, z, k)
        ensures IsFirstBad(blocks[..n], z, k)
      {
        assert forall j :: 0 <= j <= k ==> blocks[..n][j] == blocks[j];
      }
    }
  }

  /** The raw events are those of the blocks that have a UID. */
  lemma {:induction false} RawsMember(blocks: seq<Block>, z: Zones, re: RawEvent)
    requires RawsOf(blocks, z).Ok?
    ensures re in RawsOf(blocks, z).value
        <==> re.ev.uid != "" && exists k :: 0 <= k < |blocks| && BuildOf(blocks[k].event, blocks[k].alarm, z) == Ok(re)
  {
    hide BuildOf;
    if blocks != [] {
      var most, last := blocks[..|blocks| - 1], blocks[|blocks| - 1];
      RawsMember(most, z, re);
      assert blocks == most + [last];
      var raws := RawsOf(most, z).value;
      var next := BuildOf(last.event, last.alarm, z).value;
      assert RawsOf(blocks, z).value == if next.ev.uid == "" then raws else raws + [next];
    }
  }

  lemma {:induction false} EarlierBlocksStay(st: Scan, lines: seq<string>)
    ensures Run(st, lines).blocks == st.blocks + Run(st.(blocks := []), lines).blocks
    decreases |lines|
  {
    hide MarkerOf, Trim;
    if lines == [] {
      assert st.blocks + [] == st.blocks;
    } else {
      var t := Trim(lines[0]);
      var next, alone := Step(st, t), Step(st.(blocks := []), t);
      assert next.blocks == st.blocks + alone.blocks && next.(blocks := []) == alone.(blocks := []);
      EarlierBlocksStay(next, lines[1..]);
      EarlierBlocksStay(alone, lines[1..]);
    }
  }

  /** Lines are scanned as they are without the blanks around them. */
  lemma {:induction false} RunIgnoresBlanks(st: Scan, lines: seq<string>, padded: seq<string>)
    requires |lines| == |padded| && forall i :: 0 <= i < |lines| ==> Trim(padded[i]) == Trim(lines[i])
    ensures Run(st, padded) == Run(st, lines)
    decreases |lines|
  {
    hide Step, Trim;
    if lines != [] {
      RunIgnoresBlanks(Step(st, Trim(lines[0])), lines[1..], padded[1..]);
    }
  }

  /** Wherever it stands, BEGIN:VEVENT starts afresh: an event that was not closed before
      it is forgotten. */
  lemma BeginStartsAfresh(a: seq<string>, b: seq<string>)
    ensures BlocksOf(a + ["BEGIN:VEVENT"] + b) == BlocksOf(a) + BlocksOf(["BEGIN:VEVENT"] + b)
  {
    hide Run, Trim, MarkerOf;
    MarkersAreTrimmed();
    var st, line := Run(START, a), ["BEGIN:VEVENT"];
    RunSplits(START, a + line, b);
    RunSplits(START, a, line);
    RunSplits(START, line, b);
    RunSingle(st, "BEGIN:VEVENT");
    RunSingle(START, "BEGIN:VEVENT");
    EarlierBlocksStay(Scan(true, false, [], [], st.blocks), b);
  }

  /** And END:VEVENT ends whatever is open, an alarm too: what follows is scanned as a
      calendar of its own. */
  lemma EndEndsAll(a: seq<string>, b: seq<string>)
    ensures BlocksOf(a + ["END:VEVENT"] + b) == BlocksOf(a + ["END:VEVENT"]) + BlocksOf(b)
  {
    hide Run, Trim, MarkerOf;
    MarkersAreTrimmed();
    var st, line := Run(START, a), ["END:VEVENT"];
    RunSplits(START, a + line, b);
    RunSplits(START, a, line);
    RunSingle(st, "END:VEVENT");
    EarlierBlocksStay(Run(START, a + line), b);
  }

  // ---- Printed calendars -------------------------------------------------

  // A line of an event, or a VALARM inside it.
  datatype Item = Line(text: string) | AlarmBlock(lines: seq<string>)

  // A VEVENT, and the lines that stand between it and the event before.
  datatype Vevent = Vevent(before: seq<string>, items: seq<Item>)

  ghost predicate IsBodyLine(s: string) {
    IsTrimmed(s) && MarkerOf(s) == Plain
  }

  ghost predicate ValidItem(item: Item) {
    match item
    case Line(text) => IsBodyLine(text)
    case AlarmBlock(lines) => forall i :: 0 <= i < |lines| ==> IsBodyLine(lines[i])
  }

  ghost predicate IsOutsideLine(s: string) {
    MarkerOf(Trim(s)) != BeginEvent
  }

  ghost predicate ValidVevent(v: Vevent) {
    && (forall i :: 0 <= i < |v.before| ==> IsOutsideLine(v.before[i]))
    && (forall i :: 0 <= i < |v.items| ==> ValidItem(v.items[i]))
  }

  function ItemLines(item: Item): seq<string> {
    match item
    case Line(text) => [text]
    case AlarmBlock(lines) => ["BEGIN:VALARM"] + lines + ["END:VALARM"]
  }

  function ItemsLines(items: seq<Item>): seq<string> {
    if items == [] then [] else ItemsLines(items[..|items| - 1]) + ItemLines(items[|items| - 1])
  }

  function CalendarLines(events: seq<Vevent>, after: seq<string>): seq<string> {
    if events == [] then after
    else
      events[0].before + ["BEGIN:VEVENT"] + ItemsLines(events[0].items) + ["END:VEVENT"]
      + CalendarLines(events[1..], after)
  }

  // The event's own lines, in order.
  function EventLines(items: seq<Item>): seq<string> {
    if items == [] then []
    else
      var last := items[|items| - 1];
      EventLines(items[..|items| - 1]) + if last.Line? then [last.text] else []
  }

  // The lines of the last VALARM.
  function LastAlarm(items: seq<Item>): seq<string> {
    if items == [] then []
    else
      var last := items[|items| - 1];
      if last.AlarmBlock? then last.lines else LastAlarm(items[..|items| - 1])
  }

  function PrintedBlocks(events: seq<Vevent>): seq<Block> {
    if events == [] then []
    else
      var lines := EventLines(events[0].items);
      (if lines == [] then [] else [Block(lines, LastAlarm(events[0].items))]) + PrintedBlocks(events[1..])
  }

  lemma MarkersAreTrimmed()
    ensures MarkerOf(Trim("BEGIN:VEVENT")) == BeginEvent && MarkerOf(Trim("END:VEVENT")) == EndEvent
    ensures MarkerOf(Trim("BEGIN:VALARM")) == BeginAlarm && MarkerOf(Trim("END:VALARM")) == EndAlarm
  {
    TrimIsIdempotent("BEGIN:VEVENT");
    TrimIsIdempotent("END:VEVENT");
    TrimIsIdempotent("BEGIN:VALARM");
    TrimIsIdempotent("END:VALARM");
    hide Trim;
  }

  lemma {:induction false} RunOutside(lines: seq<string>, blocks: seq<Block>)
    requires forall i :: 0 <= i < |lines| ==> IsOutsideLine(lines[i])
    ensures Run(START.(blocks := blocks), lines) == START.(blocks := blocks)
    decreases |lines|
  {
    hide Trim, MarkerOf;
    if lines != [] {
      assert IsOutsideLine(lines[0]);
      assert START.(blocks := blocks + []) == START.(blocks := blocks);
      RunOutside(lines[1..], blocks);
    }
  }

  lemma {:induction false} RunAlarm(st: Scan, lines: seq<string>)
    requires st.inEvent && st.inAlarm
    requires forall i :: 0 <= i < |lines| ==> IsBodyLine(lines[i])
    ensures Run(st, lines) == st.(alarm := st.alarm + lines)
    decreases |lines|
  {
    hide Trim, MarkerOf;
    if lines != [] {
      assert IsBodyLine(lines[0]);
      TrimIsIdempotent(lines[0]);
      RunAlarm(st.(alarm := st.alarm + [lines[0]]), lines[1..]);
      assert st.alarm + [lines[0]] + lines[1..] == st.alarm + lines;
    } else {
      assert st.alarm + lines == st.alarm;
    }
  }

  lemma RunItem(st: Scan, item: Item)
    requires st.inEvent && !st.inAlarm && ValidItem(item)
    ensures Run(st, ItemLines(item))
         == match item
            case Line(text) => st.(event := st.event + [text])
            case AlarmBlock(lines) => st.(alarm := lines)
  {
    hide Trim, MarkerOf;
    match item {
      case Line(text) =>
        TrimIsIdempotent(text);
        assert [text][1..] == [];
      case AlarmBlock(lines) =>
        MarkersAreTrimmed();
        var all := ["BEGIN:VALARM"] + lines + ["END:VALARM"];
        assert all[1..] == lines + ["END:VALARM"];
        var begun := st.(inAlarm := true, alarm := []);
        RunSplits(begun, lines, ["END:VALARM"]);
        RunAlarm(begun, lines);
        assert [] + lines == lines;
        assert ["END:VALARM"][1..] == [];
    }
  }

  lemma {:induction false} RunItems(items: seq<Item>, blocks: seq<Block>)
    requires forall i :: 0 <= i < |items| ==> ValidItem(items[i])
    ensures Run(Scan(true, false, [], [], blocks), ItemsLines(items))
         == Scan(true, false, EventLines(items), LastAlarm(items), blocks)
  {
    hide Run, ItemLines;
    var st := Scan(true, false, [], [], blocks);
    if items == [] {
      RunNothing(st);
    } else {
      var most, last := items[..|items| - 1], items[|items| - 1];
      RunItems(most, blocks);
      RunSplits(st, ItemsLines(most), ItemLines(last));
      RunItem(Scan(true, false, EventLines(most), LastAlarm(most), blocks), last);
    }
  }

  lemma RunNothing(st: Scan)
    ensures Run(st, []) == st
  {
  }

  // From outside an event, over one VEVENT, to outside again.
  lemma RunVevent(v: Vevent, blocks: seq<Block>)
    requires ValidVevent(v)
    ensures Run(START.(blocks := blocks), v.before + ["BEGIN:VEVENT"] + ItemsLines(v.items) + ["END:VEVENT"])
         == START.(blocks := blocks + PrintedBlocks([v]))
  {
    hide Run, Trim, MarkerOf, ItemsLines;
    var st := START.(blocks := blocks);
    var body := ItemsLines(v.items);
    var begun := Scan(true, false, [], [], blocks);
    var inside := Scan(true, false, EventLines(v.items), LastAlarm(v.items), blocks);
    RunSplits(st, v.before + ["BEGIN:VEVENT"] + body, ["END:VEVENT"]);
    RunSplits(st, v.before + ["BEGIN:VEVENT"], body);
    RunSplits(st, v.before, ["BEGIN:VEVENT"]);
    RunOutside(v.before, blocks);
    MarkersAreTrimmed();
    RunSingle(st, "BEGIN:VEVENT");
    RunItems(v.items, blocks);
    RunSingle(inside, "END:VEVENT");
    assert PrintedBlocks([v][1..]) == [];
    assert PrintedBlocks([v]) == (if inside.event == [] then [] else [Block(inside.event, inside.alarm)]);
  }

  lemma RunSingle(st: Scan, line: string)
    ensures Run(st, [line]) == Step(st, Trim(line))
  {
  }

  lemma PrintedNothing()
    ensures PrintedBlocks([]) == []
  {
  }

  lemma PrintedSplits(events: seq<Vevent>)
    requires events != []
    ensures PrintedBlocks(events) == PrintedBlocks([events[0]]) + PrintedBlocks(events[1..])
  {
  }

  lemma {:induction false} RunCalendar(events: seq<Vevent>, after: seq<string>, blocks: seq<Block>)
    requires forall i :: 0 <= i < |events| ==> ValidVevent(events[i])
    requires forall i :: 0 <= i < |after| ==> IsOutsideLine(after[i])
    ensures Run(START.(blocks := blocks), CalendarLines(events, after)).blocks == blocks + PrintedBlocks(events)
    decreases |events|
  {
    hide Run, ItemsLines, PrintedBlocks;
    if events == [] {
      RunOutside(after, blocks);
      PrintedNothing();
      assert blocks + [] == blocks;
    } else {
      var v := events[0];
      RunVevent(v, blocks);
      var first := v.before + ["BEGIN:VEVENT"] + ItemsLines(v.items) + ["END:VEVENT"];
      RunSplits(START.(blocks := blocks), first, CalendarLines(events[1..], after));
      RunCalendar(events[1..], after, blocks + PrintedBlocks([v]));
      PrintedSplits(events);
      assert blocks + PrintedBlocks([v]) + PrintedBlocks(events[1..]) == blocks + PrintedBlocks(events);
    }
  }

  /** Any calendar of VEVENTs, folded in any way, reaches the builder as exactly
      the lines it was printed from: each event's own lines in order, with the
      lines of its last VALARM; an event without lines of its own is skipped. */
  lemma ScanInvertsFoldedPrint(events: seq<Vevent>, after: seq<string>, fs: seq<Folding>)
    requires forall i :: 0 <= i < |events| ==> ValidVevent(events[i])
    requires forall i :: 0 <= i < |after| ==> IsOutsideLine(after[i])
    requires ValidFile(fs) && Contents(fs) == CalendarLines(events, after)
    ensures BlocksOf(Lines(UnfoldText(FoldedText(fs)))) == PrintedBlocks(events)
  {
    hide Lines, UnfoldText, FoldedText, PrintedBlocks, CalendarLines, Run;
    UnfoldInvertsFold(fs);
    RunCalendar(events, after, []);
    assert [] + PrintedBlocks(events) == PrintedBlocks(events);
  }
}
