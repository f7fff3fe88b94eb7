/** What the VTIMEZONE scan records of any text, stated without the scan. */
module ZoneRecords {
  import opened Timezone

  /** A component opens at line i and is still open at line e. */
  ghost predicate IsOpen(lines: seq<ZoneLine>, i: nat, e: nat) {
    && i < e <= |lines| && lines[i].BeginZone?
    && forall k :: i < k < e ==> !lines[k].BeginZone? && !lines[k].EndZone?
  }

  // The section opened last before line n is a STANDARD one; END:STANDARD closes nothing.
  ghost predicate InStandard(lines: seq<ZoneLine>, i: nat, n: nat) {
    exists b :: i < b < n && b < |lines| && lines[b].BeginStandard?
             && forall k :: b < k < n && k < |lines| ==> !lines[k].BeginDaylight?
  }

  // The last TZID between lines i and e.
  ghost predicate IsLastName(lines: seq<ZoneLine>, i: nat, e: nat, id: string) {
    exists n :: i < n < e && n < |lines| && lines[n] == Tzid(id)
             && forall k :: n < k < e && k < |lines| ==> !lines[k].Tzid?
  }

  // The last TZOFFSETTO of a STANDARD section between lines i and e.
  ghost predicate IsLastOffset(lines: seq<ZoneLine>, i: nat, e: nat, hours: int) {
    exists n :: i < n < e && n < |lines| && lines[n] == OffsetTo(hours) && InStandard(lines, i, n)
             && forall k :: n < k < e && k < |lines| && lines[k].OffsetTo? ==> !InStandard(lines, i, k)
  }

  /** The component from line i to its END at line e names itself id and has the
      known standard offset `hours`. */
  ghost predicate Records(lines: seq<ZoneLine>, i: nat, e: nat, id: string, hours: int) {
    && IsOpen(lines, i, e) && e < |lines| && lines[e].EndZone?
    && IsLastName(lines, i, e, id) && id != ""
    && IsLastOffset(lines, i, e, hours) && hours != UNKNOWN_OFFSET
  }

  // The last of the first n lines that ends such a component of that name.
  ghost predicate IsLastRecord(lines: seq<ZoneLine>, n: nat, id: string, hours: int, i: nat, e: nat) {
    && e < n && Records(lines, i, e, id, hours)
    && forall j: nat, f: nat, h: int :: f < n && Records(lines, j, f, id, h) ==> f <= e
  }

  // ---- The state of the scan after n lines -------------------------------

  function After(lines: seq<ZoneLine>, n: nat): ZoneScan
    requires n <= |lines|
  {
    ScanZones(NO_ZONE, lines[..n])
  }

  lemma AfterStep(lines: seq<ZoneLine>, n: nat)
    requires n < |lines|
    ensures After(lines, n + 1) == ZoneStep(After(lines, n), lines[n])
  {
    hide ZoneStep;
    ScanStep(lines, n);
  }

  lemma {:induction false} ZoneIsOpen(lines: seq<ZoneLine>, n: nat)
    requires n <= |lines|
    ensures After(lines, n).inTz <==> exists i: nat :: IsOpen(lines, i, n)
  {
    if n > 0 {
      var m := n - 1;
      ZoneIsOpen(lines, m);
      AfterStep(lines, m);
      hide After;
      if lines[n - 1].BeginZone? {
        assert IsOpen(lines, n - 1, n);
      } else if i: nat :| IsOpen(lines, i, m) {
        assert !lines[n - 1].EndZone? ==> IsOpen(lines, i, n);
      }
      if i: nat :| IsOpen(lines, i, n) {
        assert i < n - 1 ==> IsOpen(lines, i, n - 1);
      }
    }
  }

  lemma OpenIsUnique(lines: seq<ZoneLine>, i: nat, j: nat, e: nat)
    requires IsOpen(lines, i, e) && IsOpen(lines, j, e)
    ensures i == j
  {
  }

  // Just after BEGIN nothing is known.
  lemma JustOpened(lines: seq<ZoneLine>, i: nat)
    requires i < |lines| && lines[i].BeginZone?
    ensures var st := After(lines, i + 1); st.inTz && !st.inStd && st.tzid == "" && st.stdOffset == UNKNOWN_OFFSET
  {
    AfterStep(lines, i);
  }

  lemma {:induction false} SectionIsKnown(lines: seq<ZoneLine>, i: nat, n: nat)
    requires IsOpen(lines, i, n)
    ensures After(lines, n).inTz && (After(lines, n).inStd <==> InStandard(lines, i, n))
    decreases n
  {
    if n == i + 1 {
      JustOpened(lines, i);
    } else {
      SectionIsKnown(lines, i, n - 1);
      AfterStep(lines, n - 1);
      hide After;
      if lines[n - 1].BeginStandard? {
        assert InStandard(lines, i, n);
      } else if InStandard(lines, i, n - 1) {
        var b :| i < b < n - 1 && b < |lines| && lines[b].BeginStandard?
              && forall k :: b < k < n - 1 && k < |lines| ==> !lines[k].BeginDaylight?;
        assert !lines[n - 1].BeginDaylight? ==> InStandard(lines, i, n);
      }
    }
  }

  lemma {:induction false} NameIsKnown(lines: seq<ZoneLine>, i: nat, n: nat)
    requires IsOpen(lines, i, n)
    ensures After(lines, n).tzid != "" ==> IsLastName(lines, i, n, After(lines, n).tzid)
    ensures forall id :: IsLastName(lines, i, n, id) ==> id == After(lines, n).tzid
    decreases n
  {
    if n == i + 1 {
      JustOpened(lines, i);
    } else {
      NameIsKnown(lines, i, n - 1);
      SectionIsKnown(lines, i, n - 1);
      AfterStep(lines, n - 1);
      NameStep(lines, i, n);
      hide After, IsLastName;
    }
  }

  lemma NameStep(lines: seq<ZoneLine>, i: nat, n: nat)
    requires i + 1 < n <= |lines|
    ensures lines[n - 1].Tzid? ==> forall id :: IsLastName(lines, i, n, id) <==> id == lines[n - 1].id
    ensures !lines[n - 1].Tzid? ==> forall id :: IsLastName(lines, i, n, id) <==> IsLastName(lines, i, n - 1, id)
  {
    forall id
      ensures lines[n - 1].Tzid? ==> (IsLastName(lines, i, n, id) <==> id == lines[n - 1].id)
      ensures !lines[n - 1].Tzid? ==> (IsLastName(lines, i, n, id) <==> IsLastName(lines, i, n - 1, id))
    {
      if lines[n - 1].Tzid? {
        assert lines[n - 1] == Tzid(lines[n - 1].id);
      } else if IsLastName(lines, i, n - 1, id) {
        var m :| i < m < n - 1 && m < |lines| && lines[m] == Tzid(id)
              && forall k :: m < k < n - 1 && k < |lines| ==> !lines[k].Tzid?;
        assert lines[m] == Tzid(id);
      }
    }
  }

  lemma {:induction false} OffsetIsKnown(lines: seq<ZoneLine>, i: nat, n: nat)
    requires IsOpen(lines, i, n)
    ensures After(lines, n).stdOffset != UNKNOWN_OFFSET ==> IsLastOffset(lines, i, n, After(lines, n).stdOffset)
    ensures forall h :: IsLastOffset(lines, i, n, h) ==> h == After(lines, n).stdOffset
    decreases n
  {
    if n == i + 1 {
      JustOpened(lines, i);
    } else {
      OffsetIsKnown(lines, i, n - 1);
      SectionIsKnown(lines, i, n - 1);
      AfterStep(lines, n - 1);
      OffsetStep(lines, i, n);
      hide After, IsLastOffset, InStandard;
    }
  }

  lemma OffsetStep(lines: seq<ZoneLine>, i: nat, n: nat)
    requires i + 1 < n <= |lines|
    ensures lines[n - 1].OffsetTo? && InStandard(lines, i, n - 1) ==>
      forall h :: IsLastOffset(lines, i, n, h) <==> h == lines[n - 1].hours
    ensures !(lines[n - 1].OffsetTo? && InStandard(lines, i, n - 1)) ==>
      forall h :: IsLastOffset(lines, i, n, h) <==> IsLastOffset(lines, i, n - 1, h)
  {
    hide InStandard;
    forall h
      ensures lines[n - 1].OffsetTo? && InStandard(lines, i, n - 1) ==>
        (IsLastOffset(lines, i, n, h) <==> h == lines[n - 1].hours)
      ensures !(lines[n - 1].OffsetTo? && InStandard(lines, i, n - 1)) ==>
        (IsLastOffset(lines, i, n, h) <==> IsLastOffset(lines, i, n - 1, h))
    {
      if lines[n - 1].OffsetTo? && InStandard(lines, i, n - 1) {
        assert lines[n - 1] == OffsetTo(lines[n - 1].hours);
      } else if IsLastOffset(lines, i, n - 1, h) {
        var m :| i < m < n - 1 && m < |lines| && lines[m] == OffsetTo(h) && InStandard(lines, i, m)
              && forall k :: m < k < n - 1 && k < |lines| && lines[k].OffsetTo? ==> !InStandard(lines, i, k);
        assert lines[m] == OffsetTo(h);
      }
    }
  }

  // What an END records, as the state before it has it.
  lemma EndRecords(lines: seq<ZoneLine>, i: nat, e: nat, id: string, hours: int)
    requires IsOpen(lines, i, e) && e < |lines| && lines[e].EndZone?
    ensures var st := After(lines, e);
            Records(lines, i, e, id, hours)
            <==> id == st.tzid && id != "" && hours == st.stdOffset && hours != UNKNOWN_OFFSET
  {
    NameIsKnown(lines, i, e);
    OffsetIsKnown(lines, i, e);
    hide After, IsLastName, IsLastOffset;
  }

  lemma NothingRecorded(lines: seq<ZoneLine>, n: nat)
    requires n < |lines| && !(After(lines, n).inTz && lines[n].EndZone?)
    ensures forall i: nat, id: string, h: int :: !Records(lines, i, n, id, h)
    ensures After(lines, n + 1).offsets == After(lines, n).offsets
  {
    ZoneIsOpen(lines, n);
    AfterStep(lines, n);
    hide After, IsLastName, IsLastOffset, IsOpen;
  }

  // A line that records nothing leaves the last records as they are.
  lemma LastRecordsStay(lines: seq<ZoneLine>, n: nat, next: nat, id: string, h: int)
    requires n < |lines| && next == n + 1 && forall i: nat, g: int :: !Records(lines, i, n, id, g)
    ensures forall i: nat, e: nat :: IsLastRecord(lines, next, id, h, i, e) <==> IsLastRecord(lines, n, id, h, i, e)
  {
    hide Records;
  }

  // A line that records something for the name is its last record.
  lemma LastRecordIsNew(lines: seq<ZoneLine>, n: nat, next: nat, id: string, h: int, g: int, i: nat)
    requires n < |lines| && next == n + 1 && Records(lines, i, n, id, g)
    requires forall j: nat, f: int :: Records(lines, j, n, id, f) ==> f == g
    ensures (exists j: nat, e: nat :: IsLastRecord(lines, next, id, h, j, e)) <==> h == g
  {
    hide Records;
    if h == g {
      assert IsLastRecord(lines, next, id, h, i, n);
    }
    if j: nat, e: nat :| IsLastRecord(lines, next, id, h, j, e) {
      assert n <= e;
    }
  }

  lemma {:induction false} RecordsAreKept(lines: seq<ZoneLine>, n: nat, id: string, h: int)
    requires n <= |lines|
    ensures id in After(lines, n).offsets && After(lines, n).offsets[id] == h
        <==> exists i: nat, e: nat :: IsLastRecord(lines, n, id, h, i, e)
  {
    hide Records;
    if n == 0 {
      ScanNothing();
    } else {
      RecordsAreKept(lines, n - 1, id, h);
      RecordStep(lines, n - 1, n, id, h);
    }
  }

  lemma RecordStep(lines: seq<ZoneLine>, n: nat, next: nat, id: string, h: int)
    requires n < |lines| && next == n + 1
    requires id in After(lines, n).offsets && After(lines, n).offsets[id] == h
        <==> exists i: nat, e: nat :: IsLastRecord(lines, n, id, h, i, e)
    ensures id in After(lines, next).offsets && After(lines, next).offsets[id] == h
        <==> exists i: nat, e: nat :: IsLastRecord(lines, next, id, h, i, e)
  {
    hide Records, IsOpen, IsLastRecord;
    var st := After(lines, n);
    if st.inTz && lines[n].EndZone? {
      ZoneIsOpen(lines, n);
      var i: nat :| IsOpen(lines, i, n);
      AfterStep(lines, n);
      hide After;
      forall j: nat, g: int
        ensures Records(lines, j, n, id, g)
            <==> j == i && id == st.tzid && id != "" && g == st.stdOffset && g != UNKNOWN_OFFSET
      {
        if Records(lines, j, n, id, g) {
          RecordsIsOpen(lines, j, n, id, g);
          OpenIsUnique(lines, i, j, n);
        }
        EndRecords(lines, i, n, id, g);
      }
      if id == st.tzid && id != "" && st.stdOffset != UNKNOWN_OFFSET {
        LastRecordIsNew(lines, n, next, id, h, st.stdOffset, i);
      } else {
        LastRecordsStay(lines, n, next, id, h);
      }
    } else {
      NothingRecorded(lines, n);
      LastRecordsStay(lines, n, next, id, h);
    }
  }

  lemma RecordsIsOpen(lines: seq<ZoneLine>, i: nat, e: nat, id: string, h: int)
    requires Records(lines, i, e, id, h)
    ensures IsOpen(lines, i, e)
  {
  }

  /** Of any text whatever, a TZID is recorded with an offset exactly when the last
      component that ends with that name and a known standard offset has this one
      as its last STANDARD offset. */
  lemma ZonesAreLastRecords(ics: string, id: string, h: int)
    ensures id in VtzOffsets(ics) && VtzOffsets(ics)[id] == h
        <==> exists i: nat, e: nat :: IsLastRecord(ZoneLines(ics), |ZoneLines(ics)|, id, h, i, e)
  {
    hide ZoneLines, ScanZones, IsLastRecord;
    var lines := ZoneLines(ics);
    assert lines[..|lines|] == lines;
    RecordsAreKept(lines, |lines|, id, h);
  }
}
