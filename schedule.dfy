/**
 * The schedule's values and the pure computations over them: the entry a
 * preset drop builds, the entry the form builds, the 24 hourly slot markers,
 * the per-date view of the entry list and the first-match slot lookup that
 * fills the grid.
 */
module Schedule {
  import opened Wrappers
  import opened ClockText
  import opened Presets

  datatype TimeEntry = TimeEntry(
    id: string,
    title: string,
    startTime: string,
    endTime: string,
    details: string,
    color: string)

  /** A calendar day as `Date.prototype.toDateString()` writes it. */
  type DayKey = string

  /**
   * `entry.date?.toDateString()`: a TimeEntry declares no date field and
   * neither way of creating one sets it, so the day of every entry is
   * undefined.
   */
  function EntryDay(e: TimeEntry): Option<DayKey>
  {
    None
  }

  /** The form's draft, a `Partial<TimeEntry>`: only the fields the inputs have set. */
  datatype Draft = Draft(
    title: Option<string>,
    startTime: Option<string>,
    endTime: Option<string>,
    details: Option<string>)

  const EmptyDraft: Draft := Draft(None, None, None, None)

  /** JavaScript truthiness of a field that may be undefined: present and not "". */
  predicate Truthy(s: Option<string>)
  {
    s.Some? && s.value != ""
  }

  /** The guard of the form's submit: title, start and end filled in and a day selected. */
  predicate CanAdd(d: Draft, date: Option<DayKey>)
  {
    Truthy(d.title) && Truthy(d.startTime) && Truthy(d.endTime) && date.Some?
  }

  /**
   * The entry the form's submit builds: a fresh id, the draft's fields, and
   * the palette colour at the index `Math.floor(Math.random() * 10)` picked.
   */
  function FormEntry(d: Draft, id: string, colorIndex: nat): (e: TimeEntry)
    requires d.title.Some? && d.startTime.Some? && d.endTime.Some?
    requires colorIndex < |ColorPalette|
    ensures e.id == id && e.title == d.title.value
    ensures e.startTime == d.startTime.value && e.endTime == d.endTime.value
    ensures d.details.Some? ==> e.details == d.details.value
    ensures e.color in ColorPalette
  {
    TimeEntry(id, d.title.value, d.startTime.value, d.endTime.value,
              if d.details.Some? then d.details.value else "", ColorPalette[colorIndex])
  }

  /**
   * The entry a preset dropped on the slot `time` builds: the slot re-padded
   * as the start, and as the end the start with the duration's hours and
   * minutes added field by field, with no carry from minutes into hours and
   * no wrap past midnight.
   */
  function DropEntry(item: Preset, time: string, id: string): (e: TimeEntry)
    requires IsClockText(time) && IsDuration(item.duration)
    ensures e.id == id && e.title == item.title && e.color == item.color && e.details == ""
  {
    var hours, minutes := ReadClock(time).0, ReadClock(time).1;
    var durationHours, durationMinutes := ParseDuration(item.duration).0, ParseDuration(item.duration).1;
    var startTime := ClockString(hours, minutes);
    var endTime := ClockString(hours + durationHours, minutes + durationMinutes);
    TimeEntry(id, item.title, startTime, endTime, "", item.color)
  }

  /**
   * Proof helper: unfolds `DropEntry` once the values it reads from the slot
   * text (h, m) and from the duration (dh, dm) are known. `DropStart` and
   * `DropEnd` do the same for one field each; the properties of the drop are
   * `DropTimes`, `DropAtClock`, `DropOnSlot` and `DropCovers` below.
   */
  lemma DropFields(item: Preset, time: string, id: string, h: nat, m: nat, dh: nat, dm: nat)
    requires IsClockText(time) && ReadClock(time) == (h, m)
    requires IsDuration(item.duration) && ParseDuration(item.duration) == (dh, dm)
    ensures DropEntry(item, time, id) ==
            TimeEntry(id, item.title, ClockString(h, m), ClockString(h + dh, m + dm), "", item.color)
  {
    DropStart(item, time, id, h, m);
    DropEnd(item, time, id, h, m, dh, dm);
    var e := DropEntry(item, time, id);
    assert e == TimeEntry(e.id, e.title, e.startTime, e.endTime, e.details, e.color);
  }

  /** Proof helper for `DropFields`: the start field alone. */
  lemma DropStart(item: Preset, time: string, id: string, h: nat, m: nat)
    requires IsClockText(time) && ReadClock(time) == (h, m) && IsDuration(item.duration)
    ensures DropEntry(item, time, id).startTime == ClockString(h, m)
  {
  }

  /** Proof helper for `DropFields`: the end field alone. */
  lemma DropEnd(item: Preset, time: string, id: string, h: nat, m: nat, dh: nat, dm: nat)
    requires IsClockText(time) && ReadClock(time) == (h, m)
    requires IsDuration(item.duration) && ParseDuration(item.duration) == (dh, dm)
    ensures DropEntry(item, time, id).endTime == ClockString(h + dh, m + dm)
  {
  }

  /**
   * Read back, the dropped entry starts at the slot's (hours, minutes) and
   * ends at their field-wise sum with the duration: minutes are not carried
   * into hours and hours do not wrap at 24.
   */
  lemma DropTimes(item: Preset, time: string, id: string, h: nat, m: nat, dh: nat, dm: nat)
    requires IsClockText(time) && ReadClock(time) == (h, m)
    requires IsDuration(item.duration) && ParseDuration(item.duration) == (dh, dm)
    ensures IsClockText(DropEntry(item, time, id).startTime)
    ensures ReadClock(DropEntry(item, time, id).startTime) == (h, m)
    ensures IsClockText(DropEntry(item, time, id).endTime)
    ensures ReadClock(DropEntry(item, time, id).endTime) == (h + dh, m + dm)
  {
    DropFields(item, time, id, h, m, dh, dm);
    ReadClockString(h, m);
    ReadClockString(h + dh, m + dm);
  }

  /** Dropped on a slot text in written form, the entry starts at exactly that text. */
  lemma DropAtClock(item: Preset, h: nat, m: nat, id: string, dh: nat, dm: nat)
    requires IsDuration(item.duration) && ParseDuration(item.duration) == (dh, dm)
    ensures IsClockText(ClockString(h, m))
    ensures DropEntry(item, ClockString(h, m), id) ==
            TimeEntry(id, item.title, ClockString(h, m), ClockString(h + dh, m + dm), "", item.color)
  {
    ReadClockString(h, m);
    DropFields(item, ClockString(h, m), id, h, m, dh, dm);
  }

  /** Re-padding a padded "HH:MM" slot gives the slot text itself as the start. */
  lemma DropOnPaddedSlot(item: Preset, time: string, id: string)
    requires IsPaddedClock(time) && IsDuration(item.duration)
    ensures IsClockText(time)
    ensures DropEntry(item, time, id).startTime == time
  {
    RepadPaddedClock(time);
    var (h, m) := ReadClock(time);
    var (dh, dm) := ParseDuration(item.duration);
    DropFields(item, time, id, h, m, dh, dm);
  }

  /**
   * The 24 hourly markers `Array.from({ length: 24 }, (_, i) => ...)`:
   * marker i is i in two zero-padded digits followed by ":00".
   */
  function TimeSlots(): (slots: seq<string>)
    ensures |slots| == 24
    ensures forall i :: 0 <= i < 24 ==> slots[i] == [DigitChar(i / 10), DigitChar(i % 10)] + ":00"
  {
    var slots := seq(24, i requires 0 <= i < 24 => Pad2(i) + ":00");
    assert forall i :: 0 <= i < 24 ==> slots[i] == [DigitChar(i / 10), DigitChar(i % 10)] + ":00" by {
      forall i | 0 <= i < 24 { Pad2TwoDigits(i); }
    }
    slots
  }

  /** Marker i is the clock text of i o'clock and reads back as (i, 0). */
  lemma TimeSlotIsClock(i: nat)
    requires i < 24
    ensures TimeSlots()[i] == ClockString(i, 0)
    ensures IsPaddedClock(TimeSlots()[i]) && IsClockText(TimeSlots()[i])
    ensures ReadClock(TimeSlots()[i]) == (i, 0)
  {
    Pad2TwoDigits(i);
    Pad2TwoDigits(0);
    ReadClockString(i, 0);
    ClockStringPadded(i, 0);
  }

  /** Every marker is a padded clock text. */
  lemma TimeSlotPadded(time: string)
    requires time in TimeSlots()
    ensures IsPaddedClock(time) && IsClockText(time)
  {
    var i :| 0 <= i < 24 && TimeSlots()[i] == time;
    TimeSlotIsClock(i);
  }

  /** The markers strictly increase in string order, so they are distinct and sorted. */
  lemma TimeSlotsIncreasing()
    ensures forall i, j :: 0 <= i < j < 24 ==> Less(TimeSlots()[i], TimeSlots()[j])
  {
    forall i, j | 0 <= i < j < 24
      ensures Less(TimeSlots()[i], TimeSlots()[j])
    {
      TimeSlotIsClock(i);
      TimeSlotIsClock(j);
      ClockOrder(i, 0, j, 0);
    }
  }

  /** A drop on marker i starts at that marker and ends at the no-carry sum. */
  lemma DropOnSlot(item: Preset, i: nat, id: string, dh: nat, dm: nat)
    requires i < 24
    requires IsDuration(item.duration) && ParseDuration(item.duration) == (dh, dm)
    ensures IsClockText(TimeSlots()[i])
    ensures DropEntry(item, TimeSlots()[i], id) ==
            TimeEntry(id, item.title, TimeSlots()[i], ClockString(i + dh, dm), "", item.color)
  {
    TimeSlotIsClock(i);
    DropAtClock(item, i, 0, id, dh, dm);
  }

  /** The slot test: `e.startTime <= time && e.endTime > time` on strings. */
  predicate Covers(e: TimeEntry, slot: string)
  {
    AtMost(e.startTime, slot) && Less(slot, e.endTime)
  }

  /**
   * For padded clock texts the string slot test is the numeric one:
   * start <= slot < end on (hour, minute) pairs.
   */
  lemma CoversAsNumbers(e: TimeEntry, slot: string)
    requires IsPaddedClock(e.startTime) && IsPaddedClock(e.endTime) && IsPaddedClock(slot)
    ensures IsClockText(e.startTime) && IsClockText(e.endTime) && IsClockText(slot)
    ensures Covers(e, slot) <==> !Before(ReadClock(slot), ReadClock(e.startTime)) &&
                                 Before(ReadClock(slot), ReadClock(e.endTime))
  {
    PaddedClockOrder(slot, e.startTime);
    PaddedClockOrder(slot, e.endTime);
  }

  /**
   * A preset dropped on marker i covers exactly the markers from i up to,
   * not including, i plus its hours.
   */
  lemma DropCovers(item: Preset, i: nat, j: nat, id: string)
    requires item in PresetEntries && i < 24 && j < 24
    ensures IsDuration(item.duration) && IsClockText(TimeSlots()[i])
    ensures Covers(DropEntry(item, TimeSlots()[i], id), TimeSlots()[j]) <==>
            i <= j < i + ParseDuration(item.duration).0
  {
    PresetCard(item);
    var (dh, dm) := ParseDuration(item.duration);
    DropOnSlot(item, i, id, dh, dm);
    TimeSlotIsClock(i);
    TimeSlotIsClock(j);
    ClockOrder(j, 0, i, 0);
    ClockOrder(j, 0, i + dh, 0);
    LessTrichotomy(ClockString(i, 0), ClockString(j, 0));
  }

  /**
   * `entries.find(e => e.startTime <= time && e.endTime > time)`: the first
   * entry in list order that covers the slot, or undefined when none does.
   */
  function Find(entries: seq<TimeEntry>, slot: string): (r: Option<TimeEntry>)
    ensures r.None? <==> forall i :: 0 <= i < |entries| ==> !Covers(entries[i], slot)
    ensures r.Some? ==> exists i :: 0 <= i < |entries| && entries[i] == r.value && Covers(r.value, slot) &&
                                    forall j :: 0 <= j < i ==> !Covers(entries[j], slot)
  {
    if entries == [] then None
    else if Covers(entries[0], slot) then Some(entries[0])
    else
      var r := Find(entries[1..], slot);
      assert r.Some? ==> exists i :: 0 < i < |entries| && entries[i] == r.value && Covers(r.value, slot) &&
                                     forall j :: 0 <= j < i ==> !Covers(entries[j], slot) by {
        if r.Some? {
          var i :| 0 <= i < |entries[1..]| && entries[1..][i] == r.value && Covers(r.value, slot) &&
                   forall j :: 0 <= j < i ==> !Covers(entries[1..][j], slot);
          assert entries[i + 1] == r.value;
          assert forall j :: 0 < j < i + 1 ==> !Covers(entries[j], slot) by {
            forall j | 0 < j < i + 1 ensures !Covers(entries[j], slot) {
              assert entries[j] == entries[1..][j - 1];
            }
          }
        }
      }
      r
  }

  /** The lookup is determined: the first covering entry is the one returned. */
  lemma {:induction false} FindFirstCovering(entries: seq<TimeEntry>, slot: string, i: nat)
    requires i < |entries| && Covers(entries[i], slot)
    requires forall j :: 0 <= j < i ==> !Covers(entries[j], slot)
    ensures Find(entries, slot) == Some(entries[i])
  {
    if i > 0 {
      FindFirstCovering(entries[1..], slot, i - 1);
    }
  }

  /**
   * `entries.filter(entry => entry.date?.toDateString() === date?.toDateString())`:
   * the entries whose day key equals the selected one, in list order.
   */
  function ForDay(entries: seq<TimeEntry>, date: Option<DayKey>): (view: seq<TimeEntry>)
    ensures |view| <= |entries|
    ensures forall e <- view :: e in entries && EntryDay(e) == date
    ensures forall e <- entries :: EntryDay(e) == date ==> e in view
  {
    if entries == [] then []
    else (if EntryDay(entries[0]) == date then [entries[0]] else []) + ForDay(entries[1..], date)
  }

  /** With no day selected both sides are undefined and every entry is shown, in order. */
  lemma {:induction false} ForDayNoneShowsAll(entries: seq<TimeEntry>)
    ensures ForDay(entries, None) == entries
  {
    if entries != [] {
      ForDayNoneShowsAll(entries[1..]);
      assert [entries[0]] + entries[1..] == entries;
    }
  }

  /** With a day selected no entry matches, since no entry carries a day: the view is empty. */
  lemma {:induction false} ForDaySomeShowsNone(entries: seq<TimeEntry>, d: DayKey)
    ensures ForDay(entries, Some(d)) == []
  {
    if entries != [] {
      ForDaySomeShowsNone(entries[1..], d);
    }
  }

  /** The schedule view: for each marker, the first covering entry of the day's view. */
  function Grid(entries: seq<TimeEntry>, date: Option<DayKey>): (grid: seq<Option<TimeEntry>>)
    ensures |grid| == 24
  {
    var view := ForDay(entries, date);
    seq(24, i requires 0 <= i < 24 => Find(view, TimeSlots()[i]))
  }

  /** With a day selected every slot of the grid is empty. */
  lemma GridWithDayIsEmpty(entries: seq<TimeEntry>, d: DayKey)
    ensures forall i :: 0 <= i < 24 ==> Grid(entries, Some(d))[i] == None
  {
    ForDaySomeShowsNone(entries, d);
  }

  /** With no day selected each slot shows the first entry of the whole list that covers it. */
  lemma GridWithoutDay(entries: seq<TimeEntry>)
    ensures forall i :: 0 <= i < 24 ==> Grid(entries, None)[i] == Find(entries, TimeSlots()[i])
  {
    ForDayNoneShowsAll(entries);
  }

  /** The end times the examples below produce, written out. */
  lemma LunchEndText()
    ensures ClockString(13, 0) == "13:00"
  {
  }

  lemma WorkSessionEndText()
    ensures ClockString(26, 0) == "26:00"
  {
  }

  lemma NoCarryEndText()
    ensures ClockString(25, 75) == "25:75"
  {
  }

  lemma NoCarryStartText()
    ensures ClockString(23, 30) == "23:30"
  {
  }

  /** "Lunch Break" (one hour) dropped on the "12:00" marker gives the entry 12:00-13:00. */
  lemma LunchAtNoon(id: string)
    ensures IsClockText(TimeSlots()[12]) && IsDuration(PresetEntries[2].duration)
    ensures DropEntry(PresetEntries[2], TimeSlots()[12], id) ==
            TimeEntry(id, "Lunch Break", TimeSlots()[12], ClockString(13, 0), "", "bg-green-200")
    ensures ClockString(13, 0) == "13:00"
  {
    assert PresetEntries[2].duration == ['1'] + "h";
    OneDigitHours('1');
    DropOnSlot(PresetEntries[2], 12, id, 1, 0);
    LunchEndText();
  }

  /** "Work Session" (three hours) dropped on the last marker, "23:00", ends at "26:00": no wrap at midnight. */
  lemma WorkSessionPastMidnight(id: string)
    ensures IsClockText(TimeSlots()[23]) && IsDuration(PresetEntries[1].duration)
    ensures DropEntry(PresetEntries[1], TimeSlots()[23], id).endTime == "26:00"
  {
    assert PresetEntries[1].duration == ['3'] + "h";
    OneDigitHours('3');
    DropOnSlot(PresetEntries[1], 23, id, 3, 0);
    WorkSessionEndText();
  }

  /** A "2h45" card dropped at 23:30 ends at "25:75": minutes are not carried into hours. */
  lemma NoCarryIntoHours(item: Preset, h: nat, m: nat, id: string)
    requires h == 23 && m == 30 && item.duration == "2h45"
    ensures ClockString(h, m) == "23:30"
    ensures IsClockText(ClockString(h, m)) && IsDuration(item.duration)
    ensures DropEntry(item, ClockString(h, m), id).endTime == "25:75"
  {
    TwoDigitsRoundTrip("45");
    assert Number("2") == 2 by { assert "2"[..0] == []; }
    assert item.duration == "2" + "h" + "45";
    ParseHoursMinutes("2", "45");
    DropAtClock(item, h, m, id, 2, 45);
    NoCarryEndText();
    NoCarryStartText();
  }

  /** Of two entries covering "09:00", the one inserted first is shown. */
  lemma FirstInsertedWins(a: TimeEntry, b: TimeEntry)
    requires a.startTime == "09:00" && a.endTime == "10:00"
    requires b.startTime == "09:00" && b.endTime == "11:00"
    ensures Find([a, b], "09:00") == Some(a)
  {
    LessTrichotomy("09:00", "09:00");
    assert Less("09:00", "10:00");
  }
}
