/**
 * The TimeTracker component's state and the two handlers that change the
 * schedule: submitting the "Add New Time Entry" form and dropping a preset
 * card on a time slot. The id (`Date.now().toString()`) and the palette index
 * (`Math.floor(Math.random() * 10)`) are passed in.
 */
module Tracker {
  import opened Wrappers
  import opened ClockText
  import opened Presets
  import opened Schedule

  class TimeTracker {
    /** The calendar's selected day; undefined when the user clears it. */
    var date: Option<DayKey>
    /** The schedule store, in insertion order. */
    var entries: seq<TimeEntry>
    /** The form's draft entry. */
    var newEntry: Draft
    var isDialogOpen: bool

    /** Every entry's colour is one of the palette's. */
    ghost predicate Valid()
      reads this
    {
      forall e <- entries :: e.color in ColorPalette
    }

    /** The initial state: today selected, no entries, an empty draft, the dialog closed. */
    constructor (today: DayKey)
      ensures Valid()
      ensures date == Some(today) && entries == [] && newEntry == EmptyDraft && !isDialogOpen
    {
      date := Some(today);
      entries := [];
      newEntry := EmptyDraft;
      isDialogOpen := false;
    }

    /** `entriesForSelectedDate`: everything without a selected day, nothing with one. */
    function EntriesForSelectedDate(): (view: seq<TimeEntry>)
      reads this
      ensures date.None? ==> view == entries
      ensures date.Some? ==> view == []
    {
      if date.None? then ForDayNoneShowsAll(entries); ForDay(entries, date)
      else ForDaySomeShowsNone(entries, date.value); ForDay(entries, date)
    }

    /** The rendered schedule: per hourly marker, the entry shown in that slot, if any. */
    function SlotView(): (grid: seq<Option<TimeEntry>>)
      reads this
      ensures |grid| == 24
      ensures date.Some? ==> forall i :: 0 <= i < 24 ==> grid[i] == None
      ensures date.None? ==> forall i :: 0 <= i < 24 ==> grid[i] == Find(entries, TimeSlots()[i])
    {
      if date.Some? then GridWithDayIsEmpty(entries, date.value); Grid(entries, date)
      else GridWithoutDay(entries); Grid(entries, date)
    }

    /** The calendar's `onSelect`. */
    method SelectDate(d: Option<DayKey>)
      modifies this
      ensures date == d
      ensures entries == old(entries) && newEntry == old(newEntry) && isDialogOpen == old(isDialogOpen)
    {
      date := d;
    }

    /**
     * `handleAddEntry`: when title, start and end are filled in and a day is
     * selected, append one entry built from the draft with a palette colour,
     * clear the draft and close the dialog; otherwise change nothing. As no
     * entry carries a day, the added entry is not in the day's view.
     */
    method AddEntry(id: string, colorIndex: nat)
      requires Valid() && colorIndex < |ColorPalette|
      modifies this
      ensures Valid()
      ensures date == old(date)
      ensures old(CanAdd(newEntry, date)) ==>
                entries == old(entries) + [FormEntry(old(newEntry), id, colorIndex)] &&
                newEntry == EmptyDraft && !isDialogOpen
      ensures !old(CanAdd(newEntry, date)) ==>
                entries == old(entries) && newEntry == old(newEntry) && isDialogOpen == old(isDialogOpen)
      ensures old(CanAdd(newEntry, date)) ==> EntriesForSelectedDate() == []
    {
      if CanAdd(newEntry, date) {
        entries := entries + [FormEntry(newEntry, id, colorIndex)];
        newEntry := EmptyDraft;
        isDialogOpen := false;
      }
    }

    /**
     * `handlePresetDrop`: a preset card dropped on one of the hourly slots
     * appends the entry DropEntry builds, starting at that slot; nothing else
     * changes.
     */
    method PresetDrop(item: Preset, time: string, id: string)
      requires Valid() && item in PresetEntries && time in TimeSlots()
      modifies this
      ensures Valid()
      ensures IsClockText(time) && IsDuration(item.duration)
      ensures entries == old(entries) + [DropEntry(item, time, id)]
      ensures entries[|entries| - 1].startTime == time
      ensures date == old(date) && newEntry == old(newEntry) && isDialogOpen == old(isDialogOpen)
    {
      PresetCard(item);
      TimeSlotPadded(time);
      DropOnPaddedSlot(item, time, id);
      entries := entries + [DropEntry(item, time, id)];
    }
  }
}
