# Time tracker schedule model

A Dafny model of the logic inside the `TimeTracker` React widget (`tracker.tsx`).
The widget is a one-day schedule editor. A user adds a time entry in one of two ways:

- fill in a form (title, start, end, details);
- drag one of five preset activity cards onto one of 24 hourly slots.

The widget then shows, for each slot, the first entry whose time span covers that slot.

The model has five modules:

- `ClockText` (`clock_text.dfy`): the JavaScript string and number operations the widget uses on clock times:
  - `Number` on a digit string;
  - `toString()` on a non-negative integer;
  - `padStart(2, '0')`;
  - `split` on one character;
  - the `<` and `<=` operators on strings.

  Its lemmas prove the facts that make string comparison of clock times work. Two-digit zero-padded "HH:MM" texts compare as strings exactly as their (hour, minute) pairs compare as numbers. Reading a written clock text gives its fields back, and re-padding a padded text gives the same text.
- `Presets` (`presets.dfy`): the ten-colour palette, the five preset cards, and how a duration like `"3h"` or `"1h30"` is read (split on `h`, then `Number` on each part, with a missing minute part counting as 0).
- `Schedule` (`schedule.dfy`): the `TimeEntry` value and the pure computations over entries:
  - the entry a drop builds, and the entry the form builds;
  - the 24 slot markers;
  - the per-day filter;
  - the first-match slot lookup (`find`);
  - the 24-slot grid.
- `Tracker` (`tracker.dfy`): the component's state as a class `TimeTracker`. Its fields are the selected day, the entry list, the form draft and the dialog flag. Its methods are the two handlers that change it (`AddEntry`, `PresetDrop`) and the calendar's `SelectDate`.
- `Wrappers` (`wrappers.dfy`): `Option`, standing for a value that may be `undefined`.

Behaviour kept exactly as the code has it:

- **No carry, no wrap.** A drop adds the duration's hours and minutes field by field. "23:00" plus "3h" gives "26:00", and "23:30" plus "2h45" gives "25:75" (`WorkSessionPastMidnight`, `NoCarryIntoHours`).
- **First match wins.** When entries overlap, the slot shows the first one in insertion order (`Find`, `FindFirstCovering`, `FirstInsertedWins`).
- **Entries carry no day.** `TimeEntry` declares no date field, and neither creation path sets one. So `entry.date?.toDateString()` is always `undefined` (`Schedule.EntryDay` is always `None`). The per-day filter compares that with the selected day's key. With no day selected it keeps every entry; with a day selected it keeps none. The form's handler only adds an entry when a day is selected, so an entry added by the form is never shown while that day stays selected (`AddEntry`'s last `ensures`).

Further facts of the code that the model keeps:

- Entries store no day, even though the calendar selects one: the filter therefore behaves as described above.
- No clock text and no duration is validated: slots come from the fixed markers, and durations from the fixed presets. The model states these assumptions as preconditions (`IsClockText`, `IsDuration`, `time in TimeSlots()`, `item in PresetEntries`).
- Overlapping entries do not replace one another: `find` returns the first match in insertion order.

The caller supplies the id (`Date.now().toString()`) and the palette index (`Math.floor(Math.random() * 10)`, a number from 0 to 9).

## Model

| member | source | states |
|---|---|---|
| `ClockText.Number` | tracker.tsx:101-103 | `Number` on a digit string is its decimal value (`Number("")` is 0); its meaning is stated by `NatToString` (it reads `toString()` back) and `TwoDigitsRoundTrip` |
| `ClockText.PadStart2` | tracker.tsx:102 | `padStart(2, '0')`; its meaning is stated by `Pad2` and `Pad2TwoDigits` |
| `ClockText.ClockString` | tracker.tsx:102-106 | the `${hours}:${minutes}` template with padded fields; its meaning is stated by `ReadClockString`, `ClockStringPadded`, `ClockStringChars` and `ClockOrder` |
| `ClockText.ReadClock` | tracker.tsx:101 | `time.split(':').map(Number)` destructured into hours and minutes; its meaning is stated by `ReadClockString` and `RepadPaddedClock` |
| `ClockText.Less` | tracker.tsx:198 | JavaScript string `<`: code by code, with a proper prefix smaller; its meaning is stated by `LessTrichotomy`, `LessTransitive`, `LessAppend` and `PaddedClockOrder` |
| `ClockText.AtMost` | tracker.tsx:198 | JavaScript string `<=`, that is `!(b < a)`; `LessTrichotomy` states that it is `a == b` or `a < b` |
| `ClockText.NatToString` | tracker.tsx:102 | `toString()` of a non-negative integer is a non-empty digit string with no leading zero; its length is 1 exactly below 10 and at most 2 exactly below 100; `Number` reads it back as the same integer |
| `ClockText.Pad2` | tracker.tsx:102 | `toString().padStart(2,'0')` gives digits that `Number` reads back as the input; from 100 up the text is left unpadded |
| `ClockText.Pad2TwoDigits` | tracker.tsx:102 | below 100 the padded field is exactly the tens digit then the units digit |
| `ClockText.TwoDigitsRoundTrip` | tracker.tsx:101-102 | two digits read by `Number` are below 100, and padding that number gives the same two digits back |
| `ClockText.Split` | tracker.tsx:101 | `split` on one character always gives at least one part, even for empty text |
| `ClockText.SplitJoinsBack` | tracker.tsx:101 | the parts `split` gives, joined with the separator, give the input back, and no part contains the separator |
| `ClockText.SplitNoSeparator` | tracker.tsx:103 | text without the separator splits into itself alone |
| `ClockText.SplitAfterPart` | tracker.tsx:101 | a separator after a separator-free prefix closes the first part |
| `ClockText.SplitJoin` | tracker.tsx:101 | `split` inverts `join` for parts free of the separator |
| `ClockText.LessTrichotomy` | tracker.tsx:198 | string `<` is irreflexive, asymmetric and total, so `a <= b` (defined as `!(b < a)`) holds exactly when `a == b` or `a < b` |
| `ClockText.LessTransitive` | tracker.tsx:198 | string `<` is transitive |
| `ClockText.LessAppend` | tracker.tsx:198 | for two texts whose heads have equal length, the heads decide the comparison, and the tails decide only when the heads are equal |
| `ClockText.Pad2Order` | tracker.tsx:102 | below 100, padded fields compare as strings exactly as the numbers compare, and are equal only for equal numbers |
| `ClockText.ClockOrder` | tracker.tsx:198 | for fields below 100, clock texts compare as strings in the lexicographic (hour, minute) order, and are equal only for equal pairs |
| `ClockText.ReadClockString` | tracker.tsx:101-106 | any written clock text can be read by the drop handler, and reading it gives the hour and minute back, whatever their size |
| `ClockText.ClockStringPadded` | tracker.tsx:106 | fields below 100 give a five-character "HH:MM" text |
| `ClockText.ClockStringChars` | tracker.tsx:106 | for fields below 100, the clock text character by character: two hour digits, a colon, two minute digits |
| `ClockText.RepadPaddedClock` | tracker.tsx:101-102 | a padded "HH:MM" text reads as its two two-digit numbers, and re-padding them gives the same text |
| `ClockText.PaddedClockOrder` | tracker.tsx:198 | two padded clock texts compare as strings exactly as their (hour, minute) pairs compare as numbers, and are equal exactly when the pairs are |
| `Presets.ColorPalette` | tracker.tsx:23-26 | the ten colour classes; `PresetColors` states its size and that every preset colour is one of them |
| `Presets.PresetEntries` | tracker.tsx:28-34 | the five preset cards; `PresetColors`, `PresetDurations` and `PresetCard` state their ids, colours and durations |
| `Presets.ParseDuration` | tracker.tsx:103-105 | `duration.split('h').map(Number)` with `durationMinutes || 0`; its meaning is stated by `ParseHours`, `ParseHoursMinutes` and `ParseHoursNoLetter` |
| `Presets.ParseHours` | tracker.tsx:103-105 | `"Nh"` is N hours and 0 minutes (the empty part after `h` is `Number("")`, which is 0) |
| `Presets.ParseHoursMinutes` | tracker.tsx:103-105 | `"NhM"` is N hours and M minutes |
| `Presets.ParseHoursNoLetter` | tracker.tsx:103-105 | a duration without `h` is hours only: the missing minute part is `undefined`, and `undefined` or 0 gives 0 |
| `Presets.PresetColors` | tracker.tsx:23-34 | five presets with distinct ids and a ten-colour palette; every preset's colour is in the palette |
| `Presets.PresetDurations` | tracker.tsx:28-34 | the preset durations read as 1, 3, 1, 1 and 2 whole hours |
| `Presets.OneDigitHours` | tracker.tsx:103-105 | a one-digit hour count followed by `h` reads as that many hours and 0 minutes |
| `Presets.PresetCard` | tracker.tsx:28-34 | a draggable card has a palette colour and a duration of 1 to 3 whole hours |
| `Schedule.Truthy` | tracker.tsx:89 | a form field passes the guard when it is present and not the empty string; used by `CanAdd` |
| `Schedule.CanAdd` | tracker.tsx:89 | the guard of `handleAddEntry`: title, start and end truthy and a day selected; `TimeTracker.AddEntry` states what happens on each side of it |
| `Schedule.EntryDay` | tracker.tsx:121 | `entry.date?.toDateString()`, always undefined because entries have no date field; `ForDayNoneShowsAll` and `ForDaySomeShowsNone` state its effect on the filter |
| `Schedule.Covers` | tracker.tsx:198 | the slot test `e.startTime <= time && e.endTime > time`; its meaning is stated by `CoversAsNumbers`, `DropCovers` and `Find` |
| `Schedule.Grid` | tracker.tsx:197-200 | the rendered grid has one slot per marker, 24 in all; `GridWithDayIsEmpty` and `GridWithoutDay` state its contents |
| `Schedule.FormEntry` | tracker.tsx:90-94 | the form's entry has the given id and the draft's title, start, end and details; its colour is a member of the palette |
| `Schedule.DropEntry` | tracker.tsx:108-115 | the dropped entry has the given id and the preset's title and colour, with empty details |
| `Schedule.DropTimes` | tracker.tsx:101-106 | read back, the dropped entry starts at the slot's (hour, minute) and ends at the field-wise sum with the duration, with no carry and no modulo |
| `Schedule.DropAtClock` | tracker.tsx:100-115 | dropped on any written clock text, whatever the size of its fields, the entry starts at exactly that text and ends at the clock text of the field-wise sums |
| `Schedule.DropOnPaddedSlot` | tracker.tsx:101-115 | dropped on a padded "HH:MM" slot, the re-padded start is the slot text itself |
| `Schedule.TimeSlots` | tracker.tsx:124 | there are exactly 24 markers, and marker i is i as two zero-padded digits followed by ":00" |
| `Schedule.TimeSlotIsClock` | tracker.tsx:124 | marker i is the padded clock text of i o'clock, and it reads back as (i, 0) |
| `Schedule.TimeSlotPadded` | tracker.tsx:124 | every marker is a padded "HH:MM" text |
| `Schedule.TimeSlotsIncreasing` | tracker.tsx:124 | the markers strictly increase in string order |
| `Schedule.DropOnSlot` | tracker.tsx:100-115 | dropped on marker i, the whole entry is determined: it starts at that marker's text and ends at the clock text of (i + hours, minutes) |
| `Schedule.CoversAsNumbers` | tracker.tsx:198 | for padded texts, the string test `start <= slot && end > slot` is the numeric test start ≤ slot < end on (hour, minute) pairs |
| `Schedule.DropCovers` | tracker.tsx:100-118 | a preset dropped on marker i covers marker j exactly when i ≤ j < i + its hours |
| `Schedule.Find` | tracker.tsx:198 | `find` returns nothing exactly when no entry covers the slot; when it returns an entry, that entry is in the list, covers the slot, and no earlier entry covers it |
| `Schedule.FindFirstCovering` | tracker.tsx:198 | when entry i covers the slot and no earlier one does, `find` returns entry i |
| `Schedule.ForDay` | tracker.tsx:120-122 | the filtered view is no longer than the list, holds only entries of the list whose day key equals the selected one, and holds every such entry |
| `Schedule.ForDayNoneShowsAll` | tracker.tsx:120-122 | with no day selected, the view is the whole list in the same order |
| `Schedule.ForDaySomeShowsNone` | tracker.tsx:120-122 | with a day selected, the view is empty |
| `Schedule.GridWithDayIsEmpty` | tracker.tsx:197-200 | with a day selected, every slot of the grid is empty |
| `Schedule.GridWithoutDay` | tracker.tsx:197-200 | with no day selected, each slot shows the first entry of the whole list that covers it |
| `Schedule.LunchAtNoon` | tracker.tsx:100-117 | "Lunch Break" dropped on marker 12 ("12:00") gives the entry "Lunch Break" from that marker to "13:00", with details "" and colour "bg-green-200" |
| `Schedule.WorkSessionPastMidnight` | tracker.tsx:104-106 | "Work Session" dropped on the last marker, "23:00", ends at "26:00" |
| `Schedule.NoCarryIntoHours` | tracker.tsx:104-106 | a "2h45" card dropped on the clock text of 23 hours 30 minutes ends at "25:75" |
| `Schedule.FirstInsertedWins` | tracker.tsx:198 | of entries 09:00–10:00 and 09:00–11:00, in that order, slot "09:00" shows the first |
| `Tracker.TimeTracker.constructor` | tracker.tsx:83-86 | initially the given day is selected, there are no entries, the draft is empty and the dialog is closed |
| `Tracker.TimeTracker.EntriesForSelectedDate` | tracker.tsx:120-122 | the component's view is every entry when no day is selected, and no entry when one is |
| `Tracker.TimeTracker.SlotView` | tracker.tsx:197-200 | the rendered grid has 24 slots; all are empty when a day is selected; otherwise slot i shows the first entry covering marker i |
| `Tracker.TimeTracker.SelectDate` | tracker.tsx:136-141 | selecting or clearing the calendar day changes only the selected day |
| `Tracker.TimeTracker.AddEntry` | tracker.tsx:88-98 | if the title, start or end is missing or empty, or no day is selected, nothing changes. Otherwise exactly one form entry is appended with a palette colour, earlier entries are kept, the draft is emptied and the dialog closes; the new entry is then not in the day's view. The palette-colour invariant is kept |
| `Tracker.TimeTracker.PresetDrop` | tracker.tsx:100-118 | dropping a preset card on a slot marker appends exactly the entry `DropEntry` builds, which starts at that marker; earlier entries, the day, the draft and the dialog flag are unchanged; the palette-colour invariant is kept |

## Left out

- Rendering is not modelled: JSX, the Tailwind class strings, and the `Calendar`, `Dialog`, `Input`, `Textarea`, `Button` and `Card` components (tracker.tsx:126-210). These are presentational code and foreign library components.
- The drag-and-drop wiring is not modelled: `DndProvider`, `useDrag`/`useDrop` and the `isDragging`/`isOver` state (tracker.tsx:36-80). The model keeps only what reaches the handler: a preset from the catalog (`item in PresetEntries`) dropped on a slot marker (`time in TimeSlots()`).
- Whether a memoised drop callback sees an older `entries` list is runtime behaviour of React and react-dnd. The drop appends to the current list, as the handler is written.
- The form inputs' `onChange` handlers (tracker.tsx:153-176) and the dialog's `onOpenChange` are not modelled as operations. The draft and the dialog flag are plain fields that a caller sets.
- Ids come from `Date.now()`, which reads the clock. Colours for form entries come from `Math.random()`, which is floating-point randomness. Both are parameters instead: an id string, and a palette index below 10.
- JavaScript `Date` values and `toDateString()` become an opaque day key (`DayKey`, a string). Entries never carry one.
- `Number` on text that is not digits (the `NaN` paths) is not modelled. Clock texts and durations are required to split into digit fields.
- JavaScript numbers are doubles and the model's integers are unbounded. The two agree on every value a slot and a preset duration can produce.
- String `<` compares characters by their Dafny code point, while JavaScript compares UTF-16 code units. The two orders agree on the digits and colons that clock texts are made of.
- Schedule.FormEntry: a draft without details gives `details == ""`. The source leaves the field `undefined`, and both render as empty text.
- Schedule.Draft has only the four fields the form sets. The source's `...newEntry` spread would let a draft `id` override the generated one, but no input ever sets an id.
