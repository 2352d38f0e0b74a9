/**
 * The tracker's static data: the ten-colour palette that manual entries draw
 * their colour from, and the five preset activity cards that can be dragged
 * onto a time slot. A preset's duration is text such as "3h" or "1h30", read
 * by splitting on the letter h.
 */
module Presets {
  import opened ClockText

  datatype Preset = Preset(id: string, title: string, duration: string, color: string)

  const ColorPalette: seq<string> := [
    "bg-pink-200", "bg-purple-200", "bg-indigo-200", "bg-blue-200", "bg-green-200",
    "bg-yellow-200", "bg-orange-200", "bg-red-200", "bg-teal-200", "bg-cyan-200"
  ]

  const PresetEntries: seq<Preset> := [
    Preset("preset1", "Morning Routine", "1h", "bg-yellow-200"),
    Preset("preset2", "Work Session", "3h", "bg-blue-200"),
    Preset("preset3", "Lunch Break", "1h", "bg-green-200"),
    Preset("preset4", "Exercise", "1h", "bg-orange-200"),
    Preset("preset5", "Evening Relaxation", "2h", "bg-purple-200")
  ]

  /**
   * A duration whose hour part, and minute part when there is one, `Number`
   * reads as whole numbers: the only two pieces of `split('h')` the drop
   * handler destructures.
   */
  predicate IsDuration(d: string)
  {
    var parts := Split(d, 'h');
    IsDigits(parts[0]) && (|parts| >= 2 ==> IsDigits(parts[1]))
  }

  /**
   * `duration.split('h').map(Number)` destructured into hours and minutes,
   * with `durationMinutes || 0`: a missing minute part counts as zero, and so
   * does an empty one, because `Number("")` is 0.
   */
  function ParseDuration(d: string): (hm: (nat, nat))
    requires IsDuration(d)
  {
    var parts := Split(d, 'h');
    (Number(parts[0]), if |parts| >= 2 then Number(parts[1]) else 0)
  }

  lemma DigitsHoldNoH(s: string)
    requires IsDigits(s)
    ensures 'h' !in s
  {
    assert forall i :: 0 <= i < |s| ==> s[i] != 'h';
  }

  /** "Nh" is N whole hours and no minutes. */
  lemma ParseHours(a: string)
    requires IsDigits(a)
    ensures IsDuration(a + "h")
    ensures ParseDuration(a + "h") == (Number(a), 0)
  {
    DigitsHoldNoH(a);
    SplitJoin([a, ""], 'h');
    assert Join([a, ""], 'h') == a + "h";
  }

  /** "NhM" is N hours and M minutes. */
  lemma ParseHoursMinutes(a: string, b: string)
    requires IsDigits(a) && IsDigits(b)
    ensures IsDuration(a + "h" + b)
    ensures ParseDuration(a + "h" + b) == (Number(a), Number(b))
  {
    DigitsHoldNoH(a);
    DigitsHoldNoH(b);
    SplitJoin([a, b], 'h');
    assert Join([a, b], 'h') == a + "h" + b;
  }

  /** A duration without the letter h is read as hours only (`undefined || 0` minutes). */
  lemma ParseHoursNoLetter(a: string)
    requires IsDigits(a)
    ensures IsDuration(a)
    ensures ParseDuration(a) == (Number(a), 0)
  {
    DigitsHoldNoH(a);
    SplitNoSeparator(a, 'h');
  }

  /** Every preset card takes its colour from the palette, and the ids are distinct. */
  lemma PresetColors()
    ensures |PresetEntries| == 5 && |ColorPalette| == 10
    ensures forall i, j :: 0 <= i < j < |PresetEntries| ==> PresetEntries[i].id != PresetEntries[j].id
    ensures forall p <- PresetEntries :: p.color in ColorPalette
  {
    assert PresetEntries[0].color == ColorPalette[5];
    assert PresetEntries[1].color == ColorPalette[3];
    assert PresetEntries[2].color == ColorPalette[4];
    assert PresetEntries[3].color == ColorPalette[6];
    assert PresetEntries[4].color == ColorPalette[1];
  }

  /** Every preset duration is a whole number of hours: 1, 3, 1, 1 and 2. */
  lemma PresetDurations()
    ensures forall p <- PresetEntries :: IsDuration(p.duration)
    ensures ParseDuration(PresetEntries[0].duration) == (1, 0)
    ensures ParseDuration(PresetEntries[1].duration) == (3, 0)
    ensures ParseDuration(PresetEntries[2].duration) == (1, 0)
    ensures ParseDuration(PresetEntries[3].duration) == (1, 0)
    ensures ParseDuration(PresetEntries[4].duration) == (2, 0)
  {
    OneDigitHours('1');
    OneDigitHours('2');
    OneDigitHours('3');
  }

  lemma OneDigitHours(c: char)
    requires IsDigit(c)
    ensures IsDuration([c] + "h")
    ensures ParseDuration([c] + "h") == (DigitValue(c), 0)
  {
    assert [c][..0] == [];
    ParseHours([c]);
  }

  /** What a dragged card brings: a palette colour and a duration of one to three whole hours. */
  lemma PresetCard(item: Preset)
    requires item in PresetEntries
    ensures item.color in ColorPalette && IsDuration(item.duration)
    ensures 1 <= ParseDuration(item.duration).0 <= 3 && ParseDuration(item.duration).1 == 0
  {
    PresetColors();
    PresetDurations();
    var k :| 0 <= k < |PresetEntries| && PresetEntries[k] == item;
  }
}
