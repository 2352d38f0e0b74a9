/**
 * The string operations the time tracker applies to clock times: JavaScript's
 * `Number` on a digit string, `toString()` on a non-negative integer,
 * `padStart(2, '0')`, `split` on a one-character separator and the `<`
 * operator on strings. A clock text is "HH:MM" with both fields padded to two
 * digits; the tracker compares clock texts as strings, which agrees with the
 * numeric (hour, minute) order only because of that padding (ClockOrder).
 */
module ClockText {

  predicate IsDigit(c: char) { '0' <= c <= '9' }

  predicate IsDigits(s: string) { forall i :: 0 <= i < |s| ==> IsDigit(s[i]) }

  function DigitChar(d: nat): (c: char)
    requires d < 10
    ensures IsDigit(c) && c as int == d + '0' as int
  {
    (d + '0' as int) as char
  }

  function DigitValue(c: char): (d: nat)
    requires IsDigit(c)
    ensures d < 10 && DigitChar(d) == c
  {
    c as int - '0' as int
  }

  /** JavaScript's `Number(s)` for a string of decimal digits; `Number("")` is 0. */
  function Number(s: string): nat
    requires IsDigits(s)
  {
    if s == [] then 0 else Number(s[..|s| - 1]) * 10 + DigitValue(s[|s| - 1])
  }

  /** `n.toString()` for a non-negative integer: decimal digits without leading zeros. */
  function NatToString(n: nat): (s: string)
    ensures IsDigits(s) && |s| >= 1
    ensures |s| > 1 ==> s[0] != '0'
    ensures n < 10 <==> |s| == 1
    ensures n < 100 <==> |s| <= 2
    ensures Number(s) == n
  {
    if n < 10 then [DigitChar(n)]
    else
      var s := NatToString(n / 10) + [DigitChar(n % 10)];
      assert s[..|s| - 1] == NatToString(n / 10);
      s
  }

  /** `s.padStart(2, '0')`: zeros in front up to length two; a longer string is unchanged. */
  function PadStart2(s: string): (r: string)
    ensures |s| >= 2 ==> r == s
    ensures |s| < 2 ==> |r| == 2 && r[2 - |s|..] == s
    ensures forall i :: 0 <= i < |r| - |s| ==> r[i] == '0'
  {
    if |s| >= 2 then s else if |s| == 1 then "0" + s else "00"
  }

  /** `n.toString().padStart(2, '0')`, the field format of the tracker's clock texts. */
  function Pad2(n: nat): (r: string)
    ensures IsDigits(r) && Number(r) == n
    ensures n >= 100 ==> r == NatToString(n)
  {
    var s := NatToString(n);
    if n < 10 then
      assert s == [DigitChar(n)];
      var r := PadStart2(s);
      assert r == ['0', DigitChar(n)] && r[..1] == ['0'] && r[..1][..0] == [];
      r
    else
      PadStart2(s)
  }

  /** Below 100 the field is exactly two digits, tens then units. */
  lemma Pad2TwoDigits(n: nat)
    requires n < 100
    ensures Pad2(n) == [DigitChar(n / 10), DigitChar(n % 10)]
  {
    if n >= 10 {
      assert NatToString(n) == NatToString(n / 10) + [DigitChar(n % 10)];
    }
  }

  /** Two digits read by `Number` and written back by Pad2 are unchanged. */
  lemma TwoDigitsRoundTrip(p: string)
    requires |p| == 2 && IsDigits(p)
    ensures Number(p) == DigitValue(p[0]) * 10 + DigitValue(p[1])
    ensures Number(p) < 100 && Pad2(Number(p)) == p
  {
    assert p[..1] == [p[0]] && p[..1][..0] == [];
    assert Number(p[..1]) == DigitValue(p[0]);
    var n := Number(p);
    Pad2TwoDigits(n);
    assert n / 10 == DigitValue(p[0]) && n % 10 == DigitValue(p[1]);
  }

  /** The clock text `${hh}:${mm}` with both fields written by Pad2. */
  function ClockString(h: nat, m: nat): string
  {
    Pad2(h) + ":" + Pad2(m)
  }

  /** Joins non-empty `parts` with `sep` between consecutive parts. */
  function Join(parts: seq<string>, sep: char): string
    requires |parts| >= 1
  {
    if |parts| == 1 then parts[0] else parts[0] + [sep] + Join(parts[1..], sep)
  }

  /**
   * `s.split(sep)` for a one-character separator: the maximal runs between
   * separators, including empty ones; `"".split(sep)` is `[""]`.
   */
  function Split(s: string, sep: char): (parts: seq<string>)
    ensures |parts| >= 1
    decreases |s|
  {
    if s == [] then [[]]
    else
      var rest := Split(s[1..], sep);
      if s[0] == sep then [[]] + rest
      else [[s[0]] + rest[0]] + rest[1..]
  }

  /** Joining the parts of a split with the separator gives the text back, and no part holds the separator. */
  lemma {:induction false} SplitJoinsBack(s: string, sep: char)
    ensures Join(Split(s, sep), sep) == s
    ensures forall p <- Split(s, sep) :: sep !in p
  {
    if s != [] {
      SplitJoinsBack(s[1..], sep);
      var rest := Split(s[1..], sep);
      if s[0] == sep {
        assert ([[]] + rest)[1..] == rest;
      } else {
        var parts := [[s[0]] + rest[0]] + rest[1..];
        assert parts[1..] == rest[1..];
        assert s == [s[0]] + s[1..];
        assert sep !in rest[0];
      }
    }
  }

  /** Splitting text that holds no separator gives the text itself. */
  lemma {:induction false} SplitNoSeparator(s: string, sep: char)
    requires sep !in s
    ensures Split(s, sep) == [s]
  {
    if s != [] {
      assert s == [s[0]] + s[1..];
      SplitNoSeparator(s[1..], sep);
    }
  }

  /** A separator after a separator-free prefix ends the first part. */
  lemma {:induction false} SplitAfterPart(a: string, sep: char, b: string)
    requires sep !in a
    ensures Split(a + [sep] + b, sep) == [a] + Split(b, sep)
  {
    var s := a + [sep] + b;
    if a == [] {
      assert s[1..] == b;
    } else {
      assert s[1..] == a[1..] + [sep] + b;
      assert a == [a[0]] + a[1..];
      SplitAfterPart(a[1..], sep, b);
    }
  }

  /** `split` inverts `join` when no part holds the separator. */
  lemma {:induction false} SplitJoin(parts: seq<string>, sep: char)
    requires |parts| >= 1
    requires forall p <- parts :: sep !in p
    ensures Split(Join(parts, sep), sep) == parts
  {
    if |parts| == 1 {
      SplitNoSeparator(parts[0], sep);
    } else {
      SplitJoin(parts[1..], sep);
      SplitAfterPart(parts[0], sep, Join(parts[1..], sep));
      assert [parts[0]] + parts[1..] == parts;
    }
  }

  /**
   * JavaScript's `a < b` on strings: the first differing character decides
   * by its code, and a proper prefix is smaller.
   */
  predicate Less(a: string, b: string)
  {
    if a == [] then b != []
    else if b == [] then false
    else if a[0] != b[0] then a[0] < b[0]
    else Less(a[1..], b[1..])
  }

  /** JavaScript's `a <= b` on strings, which is `!(b < a)`. */
  predicate AtMost(a: string, b: string)
  {
    !Less(b, a)
  }

  /** String `<` is a strict total order, so `<=` is "less or equal". */
  lemma {:induction false} LessTrichotomy(a: string, b: string)
    ensures !(Less(a, b) && Less(b, a))
    ensures !Less(a, a)
    ensures Less(a, b) || a == b || Less(b, a)
    ensures AtMost(a, b) <==> a == b || Less(a, b)
  {
    if a != [] && b != [] {
      LessTrichotomy(a[1..], b[1..]);
      LessTrichotomy(a[1..], a[1..]);
      if a[0] == b[0] && a[1..] == b[1..] {
        assert a == [a[0]] + a[1..] && b == [b[0]] + b[1..];
      }
    } else if a != [] {
      LessTrichotomy(a[1..], a[1..]);
    }
  }

  /** String `<` is transitive. */
  lemma {:induction false} LessTransitive(a: string, b: string, c: string)
    requires Less(a, b) && Less(b, c)
    ensures Less(a, c)
  {
    if a != [] && a[0] == b[0] && b[0] == c[0] {
      LessTransitive(a[1..], b[1..], c[1..]);
    }
  }

  /** Comparing two texts that start with equally long heads: the heads decide first. */
  lemma {:induction false} LessAppend(a: string, c: string, b: string, d: string)
    requires |a| == |b|
    ensures Less(a + c, b + d) <==> Less(a, b) || (a == b && Less(c, d))
  {
    if a != [] {
      assert (a + c)[1..] == a[1..] + c && (b + d)[1..] == b[1..] + d;
      LessAppend(a[1..], c, b[1..], d);
      if a[0] == b[0] {
        assert a == b <==> a[1..] == b[1..] by {
          assert a == [a[0]] + a[1..] && b == [b[0]] + b[1..];
        }
      }
    } else {
      assert a + c == c && b + d == d;
    }
  }

  /** Numeric order of (hour, minute) pairs: hours first, then minutes. */
  predicate Before(a: (nat, nat), b: (nat, nat))
  {
    a.0 < b.0 || (a.0 == b.0 && a.1 < b.1)
  }

  /** For fields below 100 the padded text orders like the number. */
  lemma Pad2Order(x: nat, y: nat)
    requires x < 100 && y < 100
    ensures Less(Pad2(x), Pad2(y)) <==> x < y
    ensures Pad2(x) == Pad2(y) <==> x == y
  {
    Pad2TwoDigits(x);
    Pad2TwoDigits(y);
    var p, q := Pad2(x), Pad2(y);
    assert p == [p[0]] + [p[1]] && q == [q[0]] + [q[1]];
    LessAppend([p[0]], [p[1]], [q[0]], [q[1]]);
    assert Less([p[0]], [q[0]]) <==> p[0] < q[0];
    assert Less([p[1]], [q[1]]) <==> p[1] < q[1];
    assert x == (x / 10) * 10 + x % 10 && y == (y / 10) * 10 + y % 10;
  }

  /**
   * For zero-padded two-digit fields, string order on clock texts is the
   * lexicographic order of the numbers (hour, minute).
   */
  lemma ClockOrder(h1: nat, m1: nat, h2: nat, m2: nat)
    requires h1 < 100 && m1 < 100 && h2 < 100 && m2 < 100
    ensures Less(ClockString(h1, m1), ClockString(h2, m2)) <==> Before((h1, m1), (h2, m2))
    ensures ClockString(h1, m1) == ClockString(h2, m2) <==> h1 == h2 && m1 == m2
  {
    var a, b := Pad2(h1), Pad2(h2);
    var c, d := Pad2(m1), Pad2(m2);
    assert ClockString(h1, m1) == a + ([':'] + c);
    assert ClockString(h2, m2) == b + ([':'] + d);
    LessAppend(a, [':'] + c, b, [':'] + d);
    LessAppend([':'], c, [':'], d);
    Pad2Order(h1, h2);
    Pad2Order(m1, m2);
    if ClockString(h1, m1) == ClockString(h2, m2) {
      assert a == ClockString(h1, m1)[..2] && b == ClockString(h2, m2)[..2];
      assert c == ClockString(h1, m1)[3..] && d == ClockString(h2, m2)[3..];
    }
  }

  /** A text the drop handler can read: `split(':')` gives at least two digit fields. */
  predicate IsClockText(time: string)
  {
    var parts := Split(time, ':');
    |parts| >= 2 && IsDigits(parts[0]) && IsDigits(parts[1])
  }

  /** `time.split(':').map(Number)`, destructured into hours and minutes. */
  function ReadClock(time: string): (hm: (nat, nat))
    requires IsClockText(time)
  {
    var parts := Split(time, ':');
    (Number(parts[0]), Number(parts[1]))
  }

  /** Exactly "HH:MM": two digits, a colon, two digits. */
  predicate IsPaddedClock(s: string)
  {
    |s| == 5 && IsDigit(s[0]) && IsDigit(s[1]) && s[2] == ':' && IsDigit(s[3]) && IsDigit(s[4])
  }

  lemma DigitsHoldNoColon(s: string)
    requires IsDigits(s)
    ensures ':' !in s
  {
    assert forall i :: 0 <= i < |s| ==> s[i] != ':';
  }

  /** Reading a written clock text gives back both fields, whatever their size. */
  lemma ReadClockString(h: nat, m: nat)
    ensures IsClockText(ClockString(h, m))
    ensures ReadClock(ClockString(h, m)) == (h, m)
  {
    var p, q := Pad2(h), Pad2(m);
    DigitsHoldNoColon(p);
    DigitsHoldNoColon(q);
    SplitJoin([p, q], ':');
    assert Join([p, q], ':') == ClockString(h, m);
  }

  /** Fields below 100 give a padded "HH:MM" text. */
  lemma ClockStringPadded(h: nat, m: nat)
    requires h < 100 && m < 100
    ensures IsPaddedClock(ClockString(h, m))
  {
    Pad2TwoDigits(h);
    Pad2TwoDigits(m);
  }

  /** A clock text with fields below 100, character by character. */
  lemma ClockStringChars(h: nat, m: nat)
    requires h < 100 && m < 100
    ensures ClockString(h, m) == [DigitChar(h / 10), DigitChar(h % 10), ':', DigitChar(m / 10), DigitChar(m % 10)]
  {
    Pad2TwoDigits(h);
    Pad2TwoDigits(m);
  }

  /** Re-padding a padded clock text gives the same text back. */
  lemma RepadPaddedClock(s: string)
    requires IsPaddedClock(s)
    ensures IsClockText(s)
    ensures ReadClock(s) == (DigitValue(s[0]) * 10 + DigitValue(s[1]), DigitValue(s[3]) * 10 + DigitValue(s[4]))
    ensures ReadClock(s).0 < 100 && ReadClock(s).1 < 100
    ensures ClockString(ReadClock(s).0, ReadClock(s).1) == s
  {
    var p, q := s[..2], s[3..];
    assert s == Join([p, q], ':');
    assert ':' !in p && ':' !in q;
    SplitJoin([p, q], ':');
    TwoDigitsRoundTrip(p);
    TwoDigitsRoundTrip(q);
  }

  /**
   * The string order the tracker relies on: two padded clock texts compare
   * as strings exactly as their (hour, minute) pairs compare as numbers.
   */
  lemma PaddedClockOrder(a: string, b: string)
    requires IsPaddedClock(a) && IsPaddedClock(b)
    ensures IsClockText(a) && IsClockText(b)
    ensures Less(a, b) <==> Before(ReadClock(a), ReadClock(b))
    ensures a == b <==> ReadClock(a) == ReadClock(b)
  {
    RepadPaddedClock(a);
    RepadPaddedClock(b);
    ClockOrder(ReadClock(a).0, ReadClock(a).1, ReadClock(b).0, ReadClock(b).1);
  }
}
