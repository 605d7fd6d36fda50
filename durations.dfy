/** The free-text `D-H-M` duration of a worker row (jsapp.js): how the text
    box is read, and how a stored duration is written back into it. */
module Durations {
  import opened Wrappers
  import opened Text
  import opened SchedulerData

  /** `parseInt(parts[i].trim(), 10) || 0`, with a missing part (`undefined`)
      giving 0 as well. */
  function SegmentValue(parts: seq<string>, i: nat): int {
    if i < |parts| then IntOrZero(Trim(parts[i])) else 0
  }

  /** Reading the duration box: split on `-`, trim every piece, parse days,
      hours and minutes from the first three pieces. Total: any text gives a
      duration. */
  function ParseDuration(input: string): Duration {
    var parts := Split(input, '-');
    Duration(SegmentValue(parts, 0), SegmentValue(parts, 1), SegmentValue(parts, 2))
  }

  /** The text a worker row shows for a stored duration: `d-h-m`, or the empty
      string when none of the three is positive. */
  function FormatDuration(d: Duration): string {
    if d.days > 0 || d.hours > 0 || d.minutes > 0 then
      Join([IntToString(d.days), IntToString(d.hours), IntToString(d.minutes)], '-')
    else ""
  }

  /** A piece of `split('-')` holds no `-`, so `parseInt` never sees a minus
      sign and the value is never negative. */
  lemma NoMinusNonNegative(s: string)
    requires '-' !in s
    ensures IntOrZero(s) >= 0
  {
    var t := TrimStart(s);
    TrimStartSpec(s);
    if t != [] {
      assert t[0] == s[|s| - |t|];
    }
  }

  lemma TrimKeepsNoMinus(s: string)
    requires '-' !in s
    ensures '-' !in Trim(s)
  {
    var r := Trim(s);
    var i := |s| - |TrimStart(s)|;
    TrimSpec(s);
    forall k | 0 <= k < |r| ensures r[k] != '-' {
      assert r[k] == s[i + k];
    }
  }

  lemma SegmentNonNegative(parts: seq<string>, i: nat)
    requires forall k :: 0 <= k < |parts| ==> '-' !in parts[k]
    ensures SegmentValue(parts, i) >= 0
  {
    if i < |parts| {
      TrimKeepsNoMinus(parts[i]);
      NoMinusNonNegative(Trim(parts[i]));
    }
  }

  /** Whatever is typed, days, hours and minutes are never negative: the
      pieces between the `-` separators cannot carry a minus sign. */
  lemma ParseDurationNonNegative(input: string)
    ensures NonNegative(ParseDuration(input))
    ensures TotalMinutes(ParseDuration(input)) >= 0
  {
    var parts := Split(input, '-');
    SegmentNonNegative(parts, 0);
    SegmentNonNegative(parts, 1);
    SegmentNonNegative(parts, 2);
  }

  lemma DigitsHaveNoMinus(n: nat)
    ensures '-' !in NatToString(n)
    ensures Trimmed(NatToString(n))
  {
    var s := NatToString(n);
    assert IsDigit(s[0]) && IsDigit(s[|s| - 1]);
  }

  lemma SegmentOfNat(parts: seq<string>, i: nat, n: nat)
    requires i < |parts| && parts[i] == NatToString(n)
    ensures SegmentValue(parts, i) == n
  {
    DigitsHaveNoMinus(n);
    TrimOfTrimmed(parts[i]);
    ParseIntNatToString(n);
  }

  /** A stored non-negative duration written into the box and read back is
      the same duration; the all-zero duration is written as the empty string
      and reads back as zero. */
  lemma {:induction false} ParseFormatDuration(d: Duration)
    requires NonNegative(d)
    ensures ParseDuration(FormatDuration(d)) == d
  {
    if d.days > 0 || d.hours > 0 || d.minutes > 0 {
      var parts := [NatToString(d.days), NatToString(d.hours), NatToString(d.minutes)];
      assert FormatDuration(d) == Join(parts, '-');
      DigitsHaveNoMinus(d.days);
      DigitsHaveNoMinus(d.hours);
      DigitsHaveNoMinus(d.minutes);
      SplitJoin(parts, '-');
      SegmentOfNat(parts, 0, d.days);
      SegmentOfNat(parts, 1, d.hours);
      SegmentOfNat(parts, 2, d.minutes);
    } else {
      assert Split("", '-') == [""];
      assert Trim("") == "";
    }
  }

  /** An empty duration box reads as no time at all. */
  lemma ParseEmpty()
    ensures ParseDuration("") == Duration(0, 0, 0)
  {
    assert Split("", '-') == [""];
    assert Trim("") == "";
  }

  /** Text without a `-` is read as days only; hours and minutes are 0. */
  lemma {:induction false} ParseWithoutSeparator(input: string)
    requires '-' !in input
    ensures ParseDuration(input).hours == 0 && ParseDuration(input).minutes == 0
    ensures ParseDuration(input).days == IntOrZero(Trim(input))
  {
    SplitNoSeparator(input, '-');
  }

  /** A piece with no digit where the number should start (empty, or words)
      reads as 0; the other pieces are unaffected. */
  lemma {:induction false} NonNumericPieceIsZero(a: string, b: string, c: string)
    requires '-' !in a && '-' !in b && '-' !in c
    requires ParseInt(Trim(a)).None?
    ensures ParseDuration(a + "-" + b + "-" + c).days == 0
    ensures ParseDuration(a + "-" + b + "-" + c).hours == IntOrZero(Trim(b))
    ensures ParseDuration(a + "-" + b + "-" + c).minutes == IntOrZero(Trim(c))
  {
    SplitThree(a, b, c);
  }

  /** Three pieces without `-`, joined by `-`, split back into themselves. */
  lemma SplitThree(a: string, b: string, c: string)
    requires '-' !in a && '-' !in b && '-' !in c
    ensures Split(a + "-" + b + "-" + c, '-') == [a, b, c]
  {
    SplitJoin([a, b, c], '-');
    assert [a, b, c][1..] == [b, c] && [b, c][1..] == [c];
    assert Join([c], '-') == c;
    assert Join([b, c], '-') == b + "-" + c;
    assert Join([a, b, c], '-') == a + "-" + (b + "-" + c);
    assert a + "-" + (b + "-" + c) == a + "-" + b + "-" + c;
  }
}
