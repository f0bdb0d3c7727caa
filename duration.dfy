/** The `duration_format` and `duration_format_js` template filters
    (gestao/templatetags/duration_filters.py): decimal hours rendered as `Hh` or
    `HhMMm`, truncated to whole minutes. */
module DurationFilters {
  import opened WorkBlocks

  // ---------------------------------------------------------------------------
  // Decimal digits

  predicate IsDigit(c: char) {
    '0' <= c <= '9'
  }

  predicate AllDigits(s: string) {
    forall i :: 0 <= i < |s| ==> IsDigit(s[i])
  }

  function DigitChar(d: nat): (c: char)
    requires d < 10
    ensures IsDigit(c) && c as int - '0' as int == d
  {
    ('0' as int + d) as char
  }

  /** Python's `str` of a non-negative `int`: its decimal digits, without leading zeros. */
  function NatToString(n: nat): (s: string)
    ensures |s| >= 1 && AllDigits(s)
    ensures |s| > 1 ==> s[0] != '0'
    decreases n
  {
    if n < 10 then [DigitChar(n)] else NatToString(n / 10) + [DigitChar(n % 10)]
  }

  /** The number a string of decimal digits denotes. */
  function DigitsValue(s: string): nat
    requires AllDigits(s)
  {
    if s == [] then 0
    else DigitsValue(s[..|s| - 1]) * 10 + (s[|s| - 1] as int - '0' as int)
  }

  lemma {:induction false} NatToStringRoundTrip(n: nat)
    ensures DigitsValue(NatToString(n)) == n
    decreases n
  {
    if n >= 10 {
      NatToStringRoundTrip(n / 10);
      var s := NatToString(n);
      assert s[..|s| - 1] == NatToString(n / 10);
    }
  }

  /** `f"{m:02d}"` for `m` below 100: two digits, with a leading zero below 10. */
  function Pad2(m: nat): (s: string)
    requires m < 100
    ensures |s| == 2 && AllDigits(s)
  {
    [DigitChar(m / 10), DigitChar(m % 10)]
  }

  lemma Pad2RoundTrip(m: nat)
    requires m < 100
    ensures DigitsValue(Pad2(m)) == m
  {
    var s := Pad2(m);
    assert s[..1][..0] == [];
    assert DigitsValue(s[..1]) == m / 10;
    assert DigitsValue(s) == DigitsValue(s[..1]) * 10 + m % 10;
  }

  // ---------------------------------------------------------------------------
  // duration_format

  /** `int((decimal_hours - hours) * 60)` for a non-negative value of `v` hundredths
      of an hour: the whole minutes in the fraction of the hour, truncated. */
  function Minutes(v: nat): (m: nat)
    ensures m * 100 <= (v % 100) * 60 < (m + 1) * 100
    ensures m <= 59
  {
    (v % 100) * 60 / 100
  }

  /** `duration_format`: `None` gives `"0h"`; otherwise the whole hours, then the
      minutes as two digits and `m` unless they are zero. A `DecimalField` with two
      decimal places holds `v` hundredths of an hour. */
  function DurationFormat(value: Option<nat>): string {
    match value
    case None => "0h"
    case Some(v) =>
      var hours := v / 100;
      var minutes := Minutes(v);
      if minutes == 0 then NatToString(hours) + "h"
      else NatToString(hours) + "h" + Pad2(minutes) + "m"
  }

  /** `duration_format_js` returns what `duration_format` returns. */
  function DurationFormatJs(value: Option<nat>): string {
    DurationFormat(value)
  }

  lemma FormatJsAgrees(value: Option<nat>)
    ensures DurationFormatJs(value) == DurationFormat(value)
  {
  }

  // ---------------------------------------------------------------------------
  // Reading a formatted duration back

  /** The index of the first `h` in `s`, or `|s|` when there is none. */
  function IndexOfH(s: string): (i: nat)
    ensures i <= |s|
    ensures i < |s| ==> s[i] == 'h'
    ensures forall k :: 0 <= k < i ==> s[k] != 'h'
  {
    if s == [] then 0 else if s[0] == 'h' then 0 else 1 + IndexOfH(s[1..])
  }

  /** The hours and minutes a string of the form `Hh` or `HhMMm` shows, if it has one. */
  function ParseDuration(s: string): Option<(nat, nat)> {
    var i := IndexOfH(s);
    if i == 0 || i == |s| || !AllDigits(s[..i]) then None
    else
      var hours := DigitsValue(s[..i]);
      var rest := s[i + 1..];
      if rest == [] then Some((hours, 0))
      else if |rest| == 3 && AllDigits(rest[..2]) && rest[2] == 'm' then Some((hours, DigitsValue(rest[..2])))
      else None
  }

  lemma IndexOfHAfterDigits(digits: string, rest: string)
    requires AllDigits(digits) && rest != [] && rest[0] == 'h'
    ensures IndexOfH(digits + rest) == |digits|
  {
    var s := digits + rest;
    assert s[|digits|] == 'h';
    assert forall k :: 0 <= k < |digits| ==> s[k] == digits[k];
  }

  /** The formatted text shows the whole hours of the value and its whole minutes. */
  lemma FormatParses(v: nat)
    ensures ParseDuration(DurationFormat(Some(v))) == Some((v / 100, Minutes(v)))
  {
    var digits := NatToString(v / 100);
    var s := DurationFormat(Some(v));
    var rest := if Minutes(v) == 0 then "h" else "h" + Pad2(Minutes(v)) + "m";
    assert s == digits + rest;
    IndexOfHAfterDigits(digits, rest);
    assert s[..|digits|] == digits;
    NatToStringRoundTrip(v / 100);
    if Minutes(v) != 0 {
      Pad2RoundTrip(Minutes(v));
      assert s[|digits| + 1..] == Pad2(Minutes(v)) + "m";
      assert (Pad2(Minutes(v)) + "m")[..2] == Pad2(Minutes(v));
    } else {
      assert s[|digits| + 1..] == [];
    }
  }

  /** The text shows the value truncated to whole minutes: the minutes it shows
      are below 60, and the hours and minutes shown are at most the value and less
      than one minute short of it. */
  lemma FormatTruncatesToMinutes(v: nat)
    ensures var p := ParseDuration(DurationFormat(Some(v)));
      && p.Some? && p.value.1 < 60
      && (p.value.0 * 60 + p.value.1) * 100 <= v * 60 < (p.value.0 * 60 + p.value.1 + 1) * 100
  {
    FormatParses(v);
    assert v == v / 100 * 100 + v % 100;
  }

  /** The hundredths of an hour that hours and minutes make, rounded down. */
  function ToHundredths(hours: nat, minutes: nat): nat {
    hours * 100 + minutes * 100 / 60
  }

  /** On values that are whole minutes (a multiple of 0.05 h) the format loses
      nothing: the hours and minutes it shows make the value again. */
  lemma FormatExactOnWholeMinutes(v: nat)
    requires v % 5 == 0
    ensures ParseDuration(DurationFormat(Some(v))) == Some((v / 100, Minutes(v)))
    ensures ToHundredths(v / 100, Minutes(v)) == v
  {
    FormatParses(v);
    var a, f := v / 100, v % 100;
    var q := v / 5;
    assert v == 100 * a + f && v == 5 * q;
    var r := q - 20 * a;
    assert f == 5 * r;
    assert Minutes(v) == 300 * r / 100 == 3 * r;
    assert 3 * r * 100 / 60 == 300 * r / 60 == 5 * r;
  }

  /** The minutes suffix is left out exactly when the fraction of the hour is worth
      less than one minute: 0.00 and 0.01 of an hour. */
  lemma NoMinutesIff(v: nat)
    ensures DurationFormat(Some(v)) == NatToString(v / 100) + "h" <==> v % 100 <= 1
  {
    var s := DurationFormat(Some(v));
    if Minutes(v) != 0 {
      assert |s| == |NatToString(v / 100)| + 4;
    }
  }

  /** The examples in the filter's documentation. */
  lemma FormatDocumentedExamples()
    ensures DurationFormat(Some(1550)) == "15h30m"
    ensures DurationFormat(Some(225)) == "2h15m"
    ensures DurationFormat(Some(100)) == "1h"
  {
    assert Minutes(1550) == 30 && Minutes(225) == 15 && Minutes(100) == 0;
    assert NatToString(15) == NatToString(1) + [DigitChar(5)];
  }

  /** No value, a zero-padded minute count, and a fraction worth under a minute. */
  lemma FormatEdgeExamples()
    ensures DurationFormat(None) == "0h"
    ensures DurationFormat(Some(105)) == "1h03m"
    ensures DurationFormat(Some(1)) == "0h"
  {
    assert Minutes(105) == 3 && Minutes(1) == 0;
  }
}
