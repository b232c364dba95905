/** Times of day as the appointment and schedule schemas accept them
    ("HH:MM", 24-hour), the minutes-since-midnight value their refinements
    compare, and the half-open intervals the conflict queries reason about. */
module TimeOfDay {
  import opened Wrappers
  import Text

  /** Minutes since midnight. */
  type Minute = m: int | 0 <= m < 1440

  predicate IsDigit(c: char) {
    '0' <= c <= '9'
  }

  function Digit(c: char): (d: nat)
    requires IsDigit(c)
    ensures d < 10
  {
    c as int - '0' as int
  }

  /** The pattern `^([0-1][0-9]|2[0-3]):([0-5][0-9])$`. */
  predicate IsClock(s: string) {
    |s| == 5
    && (('0' <= s[0] <= '1' && IsDigit(s[1])) || (s[0] == '2' && '0' <= s[1] <= '3'))
    && s[2] == ':'
    && '0' <= s[3] <= '5' && IsDigit(s[4])
  }

  /** `hours * 60 + minutes`, with both halves read as decimal numbers. */
  function ClockMinutes(s: string): Minute
    requires IsClock(s)
  {
    (10 * Digit(s[0]) + Digit(s[1])) * 60 + 10 * Digit(s[3]) + Digit(s[4])
  }

  /** Reads an "HH:MM" field; `None` when it does not match the pattern. */
  function ParseClock(s: string): (r: Option<Minute>)
    ensures r.Some? <==> IsClock(s)
    ensures r.Some? ==> r.value == ClockMinutes(s)
  {
    if IsClock(s) then Some(ClockMinutes(s)) else None
  }

  /** The zero-padded "HH:MM" text of a time of day. */
  function FormatClock(m: Minute): string {
    var h, mm := m / 60, m % 60;
    [Text.DigitChar(h / 10), Text.DigitChar(h % 10), ':', Text.DigitChar(mm / 10), Text.DigitChar(mm % 10)]
  }

  /** Every time of day has an accepted text that reads back to it. */
  lemma ClockRoundTrip(m: Minute)
    ensures IsClock(FormatClock(m))
    ensures ParseClock(FormatClock(m)) == Some(m)
  {
  }

  /** The accepted texts are exactly the zero-padded ones: reading and
      printing back gives the same text. */
  lemma ClockCanonical(s: string)
    requires IsClock(s)
    ensures FormatClock(ClockMinutes(s)) == s
  {
    var f := FormatClock(ClockMinutes(s));
    assert f[0] == s[0] && f[1] == s[1] && f[3] == s[3] && f[4] == s[4];
  }

  /** On accepted texts, JavaScript's string `<` orders as the times do. */
  lemma ClockOrder(a: string, b: string)
    requires IsClock(a) && IsClock(b)
    ensures Text.StrLess(a, b) <==> ClockMinutes(a) < ClockMinutes(b)
  {
    assert a[1..][1..] == a[2..] && b[1..][1..] == b[2..];
    assert a[2..][1..] == a[3..] && b[2..][1..] == b[3..];
    assert a[3..][1..] == a[4..] && b[3..][1..] == b[4..];
    assert a[4..][1..] == [] && b[4..][1..] == [];
    assert Text.StrLess(a[4..], b[4..]) == (a[4] < b[4]);
    assert Text.StrLess(a[3..], b[3..]) == (a[3] < b[3] || (a[3] == b[3] && a[4] < b[4]));
    assert Text.StrLess(a[2..], b[2..]) == Text.StrLess(a[3..], b[3..]);
    assert Text.StrLess(a[1..], b[1..]) == (a[1] < b[1] || (a[1] == b[1] && Text.StrLess(a[2..], b[2..])));
  }

  /** A stretch of the day from `start` (inclusive) to `end` (exclusive). */
  datatype Span = Span(start: Minute, end: Minute)

  predicate Proper(s: Span) {
    s.start < s.end
  }

  /** Two half-open stretches share at least one minute. */
  predicate Overlaps(a: Span, b: Span) {
    a.start < b.end && b.start < a.end
  }

  /** `inner` lies inside `window`, both ends inclusive. */
  predicate Covers(window: Span, inner: Span) {
    window.start <= inner.start && inner.end <= window.end
  }

  /** The three-clause filter of the conflict queries for an existing row
      `e` and a candidate `c`: `c` starts inside `e`, `c` ends inside `e`,
      or `c` contains `e`. */
  predicate QueryOverlap(e: Span, c: Span) {
    (e.start <= c.start && e.end > c.start)
    || (e.start < c.end && e.end >= c.end)
    || (e.start >= c.start && e.end <= c.end)
  }

  /** For proper stretches the three clauses say exactly "the half-open
      stretches overlap". */
  lemma QueryOverlapIsOverlap(e: Span, c: Span)
    requires Proper(e) && Proper(c)
    ensures QueryOverlap(e, c) <==> Overlaps(e, c)
  {
  }

  lemma OverlapsSymmetric(a: Span, b: Span)
    ensures Overlaps(a, b) <==> Overlaps(b, a)
  {
  }

  /** Back-to-back stretches do not overlap. */
  lemma TouchingDoNotOverlap(a: Span, b: Span)
    requires Proper(a) && Proper(b) && a.end == b.start
    ensures !Overlaps(a, b) && !QueryOverlap(a, b) && !QueryOverlap(b, a)
  {
  }
}
