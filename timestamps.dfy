/** The `created_on` timestamps of the index, kept abstract: a timestamp is
    the text it was read from, and the zero `time.Time` is the text Go prints
    for it.

    `time.Parse(time.RFC3339, s)` first tries a strict reading of RFC 3339
    (section 5.6 of RFC 3339). When that fails it falls back to Go's general
    layout parser on "2006-01-02T15:04:05Z07:00", which also takes a one-digit
    hour, a ',' before the fraction of a second, and offsets up to 24 hours
    and 60 minutes. Every text the strict reading takes, the fallback takes
    too, so `Parse` below accepts what the fallback accepts. */
module Timestamps {
  import opened Wrappers
  import opened Decimal
  import opened GoStrings

  datatype Timestamp = Timestamp(text: string)

  /** `time.Time{}`, the value an entry gets when its `created_on` line is absent. */
  const Zero := Timestamp("0001-01-01T00:00:00Z")

  /** The character the layout "2006-01-02T15:04:05" allows at position
      `i` of the date and time, once the hour has two digits: a separator,
      or any ASCII digit. */
  predicate HeadChar(c: char, i: int) {
    if i == 4 || i == 7 then c == '-'
    else if i == 10 then c == 'T'
    else if i == 13 || i == 16 then c == ':'
    else IsDigit(c)
  }

  /** The number written by the two characters at `i`, read as digits. */
  function TwoDigits(s: string, i: nat): int
    requires i + 2 <= |s|
  {
    10 * (s[i] as int - '0' as int) + (s[i + 1] as int - '0' as int)
  }

  /** The number written by the four characters at `i`, read as digits. */
  function FourDigits(s: string, i: nat): int
    requires i + 4 <= |s|
  {
    100 * TwoDigits(s, i) + TwoDigits(s, i + 2)
  }

  /** Go's `isLeap`: the Gregorian leap years. */
  predicate IsLeap(year: int) {
    year % 4 == 0 && (year % 100 != 0 || year % 400 == 0)
  }

  /** Go's `daysIn`: the number of days of a month (1 to 12) in a year. */
  function DaysIn(month: int, year: int): int {
    if month == 2 then (if IsLeap(year) then 29 else 28)
    else if month == 4 || month == 6 || month == 9 || month == 11 then 30
    else 31
  }

  /** Number of consecutive digits in `s` from position `i` on. */
  function DigitRun(s: string, i: nat): (n: nat)
    requires i <= |s|
    ensures i + n <= |s|
    decreases |s| - i
  {
    if i < |s| && IsDigit(s[i]) then 1 + DigitRun(s, i + 1) else 0
  }

  /** The run `DigitRun` measures is made of digits only. */
  lemma {:induction false} DigitRunDigits(s: string, i: nat)
    requires i <= |s|
    ensures forall k :: i <= k < i + DigitRun(s, i) ==> IsDigit(s[k])
    decreases |s| - i
  {
    if i < |s| && IsDigit(s[i]) {
      DigitRunDigits(s, i + 1);
    }
  }

  /** The layout's hour "15" is read by `getnum(value, false)`, which takes
      one digit when no second digit follows. This is the text with such an
      hour written with two digits; any other text is left as it is. */
  function Widened(s: string): (w: string)
  {
    if |s| >= 13 && IsDigit(s[11]) && !IsDigit(s[12]) then s[..11] + ['0'] + s[11..] else s
  }

  /** time-offset: "Z", or a sign followed by "hh:mm" with hh <= 24 and
      mm <= 60, the ranges the layout parser allows. */
  predicate IsOffset(o: string) {
    o == "Z"
    || (|o| == 6 && (o[0] == '+' || o[0] == '-') && o[3] == ':'
        && IsDigit(o[1]) && IsDigit(o[2]) && IsDigit(o[4]) && IsDigit(o[5])
        && TwoDigits(o, 1) <= 24 && TwoDigits(o, 4) <= 60)
  }

  /** Positions `i` to 18 of `s` hold what the layout allows there. */
  predicate HeadFrom(s: string, i: nat)
    requires i <= 19 <= |s|
    decreases 19 - i
  {
    i == 19 || (HeadChar(s[i], i) && HeadFrom(s, i + 1))
  }

  /** "YYYY-MM-DDTHH:MM:SS" with the ranges Go checks: a month from 1 to 12,
      a day that exists in that month, an hour up to 23, minutes and seconds
      up to 59. */
  predicate IsDateTimeHead(s: string) {
    |s| >= 19 && HeadFrom(s, 0)
    && 1 <= TwoDigits(s, 5) <= 12 && 1 <= TwoDigits(s, 8) <= DaysIn(TwoDigits(s, 5), FourDigits(s, 0))
    && TwoDigits(s, 11) <= 23 && TwoDigits(s, 14) <= 59 && TwoDigits(s, 17) <= 59
  }

  /** Length of the optional fraction of a second that follows the head:
      a '.' or ',' and the digits after it. */
  function FractionLength(s: string): (n: nat)
    requires |s| >= 19
    ensures 19 + n <= |s|
  {
    if |s| > 19 && (s[19] == '.' || s[19] == ',') then 1 + DigitRun(s, 20) else 0
  }

  /** A date-time with a two-digit hour that the layout parser accepts: the
      head, an optional fraction with at least one digit, and the offset,
      with nothing after it. */
  predicate HasLayout(w: string) {
    IsDateTimeHead(w)
    && FractionLength(w) != 1
    && IsOffset(w[19 + FractionLength(w)..])
  }

  /** A date-time `time.Parse(time.RFC3339, s)` accepts: after a one-digit
      hour is widened, the head with its month, day and time in range, an
      optional '.' or ',' fraction with at least one digit, and an offset up
      to "±24:60", with nothing after it. */
  predicate WellFormed(s: string) {
    HasLayout(Widened(s))
  }

  /** `s` has at least a head's length and ends in an offset, after an
      optional fraction: what `Format` needs to print it. */
  predicate EndsInOffset(s: string) {
    var w := Widened(s);
    |w| >= 19 && IsOffset(w[19 + FractionLength(w)..])
  }

  /** The time-offset of a date-time. */
  function OffsetOf(s: string): (o: string)
    requires EndsInOffset(s)
    ensures IsOffset(o)
  {
    var w := Widened(s);
    w[19 + FractionLength(w)..]
  }

  /** `time.Parse(time.RFC3339, s)`: a `WellFormed` text is accepted and the
      timestamp keeps it. What is accepted is at least a date and a time
      long and holds no space, so `strings.TrimSpace` leaves it whole. */
  function Parse(s: string): (r: Option<Timestamp>)
    ensures r.Some? ==> r.value.text == s && 19 <= |s| && forall i :: 0 <= i < |s| ==> !IsSpace(s[i])
  {
    if WellFormed(s) then WellFormedHasNoSpaces(s); Some(Timestamp(s)) else None
  }

  /** The offset "±hh:mm" in minutes, without its sign. */
  function OffsetMinutes(o: string): int
    requires |o| == 6
  {
    60 * TwoDigits(o, 1) + TwoDigits(o, 4)
  }

  /** `appendInt(b, n, 2)`: a number below 100 in two digits. */
  function TwoDigitText(n: nat): (s: string)
    requires n < 100
    ensures |s| == 2 && IsDigit(s[0]) && IsDigit(s[1]) && TwoDigits(s, 0) == n
  {
    [DigitChar(n / 10), DigitChar(n % 10)]
  }

  /** How `Format` prints the offset the time was parsed with: "Z" when it
      is zero, and otherwise its sign, then its hours and the minutes left
      over, each in two digits. */
  function PrintOffset(o: string): (p: string)
    requires IsOffset(o)
    ensures |p| >= 1 && (p[0] == 'Z' || p[0] == '+' || p[0] == '-')
  {
    if o == "Z" then "Z"
    else
      var m := OffsetMinutes(o);
      if m == 0 then "Z" else [o[0]] + TwoDigitText(m / 60) + [':'] + TwoDigitText(m % 60)
  }

  /** An offset whose printed form is below 25 hours. The layout parser
      allows "+24:60", which is 25 hours. */
  predicate PrintableOffset(o: string)
    requires IsOffset(o)
  {
    o == "Z" || OffsetMinutes(o) < 25 * 60
  }

  /** `t.Format(time.RFC3339)`: the date and the time with a two-digit hour,
      whole seconds only, and the offset as `PrintOffset` prints it. */
  function Format(t: Timestamp): (f: string)
    ensures t == Zero ==> f == Zero.text
  {
    ZeroWellFormed();
    var s := t.text;
    if !EndsInOffset(s) then s
    else Widened(s)[..19] + PrintOffset(OffsetOf(s))
  }

  /** A timestamp printed the way `Format` prints it. */
  predicate Canonical(t: Timestamp) {
    WellFormed(t.text) && Format(t) == t.text
  }

  /** A parsed timestamp whose printed text parses again. */
  predicate Printable(t: Timestamp) {
    WellFormed(t.text) && PrintableOffset(OffsetOf(t.text))
  }

  /** Printing a canonical timestamp and parsing the text gives it back. */
  lemma ParseFormat(t: Timestamp)
    requires Canonical(t)
    ensures Parse(Format(t)) == Some(t)
  {
  }

  /** `HeadFrom` checks each of the positions from `i` to 18. */
  lemma {:induction false} HeadFromChars(s: string, i: nat)
    requires i <= 19 <= |s|
    ensures HeadFrom(s, i) <==> forall k :: i <= k < 19 ==> HeadChar(s[k], k)
    decreases 19 - i
  {
    if i < 19 {
      HeadFromChars(s, i + 1);
    }
  }

  /** Only the first 19 characters decide whether a text starts with a date and time. */
  lemma SameHead(s: string, f: string)
    requires IsDateTimeHead(s) && |f| >= 19 && f[..19] == s[..19]
    ensures IsDateTimeHead(f)
  {
    assert forall i :: 0 <= i < 19 ==> f[i] == s[..19][i] == s[i];
    HeadFromChars(s, 0);
    HeadFromChars(f, 0);
    assert TwoDigits(f, 0) == TwoDigits(s, 0) && TwoDigits(f, 2) == TwoDigits(s, 2);
    assert TwoDigits(f, 5) == TwoDigits(s, 5) && TwoDigits(f, 8) == TwoDigits(s, 8);
    assert TwoDigits(f, 11) == TwoDigits(s, 11) && TwoDigits(f, 14) == TwoDigits(s, 14);
    assert TwoDigits(f, 17) == TwoDigits(s, 17);
  }

  /** A printable offset prints as a valid offset that prints as itself. */
  lemma PrintOffsetCanonical(o: string)
    requires IsOffset(o) && PrintableOffset(o)
    ensures IsOffset(PrintOffset(o)) && PrintOffset(PrintOffset(o)) == PrintOffset(o)
    ensures PrintableOffset(PrintOffset(o))
  {
    var p := PrintOffset(o);
    if o != "Z" && OffsetMinutes(o) != 0 {
      var m := OffsetMinutes(o);
      assert p[1..3] == TwoDigitText(m / 60) && p[4..] == TwoDigitText(m % 60);
      assert TwoDigits(p, 1) == m / 60 && TwoDigits(p, 4) == m % 60;
      assert OffsetMinutes(p) == m;
    }
  }

  /** The offset "±24:60" prints as "±25:00", which the parser rejects. */
  lemma PrintOffsetOverflow(o: string)
    requires IsOffset(o) && !PrintableOffset(o)
    ensures !IsOffset(PrintOffset(o))
  {
    var p := PrintOffset(o);
    var m := OffsetMinutes(o);
    assert m == 25 * 60;
    assert p[1..3] == TwoDigitText(m / 60);
    assert TwoDigits(p, 1) == 25;
  }

  /** What `Format` prints starts with a date and time whose hour has two
      digits, and the printed offset follows the seconds at once. */
  lemma FormatShape(t: Timestamp)
    requires WellFormed(t.text)
    ensures var f := Format(t);
      f[..19] == Widened(t.text)[..19] && f[19..] == PrintOffset(OffsetOf(t.text))
      && Widened(f) == f && IsDateTimeHead(f) && FractionLength(f) == 0
  {
    var w := Widened(t.text);
    SameHead(w, w[..19]);
    HeadThen(w[..19], PrintOffset(OffsetOf(t.text)));
  }

  /** The text `Format` prints parses again exactly when the offset is
      printable: only "±24:60" is accepted but printed out of range. */
  lemma FormatReparses(t: Timestamp)
    requires WellFormed(t.text)
    ensures WellFormed(Format(t)) <==> Printable(t)
  {
    FormatShape(t);
    var o := OffsetOf(t.text);
    if PrintableOffset(o) {
      PrintOffsetCanonical(o);
    } else {
      PrintOffsetOverflow(o);
    }
  }

  /** Printing a printable timestamp gives a canonical one, so a second
      save after a load changes nothing. */
  lemma FormatIsCanonical(t: Timestamp)
    requires Printable(t)
    ensures Canonical(Timestamp(Format(t))) && Printable(Timestamp(Format(t)))
  {
    FormatShape(t);
    PrintOffsetCanonical(OffsetOf(t.text));
  }

  /** The head of Go's reference time, with its hour in two digits. */
  lemma ReferenceHead(h: string)
    requires h == "2006-01-02T15:04:05"
    ensures IsDateTimeHead(h)
  {
    assert h[0] == '2' && h[1] == '0' && h[2] == '0' && h[3] == '6' && h[4] == '-';
    assert h[5] == '0' && h[6] == '1' && h[7] == '-' && h[8] == '0' && h[9] == '2';
    assert h[10] == 'T' && h[11] == '1' && h[12] == '5' && h[13] == ':' && h[14] == '0';
    assert h[15] == '4' && h[16] == ':' && h[17] == '0' && h[18] == '5';
    HeadFromChars(h, 0);
  }

  /** The zero time, "0001-01-01T00:00:00Z", parses, and its offset is "Z". */
  lemma ZeroWellFormed()
    ensures WellFormed(Zero.text) && OffsetOf(Zero.text) == "Z"
  {
    var h := "0001-01-01T00:00:00";
    assert h[0] == '0' && h[1] == '0' && h[2] == '0' && h[3] == '1' && h[4] == '-';
    assert h[5] == '0' && h[6] == '1' && h[7] == '-' && h[8] == '0' && h[9] == '1';
    assert h[10] == 'T' && h[11] == '0' && h[12] == '0' && h[13] == ':' && h[14] == '0';
    assert h[15] == '0' && h[16] == ':' && h[17] == '0' && h[18] == '0';
    HeadFromChars(h, 0);
    HeadThen(h, "Z");
    assert Zero.text == h + "Z";
  }

  /** The zero time, which an entry gets when its created_on line is
      missing, is printed as it reads and its printed form parses again. */
  lemma ZeroCanonical()
    ensures Canonical(Zero) && Printable(Zero)
  {
    ZeroWellFormed();
  }

  /** The head of the reference time at 5 a.m. */
  lemma EarlyHead(h: string)
    requires h == "2006-01-02T05:04:05"
    ensures IsDateTimeHead(h)
  {
    assert h[0] == '2' && h[1] == '0' && h[2] == '0' && h[3] == '6' && h[4] == '-';
    assert h[5] == '0' && h[6] == '1' && h[7] == '-' && h[8] == '0' && h[9] == '2';
    assert h[10] == 'T' && h[11] == '0' && h[12] == '5' && h[13] == ':' && h[14] == '0';
    assert h[15] == '4' && h[16] == ':' && h[17] == '0' && h[18] == '5';
    HeadFromChars(h, 0);
  }

  /** A head followed by any text still starts with that head, and its
      hour already has two digits. */
  lemma HeadThen(h: string, tail: string)
    requires IsDateTimeHead(h) && |h| == 19
    ensures IsDateTimeHead(h + tail) && (h + tail)[..19] == h && (h + tail)[19..] == tail
    ensures Widened(h + tail) == h + tail
  {
    assert (h + tail)[..19] == h;
    SameHead(h, h + tail);
    HeadFromChars(h, 0);
    assert HeadChar(h[12], 12);
    assert (h + tail)[12] == h[12];
  }

  /** The layout parser takes a one-digit hour, and `Format` prints it with
      two digits. */
  lemma OneDigitHour()
    ensures Parse("2006-01-02T5:04:05Z").Some?
    ensures Format(Timestamp("2006-01-02T5:04:05Z")) == "2006-01-02T05:04:05Z"
  {
    OneDigitHourLayout();
    var w := "2006-01-02T05:04:05Z";
    assert w[..19] == "2006-01-02T05:04:05";
  }

  lemma OneDigitHourLayout()
    ensures Widened("2006-01-02T5:04:05Z") == "2006-01-02T05:04:05Z"
    ensures WellFormed("2006-01-02T5:04:05Z") && OffsetOf("2006-01-02T5:04:05Z") == "Z"
  {
    var a := "2006-01-02T5:04:05Z";
    var h := "2006-01-02T05:04:05";
    EarlyHead(h);
    HeadThen(h, "Z");
    assert a[11] == '5';
    assert a[12] == ':';
    assert a[..11] + ['0'] + a[11..] == h + "Z";
    assert FractionLength(h + "Z") == 0;
  }

  /** The layout parser takes a ',' before the fraction of a second, and
      `Format` drops the fraction. */
  lemma CommaFraction()
    ensures Parse("2006-01-02T15:04:05,5Z").Some?
    ensures Format(Timestamp("2006-01-02T15:04:05,5Z")) == "2006-01-02T15:04:05Z"
  {
    var h := "2006-01-02T15:04:05";
    var b := h + ",5Z";
    assert b == "2006-01-02T15:04:05,5Z";
    ReferenceHead(h);
    HeadThen(h, ",5Z");
    assert b[20] == '5' && b[21] == 'Z';
    assert DigitRun(b, 21) == 0;
    assert FractionLength(b) == 2 && b[21..] == "Z";
  }

  /** The layout parser takes the offset "+24:60", but `Format` prints it as
      "+25:00", which does not parse again. */
  lemma OffsetPastDay()
    ensures Parse("2006-01-02T15:04:05+24:60").Some?
    ensures Parse(Format(Timestamp("2006-01-02T15:04:05+24:60"))).None?
  {
    var c := "2006-01-02T15:04:05+24:60";
    PastDayOffset();
    assert OffsetMinutes("+24:60") == 25 * 60;
    assert !Printable(Timestamp(c));
    FormatReparses(Timestamp(c));
  }

  lemma PastDayOffset()
    ensures WellFormed("2006-01-02T15:04:05+24:60")
    ensures OffsetOf("2006-01-02T15:04:05+24:60") == "+24:60"
  {
    var h := "2006-01-02T15:04:05";
    var o := "+24:60";
    var c := h + o;
    assert c == "2006-01-02T15:04:05+24:60";
    ReferenceHead(h);
    HeadThen(h, o);
    assert FractionLength(c) == 0;
    assert TwoDigits(o, 1) == 24 && TwoDigits(o, 4) == 60;
  }

  /** The printed text of a printable timestamp holds no space character. */
  lemma FormatHasNoSpaces(t: Timestamp)
    requires Printable(t)
    ensures |Format(t)| > 0 && forall i :: 0 <= i < |Format(t)| ==> !IsSpace(Format(t)[i])
  {
    FormatIsCanonical(t);
    WellFormedHasNoSpaces(Format(t));
  }

  /** A date-time with a two-digit hour that the layout parser accepts
      holds no space character. */
  lemma HasLayoutHasNoSpaces(w: string)
    requires HasLayout(w)
    ensures forall i :: 0 <= i < |w| ==> !IsSpace(w[i])
  {
    var f := FractionLength(w);
    var o := w[19 + f..];
    HeadFromChars(w, 0);
    if |w| > 19 && (w[19] == '.' || w[19] == ',') {
      DigitRunDigits(w, 20);
    }
    forall i | 0 <= i < |w|
      ensures !IsSpace(w[i])
    {
      if i < 19 {
        assert HeadChar(w[i], i);
      } else if i >= 19 + f {
        assert w[i] == o[i - 19 - f];
      }
    }
  }

  /** A well-formed timestamp contains no space characters (and so no line
      break): trimming leaves it whole and it fits on one line. */
  lemma WellFormedHasNoSpaces(s: string)
    requires WellFormed(s)
    ensures forall i :: 0 <= i < |s| ==> !IsSpace(s[i])
  {
    var w := Widened(s);
    HasLayoutHasNoSpaces(w);
    if w != s {
      forall i | 0 <= i < |s|
        ensures !IsSpace(s[i])
      {
        if i < 11 {
          assert s[i] == w[i];
        } else {
          assert s[i] == w[i + 1];
        }
      }
    }
  }
}
