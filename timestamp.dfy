/**
  * The timestamp normaliser of the chat viewer: the date and time texts that
  * a header line carries become a civil (wall-clock) tuple.  Turning that
  * tuple into an instant (`new Date(...).getTime()`, which depends on the
  * local time zone and rolls out-of-range days and months over) is left to
  * an `epoch` function that the callers receive as a parameter.
  */
module Timestamp {
  import opened Text

  /** Local calendar fields as handed to `new Date(year, month, day, hours, minutes)`;
      the month is 0-based. */
  datatype Civil = Civil(year: int, month0: int, day: int, hour: int, minute: int)

  function Pow10(k: nat): (p: nat)
    ensures p >= 1
  {
    if k == 0 then 1 else 10 * Pow10(k - 1)
  }

  function DigitValue(c: char): (d: nat)
    requires IsDigit(c)
    ensures d <= 9
  {
    c as int - '0' as int
  }

  /** `parseInt` on a string of ASCII digits: its decimal value. */
  function ParseDecimal(s: string): (n: nat)
    requires AllDigits(s)
    ensures n < Pow10(|s|)
  {
    if s == [] then 0 else 10 * ParseDecimal(s[..|s| - 1]) + DigitValue(s[|s| - 1])
  }

  /** A run of `lo` to `hi` ASCII digits (`\d{lo,hi}`). */
  predicate IsNumeral(s: string, lo: nat, hi: nat) {
    lo <= |s| <= hi && AllDigits(s)
  }

  /** The date texts the header recogniser produces: `\d{1,2}/\d{1,2}/\d{2,4}`. */
  predicate DateShape(date: string) {
    var p := Split(date, '/');
    |p| == 3 && IsNumeral(p[0], 1, 2) && IsNumeral(p[1], 1, 2) && IsNumeral(p[2], 2, 4)
  }

  predicate IsMeridiemLetter(c: char) {
    c == 'A' || c == 'a' || c == 'P' || c == 'p'
  }

  predicate IsMLetter(c: char) {
    c == 'M' || c == 'm'
  }

  /** The text ends with `am` or `pm` in any letter case. */
  predicate HasMeridiem(t: string) {
    |t| >= 2 && IsMeridiemLetter(t[|t| - 2]) && IsMLetter(t[|t| - 1])
  }

  /** `timeStr.replace(/\s*(AM|PM|am|pm)\s*$/i, '')` on the time texts the
      recogniser produces, where a meridiem, if any, ends the text. */
  function StripMeridiem(t: string): (r: string)
    ensures |r| <= |t| && r == t[..|r|]
  {
    if HasMeridiem(t) then TrimEnd(t[..|t| - 2]) else t
  }

  /** The time texts the header recogniser produces:
      `\d{1,2}:\d{2}(?::\d{2})?(?:\s*[APap][Mm])?`. */
  predicate TimeShape(t: string) {
    var p := Split(StripMeridiem(t), ':');
    (|p| == 2 || |p| == 3) && IsNumeral(p[0], 1, 2) && IsNumeral(p[1], 2, 2)
    && (|p| == 3 ==> IsNumeral(p[2], 2, 2))
  }

  /** `/PM/i.test(timeStr)` */
  predicate IsPM(t: string) {
    Contains(Lower(t), "pm")
  }

  /** `/AM/i.test(timeStr)` */
  predicate IsAM(t: string) {
    Contains(Lower(t), "am")
  }

  /** `parseInt(timeParts[0])`: the hour field, before the 12-hour conversion. */
  function HourField(t: string): (h: nat)
    requires TimeShape(t)
    ensures h <= 99
  {
    ParseDecimal(Split(StripMeridiem(t), ':')[0])
  }

  /** `parseInt(timeParts[1])`: the minute field. */
  function MinuteField(t: string): (m: nat)
    requires TimeShape(t)
    ensures m <= 99
  {
    ParseDecimal(Split(StripMeridiem(t), ':')[1])
  }

  /** The 12-hour to 24-hour conversion of `parseTimestamp`. */
  function ClockHour(t: string): (h: nat)
    requires TimeShape(t)
    ensures h <= 99
  {
    var hours := HourField(t);
    if IsPM(t) && hours < 12 then hours + 12
    else if IsAM(t) && hours == 12 then 0
    else hours
  }

  /** Year, 0-based month and day of a date text: a two-character year is
      in the 2000s, and the day is the first field unless only the second
      one can be a day (is above 12). */
  function ResolveDate(date: string): (r: (int, int, int))
    requires DateShape(date)
    ensures 0 <= r.0 <= 9999 && -1 <= r.1 <= 98 && 0 <= r.2 <= 99
  {
    var parts := Split(date, '/');
    var yearText := parts[2];
    var year := if |yearText| == 2 then 2000 + ParseDecimal(yearText) else ParseDecimal(yearText);
    var first := ParseDecimal(parts[0]);
    var second := ParseDecimal(parts[1]);
    if first > 12 then (year, second - 1, first)
    else if second > 12 then (year, first - 1, second)
    else (year, second - 1, first)
  }

  /** `parseTimestamp(dateStr, timeStr)` up to the `new Date(...)` call. */
  function ParseTimestamp(date: string, time: string): (c: Civil)
    requires DateShape(date) && TimeShape(time)
    ensures 0 <= c.year <= 9999 && 0 <= c.day <= 99 && -1 <= c.month0 <= 98
    ensures 0 <= c.hour <= 99 && 0 <= c.minute <= 99
  {
    var (year, month0, day) := ResolveDate(date);
    Civil(year, month0, day, ClockHour(time), MinuteField(time))
  }

  // ---------------------------------------------------------------------
  // What the time text says about its meridiem

  /** Only digits and colons. */
  predicate ClockChars(s: string) {
    forall i :: 0 <= i < |s| ==> IsDigit(s[i]) || s[i] == ':'
  }

  lemma {:induction false} JoinClockChars(parts: seq<string>)
    requires forall k :: 0 <= k < |parts| ==> AllDigits(parts[k])
    ensures ClockChars(Join(parts, ":"))
  {
    if |parts| > 1 {
      JoinClockChars(parts[1..]);
    }
  }

  /** A well-shaped time text is a clock part of digits and colons, then
      optionally blanks and a two-letter meridiem. */
  lemma TimeLayout(t: string)
    requires TimeShape(t)
    ensures ClockChars(StripMeridiem(t))
    ensures |StripMeridiem(t)| >= 4 && IsDigit(t[0])
    ensures HasMeridiem(t) ==> IsBlank(t[|StripMeridiem(t)|..|t| - 2])
    ensures !HasMeridiem(t) ==> StripMeridiem(t) == t
  {
    var core := StripMeridiem(t);
    var p := Split(core, ':');
    JoinSplit(core, ':');
    JoinClockChars(p);
    assert core[0] == p[0][0];
    if HasMeridiem(t) {
      assert t[..|t| - 2][|core|..] == t[|core|..|t| - 2];
    }
  }

  /** Where a two-letter pattern can occur when its first letter appears
      nowhere but second to last. */
  lemma {:induction false} OccurrenceAtEnd(s: string, t: string)
    requires |t| == 2 && Contains(s, t)
    requires forall i :: 0 <= i < |s| - 2 ==> s[i] != t[0]
    requires |s| >= 1 ==> s[|s| - 1] != t[0]
    ensures |s| >= 2 && s[|s| - 2] == t[0]
  {
    var j := IndexOf(s, t).value;
    assert s[j..j + 2][0] == s[j];
  }

  lemma {:induction false} NoOccurrence(s: string, t: string)
    requires |t| >= 1 && forall i :: 0 <= i < |s| ==> s[i] != t[0]
    ensures !Contains(s, t)
  {
    forall j ensures !OccursAt(s, t, j) {
      if 0 <= j && j + |t| <= |s| {
        assert s[j..j + |t|][0] == s[j];
      }
    }
  }

  /** Before its meridiem, a well-shaped time text holds only digits,
      colons and blanks. */
  lemma TimeCharsBeforeMeridiem(t: string)
    requires TimeShape(t)
    ensures forall i :: 0 <= i < (if HasMeridiem(t) then |t| - 2 else |t|) ==>
              IsDigit(t[i]) || t[i] == ':' || IsSpace(t[i])
  {
    TimeLayout(t);
    var core := StripMeridiem(t);
    var n := if HasMeridiem(t) then |t| - 2 else |t|;
    forall i | 0 <= i < n ensures IsDigit(t[i]) || t[i] == ':' || IsSpace(t[i]) {
      if i < |core| {
        assert t[i] == core[i];
      } else {
        assert t[i] == t[|core|..|t| - 2][i - |core|];
      }
    }
  }

  /** Lower-casing keeps digits, colons and blanks as they are, so none of
      them becomes an `a` or a `p`. */
  lemma LowerKeepsClockChars(t: string, n: nat)
    requires n <= |t|
    requires forall i :: 0 <= i < n ==> IsDigit(t[i]) || t[i] == ':' || IsSpace(t[i])
    ensures forall i :: 0 <= i < n ==> Lower(t)[i] != 'a' && Lower(t)[i] != 'p'
  {
    var low := Lower(t);
    forall i | 0 <= i < n ensures low[i] != 'a' && low[i] != 'p' {
      assert low[i] == LowerChar(t[i]);
    }
  }

  /** In a text that ends in `m` and has no `a` or `p` before its last two
      characters, `ym` occurs exactly when `y` is second to last. */
  lemma EndPair(s: string, y: char)
    requires |s| >= 2 && s[|s| - 1] == 'm' && (y == 'a' || y == 'p')
    requires forall i :: 0 <= i < |s| - 2 ==> s[i] != 'a' && s[i] != 'p'
    ensures Contains(s, [y, 'm']) <==> s[|s| - 2] == y
  {
    if s[|s| - 2] == y {
      assert OccursAt(s, [y, 'm'], |s| - 2);
      ContainsAt(s, [y, 'm'], |s| - 2);
    } else {
      assert forall i :: 0 <= i < |s| ==> s[i] != y;
      NoOccurrence(s, [y, 'm']);
    }
  }

  /** `/PM/i` and `/AM/i` see exactly the meridiem at the end of the text. */
  lemma MeridiemTests(t: string)
    requires TimeShape(t)
    ensures IsPM(t) <==> HasMeridiem(t) && (t[|t| - 2] == 'P' || t[|t| - 2] == 'p')
    ensures IsAM(t) <==> HasMeridiem(t) && (t[|t| - 2] == 'A' || t[|t| - 2] == 'a')
  {
    var n := if HasMeridiem(t) then |t| - 2 else |t|;
    TimeCharsBeforeMeridiem(t);
    LowerKeepsClockChars(t, n);
    MeridiemLetters(t, n);
  }

  lemma MeridiemLetters(t: string, n: nat)
    requires n == if HasMeridiem(t) then |t| - 2 else |t|
    requires forall i :: 0 <= i < n ==> Lower(t)[i] != 'a' && Lower(t)[i] != 'p'
    ensures IsPM(t) <==> HasMeridiem(t) && (t[|t| - 2] == 'P' || t[|t| - 2] == 'p')
    ensures IsAM(t) <==> HasMeridiem(t) && (t[|t| - 2] == 'A' || t[|t| - 2] == 'a')
  {
    var low := Lower(t);
    if HasMeridiem(t) {
      assert low[|t| - 1] == LowerChar(t[|t| - 1]);
      assert low[|t| - 2] == LowerChar(t[|t| - 2]);
      EndPair(low, 'p');
      EndPair(low, 'a');
    } else {
      NoOccurrence(low, "pm");
      NoOccurrence(low, "am");
    }
  }

  // ---------------------------------------------------------------------
  // Rendering fields as text, to state what parsing gives back

  function DigitChar(d: nat): (c: char)
    requires d <= 9
    ensures IsDigit(c) && DigitValue(c) == d
  {
    ('0' as int + d) as char
  }

  /** The decimal numeral of `n`, without leading zeros. */
  function Numeral(n: nat): (s: string)
    ensures AllDigits(s) && |s| >= 1
    ensures n < 10 ==> |s| == 1
    ensures 10 <= n < 100 ==> |s| == 2
    ensures 100 <= n < 1000 ==> |s| == 3
    ensures 1000 <= n < 10000 ==> |s| == 4
  {
    if n < 10 then [DigitChar(n)] else Numeral(n / 10) + [DigitChar(n % 10)]
  }

  lemma {:induction false} ParseNumeral(n: nat)
    ensures ParseDecimal(Numeral(n)) == n
  {
    if n >= 10 {
      var s := Numeral(n);
      assert s[..|s| - 1] == Numeral(n / 10);
      ParseNumeral(n / 10);
    }
  }

  /** Two digits, zero-padded. */
  function Pad2(n: nat): (s: string)
    requires n < 100
    ensures IsNumeral(s, 2, 2)
  {
    if n < 10 then "0" + Numeral(n) else Numeral(n)
  }

  lemma ParsePad2(n: nat)
    requires n < 100
    ensures ParseDecimal(Pad2(n)) == n
  {
    ParseNumeral(n);
    if n < 10 {
      assert Pad2(n)[..1] == "0";
    }
  }

  /** The date text `a/b/y` with field texts `a`, `b` and `y`, which may be
      zero-padded (`03/04/2023`) or not (`3/4/23`). */
  function DateOf(a: string, b: string, y: string): string {
    a + "/" + b + "/" + y
  }

  /** The fields `\d{1,2}/\d{1,2}/\d{2,4}` captures. */
  predicate DateFields(a: string, b: string, y: string) {
    IsNumeral(a, 1, 2) && IsNumeral(b, 1, 2) && IsNumeral(y, 2, 4)
  }

  lemma SplitDateOf(a: string, b: string, y: string)
    requires AllDigits(a) && AllDigits(b) && AllDigits(y)
    ensures Split(DateOf(a, b, y), '/') == [a, b, y]
  {
    DigitsHaveNo(a, '/');
    DigitsHaveNo(b, '/');
    DigitsHaveNo(y, '/');
    SplitThree(a, b, y, '/');
  }

  lemma DigitsHaveNo(s: string, c: char)
    requires AllDigits(s) && !IsDigit(c)
    ensures c !in s
  {
  }

  /** `H:MM` on a 24-hour clock. */
  function ClockText(h: nat, m: nat): (s: string)
    requires m < 100
  {
    Numeral(h) + ":" + Pad2(m)
  }

  /** The hour of a 12-hour clock face (12, 1, ..., 11) for an hour of the day. */
  function Hour12(h: nat): (r: nat)
    requires h < 24
    ensures 1 <= r <= 12
  {
    if h == 0 then 12 else if h <= 12 then h else h - 12
  }

  /** `h:MM am` / `h:MM pm` on a 12-hour clock, for `h` in 0..23. */
  function TwelveHourText(h: nat, m: nat): (s: string)
    requires h < 24 && m < 100
  {
    var h12 := Hour12(h);
    ClockText(h12, m) + " " + (if h < 12 then "am" else "pm")
  }

  lemma SplitClockText(h: nat, m: nat)
    requires m < 100
    ensures Split(ClockText(h, m), ':') == [Numeral(h), Pad2(m)]
  {
    DigitsHaveNo(Numeral(h), ':');
    DigitsHaveNo(Pad2(m), ':');
    SplitTwo(Numeral(h), Pad2(m), ':');
  }

  lemma ClockTextShape(h: nat, m: nat)
    requires h < 100 && m < 100
    ensures !HasMeridiem(ClockText(h, m))
    ensures TimeShape(ClockText(h, m))
  {
    var s := ClockText(h, m);
    assert s[|s| - 1] == Pad2(m)[1];
    SplitClockText(h, m);
  }

  lemma TwelveHourTextShape(h: nat, m: nat)
    requires h < 24 && m < 60
    ensures HasMeridiem(TwelveHourText(h, m))
    ensures StripMeridiem(TwelveHourText(h, m)) == ClockText(Hour12(h), m)
    ensures TimeShape(TwelveHourText(h, m))
  {
    var h12 := Hour12(h);
    var clock := ClockText(h12, m);
    var t := TwelveHourText(h, m);
    assert t[..|t| - 2] == clock + " ";
    assert clock[|clock| - 1] == Pad2(m)[1];
    assert TrailingSpaces(clock + " ") == 1 by {
      assert (clock + " ")[..|clock|] == clock;
    }
    SplitClockText(h12, m);
  }

  // ---------------------------------------------------------------------
  // Properties of the normaliser

  /** A date written day first is always read back as written: either the
      day is above 12, or both fields are at most 12 and the ambiguous case
      is resolved day first. Padded and unpadded fields alike. */
  lemma DayFirstRoundTrip(d: string, m: string, y: string, time: string)
    requires DateFields(d, m, y) && TimeShape(time)
    requires 1 <= ParseDecimal(d) <= 31 && 1 <= ParseDecimal(m) <= 12
    ensures DateShape(DateOf(d, m, y))
    ensures var c := ParseTimestamp(DateOf(d, m, y), time);
            c.day == ParseDecimal(d) && c.month0 == ParseDecimal(m) - 1
  {
    SplitDateOf(d, m, y);
  }

  /** A date written month first is read back as written when the day is
      above 12. */
  lemma MonthFirstRoundTrip(m: string, d: string, y: string, time: string)
    requires DateFields(m, d, y) && TimeShape(time)
    requires 13 <= ParseDecimal(d) <= 31 && 1 <= ParseDecimal(m) <= 12
    ensures DateShape(DateOf(m, d, y))
    ensures var c := ParseTimestamp(DateOf(m, d, y), time);
            c.day == ParseDecimal(d) && c.month0 == ParseDecimal(m) - 1
  {
    SplitDateOf(m, d, y);
  }

  /** The known limitation: a month-first date whose day is at most 12 is
      read day first, so day and month trade places. */
  lemma MonthFirstAmbiguous(m: string, d: string, y: string, time: string)
    requires DateFields(m, d, y) && TimeShape(time)
    requires 1 <= ParseDecimal(d) <= 12 && 1 <= ParseDecimal(m) <= 12
    ensures DateShape(DateOf(m, d, y))
    ensures var c := ParseTimestamp(DateOf(m, d, y), time);
            c.day == ParseDecimal(m) && c.month0 == ParseDecimal(d) - 1
  {
    SplitDateOf(m, d, y);
  }

  /** A two-character year `YY` (`00` to `99`) stands for `20YY`; years of
      three or four characters are taken as written; a one-character year
      is not a date. */
  lemma YearExpansion(a: string, b: string, y: string, time: string)
    requires IsNumeral(a, 1, 2) && IsNumeral(b, 1, 2) && AllDigits(y) && TimeShape(time)
    ensures DateShape(DateOf(a, b, y)) <==> 2 <= |y| <= 4
    ensures 2 <= |y| <= 4 ==>
              var c := ParseTimestamp(DateOf(a, b, y), time);
              (|y| == 2 ==> c.year == 2000 + ParseDecimal(y))
              && (|y| > 2 ==> c.year == ParseDecimal(y))
  {
    SplitDateOf(a, b, y);
    if 2 <= |y| <= 4 {
      YearOfDate(a, b, y);
    }
  }

  lemma YearOfDate(a: string, b: string, y: string)
    requires DateFields(a, b, y)
    ensures DateShape(DateOf(a, b, y))
    ensures |y| == 2 ==> ResolveDate(DateOf(a, b, y)).0 == 2000 + ParseDecimal(y)
    ensures |y| > 2 ==> ResolveDate(DateOf(a, b, y)).0 == ParseDecimal(y)
  {
    var date := DateOf(a, b, y);
    var parts := Split(date, '/');
    assert parts == [a, b, y] by {
      SplitDateOf(a, b, y);
    }
    assert parts[2] == y;
    assert DateShape(date);
  }

  /** Every time on a 12-hour clock (`h:MM am`/`h:MM pm`) is read back as the
      hour of the 24-hour day it names: noon stays 12 and midnight is 0. */
  lemma TwelveHourRoundTrip(date: string, h: nat, m: nat)
    requires DateShape(date)
    requires h < 24 && m < 60
    ensures TimeShape(TwelveHourText(h, m))
    ensures var c := ParseTimestamp(date, TwelveHourText(h, m));
            c.hour == h && c.minute == m
  {
    TwelveHourFields(h, m);
    ClockHourOfTwelveHour(TwelveHourText(h, m), h);
  }

  lemma ClockHourOfTwelveHour(t: string, h: nat)
    requires TimeShape(t) && h < 24
    requires HourField(t) == Hour12(h)
    requires HasMeridiem(t) && t[|t| - 2] == (if h < 12 then 'a' else 'p')
    ensures ClockHour(t) == h
  {
    MeridiemTests(t);
  }

  lemma TwelveHourFields(h: nat, m: nat)
    requires h < 24 && m < 60
    ensures TimeShape(TwelveHourText(h, m))
    ensures HourField(TwelveHourText(h, m)) == Hour12(h)
    ensures MinuteField(TwelveHourText(h, m)) == m
    ensures var t := TwelveHourText(h, m);
            HasMeridiem(t) && t[|t| - 2] == (if h < 12 then 'a' else 'p')
  {
    var h12 := Hour12(h);
    TwelveHourTextShape(h, m);
    SplitClockText(h12, m);
    ParseNumeral(h12);
    ParsePad2(m);
  }

  /** A time on a 24-hour clock (`H:MM`, no meridiem) keeps its hour and minute. */
  lemma TwentyFourHourRoundTrip(date: string, h: nat, m: nat)
    requires DateShape(date)
    requires h < 24 && m < 60
    ensures TimeShape(ClockText(h, m))
    ensures var c := ParseTimestamp(date, ClockText(h, m));
            c.hour == h && c.minute == m
  {
    var t := ClockText(h, m);
    ClockTextShape(h, m);
    MeridiemTests(t);
    SplitClockText(h, m);
    ParseNumeral(h);
    ParsePad2(m);
  }

  /** With an am/pm suffix and an hour field of 1 to 12, the hour lands in
      0..23, in the morning half exactly when the suffix is `am`; without a
      suffix the hour field is kept. */
  lemma MeridiemHour(date: string, time: string)
    requires DateShape(date) && TimeShape(time)
    ensures var c := ParseTimestamp(date, time);
            (HasMeridiem(time) && 1 <= HourField(time) <= 12 ==>
              0 <= c.hour <= 23 && (c.hour < 12 <==> time[|time| - 2] in {'A', 'a'}))
            && (!HasMeridiem(time) ==> c.hour == HourField(time))
  {
    MeridiemTests(time);
  }
}
