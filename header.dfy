/**
  * The header lines of a WhatsApp transcript export, as the two regular
  * expressions of `parseWhatsAppChat` recognise them (app.js:47-48):
  *
  *   D/M/Y, H:MM[:SS][ am|pm] - Sender: text
  *   [D/M/Y, H:MM[:SS][ am|pm]] Sender: text
  *
  * A line is described by a `Layout` that records every piece of it, the
  * separators included; `Assemble` prints a layout and `Recognise` is the
  * hand-written recogniser.  The backtracking of the regular expressions
  * is resolved here once and for all: every quantifier of the patterns is
  * greedy and, as long as the dash class shares no character with `\s`,
  * `:` or `[APap]` (`DashesOk`), the only way back into an earlier choice
  * fails at once, so each scanner below takes the longest run and never
  * revisits it.  The one exception is `\s*([^:]+):`, where a gap made of
  * spaces only gives its last space back to the sender (`ScanTail`).
  */
module Header {
  import opened Text
  import opened Timestamp

  /** A character that may serve as the separator between time and sender. */
  predicate DashChar(c: char) {
    !IsSpace(c) && c != ':' && !IsMeridiemLetter(c)
  }

  predicate DashesOk(dashes: set<char>) {
    forall c :: c in dashes ==> DashChar(c)
  }

  /** The class `[-â€“]` as app.js:47 spells it: the UTF-8 bytes of an en
      dash read as Windows-1252 (a, euro sign, left double quotation mark). */
  const AsWrittenDashes: set<char> := {'-', '\U{E2}', '\U{20AC}', '\U{201C}'}

  /** A hyphen or an en dash, which WhatsApp writes between time and sender. */
  const IntendedDashes: set<char> := {'-', '\U{2013}'}

  lemma DashSetsOk()
    ensures DashesOk(AsWrittenDashes) && DashesOk(IntendedDashes)
    ensures '\U{2013}' !in AsWrittenDashes && '\U{2013}' in IntendedDashes
  {
  }

  predicate NoLineTerminator(s: string) {
    forall i :: 0 <= i < |s| ==> !IsLineTerminator(s[i])
  }

  // ---------------------------------------------------------------------
  // Layouts and their printing

  /** `\d{1,2}/\d{1,2}/\d{2,4}` */
  datatype DateFields = DateFields(first: string, second: string, year: string)

  /** `\s*[APap][Mm]` */
  datatype Meridiem = Meridiem(gap: string, letters: string)

  /** `\d{1,2}:\d{2}(?::\d{2})?(?:\s*[APap][Mm])?` */
  datatype ClockFields = ClockFields(hour: string, minute: string, seconds: Option<string>, meridiem: Option<Meridiem>)

  /** The date, an optional comma, a run of spaces and the time. */
  datatype Stamp = Stamp(date: DateFields, comma: bool, gap: string, clock: ClockFields)

  /** `\s*([^:]+):\s*(.*)`: padding, sender, colon, padding, text. */
  datatype Tail = Tail(pad: string, sender: string, gap: string, text: string)

  datatype Layout =
    | Dashed(stamp: Stamp, before: string, dash: char, tail: Tail)
    | Bracketed(stamp: Stamp, tail: Tail)

  // Printing works continuation style: each piece is printed in front of
  // the text that follows it, so that a line is one right-nested
  // concatenation.

  function DateThen(d: DateFields, rest: string): string {
    d.first + ("/" + (d.second + ("/" + (d.year + rest))))
  }

  function SecondsThen(seconds: Option<string>, rest: string): string {
    if seconds.Some? then ":" + (seconds.value + rest) else rest
  }

  function MeridiemThen(m: Option<Meridiem>, rest: string): string {
    if m.Some? then m.value.gap + (m.value.letters + rest) else rest
  }

  function ClockThen(c: ClockFields, rest: string): string {
    c.hour + (":" + (c.minute + SecondsThen(c.seconds, MeridiemThen(c.meridiem, rest))))
  }

  function CommaThen(comma: bool, rest: string): string {
    if comma then "," + rest else rest
  }

  function StampThen(st: Stamp, rest: string): string {
    DateThen(st.date, CommaThen(st.comma, st.gap + ClockThen(st.clock, rest)))
  }

  function TailString(t: Tail): string {
    t.pad + (t.sender + (":" + (t.gap + t.text)))
  }

  /** The header line a layout describes. */
  function Assemble(l: Layout): string {
    match l
    case Dashed(st, before, dash, t) => StampThen(st, before + ([dash] + TailString(t)))
    case Bracketed(st, t) => "[" + StampThen(st, "]" + TailString(t))
  }

  predicate DateOk(d: DateFields) {
    IsNumeral(d.first, 1, 2) && IsNumeral(d.second, 1, 2) && IsNumeral(d.year, 2, 4)
  }

  predicate MeridiemOk(m: Meridiem) {
    IsBlank(m.gap) && |m.letters| == 2 && IsMeridiemLetter(m.letters[0]) && IsMLetter(m.letters[1])
  }

  predicate ClockOk(c: ClockFields) {
    IsNumeral(c.hour, 1, 2) && IsNumeral(c.minute, 2, 2)
    && (c.seconds.Some? ==> IsNumeral(c.seconds.value, 2, 2))
    && (c.meridiem.Some? ==> MeridiemOk(c.meridiem.value))
  }

  predicate StampOk(st: Stamp) {
    DateOk(st.date) && |st.gap| >= 1 && IsBlank(st.gap) && ClockOk(st.clock)
  }

  /** The sender is what `[^:]+` takes after the greedy `\s*`: it starts with
      a non-space unless the whole gap before the colon is spaces, in which
      case it is the last of them. */
  predicate TailOk(t: Tail) {
    IsBlank(t.pad) && |t.sender| >= 1 && ':' !in t.sender
    && (|t.sender| == 1 || !IsSpace(t.sender[0]))
    && IsBlank(t.gap) && NoLineTerminator(t.text)
    && (t.text == [] || !IsSpace(t.text[0]))
  }

  /** The layouts some dash class can recognise. */
  predicate Wellformed(l: Layout) {
    StampOk(l.stamp) && TailOk(l.tail)
    && (l.Dashed? ==> IsBlank(l.before) && DashChar(l.dash))
  }

  /** The layouts the dash class `dashes` admits. */
  predicate Admits(l: Layout, dashes: set<char>) {
    l.Dashed? ==> l.dash in dashes
  }

  // ---------------------------------------------------------------------
  // Scanners.  Each one states, in its contract, that what it took off the
  // front of its input prints back to that input.

  lemma SplitAt(s: string, i: nat)
    requires i <= |s|
    ensures s == s[..i] + s[i..]
  {
  }

  lemma SplitFirst(s: string, i: nat)
    requires i < |s|
    ensures s[i..] == [s[i]] + s[i + 1..]
  {
  }

  /** Length of the run of ASCII digits that starts `s`. */
  function DigitRun(s: string): (n: nat)
    ensures n <= |s|
    ensures forall i :: 0 <= i < n ==> IsDigit(s[i])
    ensures n == |s| || !IsDigit(s[n])
  {
    if |s| > 0 && IsDigit(s[0]) then 1 + DigitRun(s[1..]) else 0
  }

  predicate DigitFirst(s: string) {
    s != [] && IsDigit(s[0])
  }

  /** `\d{lo,hi}` where the next pattern item cannot match a digit. */
  function ScanNumber(s: string, lo: nat, hi: nat): (r: Option<(string, string)>)
    ensures r.Some? ==> IsNumeral(r.value.0, lo, hi) && s == r.value.0 + r.value.1 && !DigitFirst(r.value.1)
    ensures r.None? ==> !(lo <= DigitRun(s) <= hi)
  {
    var n := DigitRun(s);
    SplitAt(s, n);
    if lo <= n <= hi then Some((s[..n], s[n..])) else None
  }

  /** `/` and then `\d{lo,hi}`. */
  function ScanSlashNumber(s: string, lo: nat, hi: nat): (r: Option<(string, string)>)
    ensures r.Some? ==> IsNumeral(r.value.0, lo, hi) && s == "/" + (r.value.0 + r.value.1) && !DigitFirst(r.value.1)
  {
    if s == [] || s[0] != '/' then None
    else
      SplitFirst(s, 0);
      ScanNumber(s[1..], lo, hi)
  }

  function ScanDate(s: string): (r: Option<(DateFields, string)>)
    ensures r.Some? ==> DateOk(r.value.0) && s == DateThen(r.value.0, r.value.1) && !DigitFirst(r.value.1)
  {
    match ScanNumber(s, 1, 2)
    case None => None
    case Some((a, s1)) =>
      match ScanSlashNumber(s1, 1, 2)
      case None => None
      case Some((b, s2)) =>
        match ScanSlashNumber(s2, 2, 4)
        case None => None
        case Some((y, s3)) => Some((DateFields(a, b, y), s3))
  }

  /** `:\d{2}` */
  function ScanColonPair(s: string): (r: Option<(string, string)>)
    ensures r.Some? ==> IsNumeral(r.value.0, 2, 2) && s == ":" + (r.value.0 + r.value.1)
  {
    if |s| >= 3 && s[0] == ':' && IsDigit(s[1]) && IsDigit(s[2]) then
      SplitFirst(s, 0);
      SplitAt(s[1..], 2);
      assert s[1..][..2] == s[1..3] && s[1..][2..] == s[3..];
      Some((s[1..3], s[3..]))
    else None
  }

  /** `(?::\d{2})?` */
  function ScanSeconds(s: string): (r: (Option<string>, string))
    ensures r.0.Some? ==> IsNumeral(r.0.value, 2, 2)
    ensures r.0.None? ==> r.1 == s && ScanColonPair(s).None?
    ensures s == SecondsThen(r.0, r.1)
  {
    match ScanColonPair(s)
    case Some((x, rest)) => (Some(x), rest)
    case None => (None, s)
  }

  /** `\s*[APap][Mm]` matches at the start of `s`. */
  predicate MeridiemAhead(s: string) {
    var k := LeadingSpaces(s);
    k + 2 <= |s| && IsMeridiemLetter(s[k]) && IsMLetter(s[k + 1])
  }

  /** `(?:\s*[APap][Mm])?` */
  function ScanMeridiem(s: string): (r: (Option<Meridiem>, string))
    ensures r.0.Some? ==> MeridiemOk(r.0.value)
    ensures r.0.None? ==> r.1 == s && !MeridiemAhead(s)
    ensures s == MeridiemThen(r.0, r.1)
  {
    var k := LeadingSpaces(s);
    if MeridiemAhead(s) then
      SplitAt(s, k);
      SplitAt(s[k..], 2);
      assert s[k..][..2] == s[k..k + 2] && s[k..][2..] == s[k + 2..];
      (Some(Meridiem(s[..k], s[k..k + 2])), s[k + 2..])
    else (None, s)
  }

  /** The optional groups of the time end where the clock does: what follows
      could not have extended them. */
  predicate ClockEnds(c: ClockFields, rest: string) {
    (c.meridiem.None? ==> !MeridiemAhead(rest))
    && (c.meridiem.None? && c.seconds.None? ==> ScanColonPair(rest).None?)
  }

  function ScanClock(s: string): (r: Option<(ClockFields, string)>)
    ensures r.Some? ==> ClockOk(r.value.0) && s == ClockThen(r.value.0, r.value.1) && ClockEnds(r.value.0, r.value.1)
  {
    match ScanNumber(s, 1, 2)
    case None => None
    case Some((h, s1)) =>
      match ScanColonPair(s1)
      case None => None
      case Some((m, s2)) =>
        var (seconds, s3) := ScanSeconds(s2);
        var (meridiem, rest) := ScanMeridiem(s3);
        Some((ClockFields(h, m, seconds, meridiem), rest))
  }

  /** `,?` */
  function ScanComma(s: string): (r: (bool, string))
    ensures s == CommaThen(r.0, r.1)
    ensures !r.0 ==> r.1 == s && (s == [] || s[0] != ',')
  {
    if s != [] && s[0] == ',' then
      SplitFirst(s, 0);
      (true, s[1..])
    else (false, s)
  }

  function ScanStamp(s: string): (r: Option<(Stamp, string)>)
    ensures r.Some? ==> StampOk(r.value.0) && s == StampThen(r.value.0, r.value.1) && ClockEnds(r.value.0.clock, r.value.1)
  {
    match ScanDate(s)
    case None => None
    case Some((d, s1)) =>
      var (comma, s2) := ScanComma(s1);
      var g := LeadingSpaces(s2);
      if g == 0 then None
      else
        match ScanClock(s2[g..])
        case None => None
        case Some((c, rest)) =>
          LeadingBlank(s2);
          StampPieces(s, d, comma, s2, g, c, rest);
          Some((Stamp(d, comma, s2[..g], c), rest))
  }

  /** Where `[^:]+` starts in the text before the colon: after the run of
      spaces that `\s*` takes, or at the last character when that run is
      all there is. */
  function SenderStart(head: string): (p: nat)
    requires head != []
    ensures p < |head| && IsBlank(head[..p]) && (p == |head| - 1 || !IsSpace(head[p]))
  {
    var w := LeadingSpaces(head);
    if w == |head| then |head| - 1 else w
  }

  lemma LeadingBlank(s: string)
    ensures IsBlank(s[..LeadingSpaces(s)])
  {
  }

  lemma StampPieces(s: string, d: DateFields, comma: bool, s2: string, g: nat, c: ClockFields, rest: string)
    requires DateOk(d) && s == DateThen(d, CommaThen(comma, s2))
    requires 0 < g <= |s2| && IsBlank(s2[..g]) && s2[g..] == ClockThen(c, rest)
    requires ClockOk(c)
    ensures StampOk(Stamp(d, comma, s2[..g], c)) && s == StampThen(Stamp(d, comma, s2[..g], c), rest)
  {
    SplitAt(s2, g);
  }

  /** `\s*([^:]+):\s*(.*)$` on the rest of the line. */
  function ScanTail(s: string): (r: Option<Tail>)
    ensures r.Some? ==> TailOk(r.value) && s == TailString(r.value)
  {
    match IndexOfChar(s, ':')
    case None => None
    case Some(c) =>
      if c == 0 then None
      else
        var p := SenderStart(s[..c]);
        var after := s[c + 1..];
        var g := LeadingSpaces(after);
        if NoLineTerminator(after[g..]) then
          TailPieces(s, c, p, g);
          Some(Tail(s[..p], s[p..c], after[..g], after[g..]))
        else None
  }

  lemma TailPieces(s: string, c: nat, p: nat, g: nat)
    requires c < |s| && s[c] == ':' && ':' !in s[..c]
    requires p < c && IsBlank(s[..c][..p]) && (p == c - 1 || !IsSpace(s[..c][p]))
    requires g <= |s[c + 1..]| && IsBlank(s[c + 1..][..g]) && NoLineTerminator(s[c + 1..][g..])
    requires g == |s[c + 1..]| || !IsSpace(s[c + 1..][g])
    ensures var after := s[c + 1..];
      var t := Tail(s[..p], s[p..c], after[..g], after[g..]);
      TailOk(t) && s == TailString(t)
  {
    var after := s[c + 1..];
    assert s[..c][..p] == s[..p];
    assert ':' !in s[p..c] by {
      forall i | 0 <= i < c - p ensures s[p..c][i] != ':' {
        assert s[p..c][i] == s[..c][p + i];
      }
    }
    assert s == s[..p] + (s[p..c] + ([s[c]] + (after[..g] + after[g..])));
  }

  /** The first pattern: the dash form. */
  function MatchDashed(line: string, dashes: set<char>): (r: Option<Layout>)
    requires DashesOk(dashes)
    ensures r.Some? ==> r.value.Dashed? && Wellformed(r.value) && Admits(r.value, dashes) && Assemble(r.value) == line
  {
    match ScanStamp(line)
    case None => None
    case Some((st, rest)) =>
      var k := LeadingSpaces(rest);
      if k < |rest| && rest[k] in dashes then
        match ScanTail(rest[k + 1..])
        case None => None
        case Some(t) =>
          LeadingBlank(rest);
          DashedPieces(line, st, rest, k, t);
          Some(Dashed(st, rest[..k], rest[k], t))
      else None
  }

  lemma DashedPieces(line: string, st: Stamp, rest: string, k: nat, t: Tail)
    requires line == StampThen(st, rest) && StampOk(st) && TailOk(t)
    requires k < |rest| && IsBlank(rest[..k]) && DashChar(rest[k]) && rest[k + 1..] == TailString(t)
    ensures Wellformed(Dashed(st, rest[..k], rest[k], t))
    ensures Assemble(Dashed(st, rest[..k], rest[k], t)) == line
  {
    SplitAt(rest, k);
    SplitFirst(rest, k);
  }

  /** The second pattern: the bracket form. */
  function MatchBracketed(line: string): (r: Option<Layout>)
    ensures r.Some? ==> r.value.Bracketed? && Wellformed(r.value) && Assemble(r.value) == line
  {
    if line == [] || line[0] != '[' then None
    else
      match ScanStamp(line[1..])
      case None => None
      case Some((st, rest)) =>
        if rest == [] || rest[0] != ']' then None
        else
          match ScanTail(rest[1..])
          case None => None
          case Some(t) =>
            SplitFirst(line, 0);
            SplitFirst(rest, 0);
            Some(Bracketed(st, t))
  }

  /** The patterns are tried in order and the first that matches is used.
      Whatever is recognised is a well-formed layout the dash class admits,
      and printing it gives the line back. */
  function Recognise(line: string, dashes: set<char>): (r: Option<Layout>)
    requires DashesOk(dashes)
    ensures r.Some? ==> Wellformed(r.value) && Admits(r.value, dashes) && Assemble(r.value) == line
  {
    var m := MatchDashed(line, dashes);
    if m.Some? then m else MatchBracketed(line)
  }

  // ---------------------------------------------------------------------
  // The scanners read back what `Assemble` prints, so `Recognise` is
  // exactly the inverse of `Assemble`.

  lemma {:induction false} DigitRunOf(d: string, r: string)
    requires AllDigits(d) && !DigitFirst(r)
    ensures DigitRun(d + r) == |d|
  {
    if d != [] {
      assert (d + r)[1..] == d[1..] + r;
      DigitRunOf(d[1..], r);
    }
  }

  lemma {:induction false} SpacesOf(w: string, r: string)
    requires IsBlank(w) && (r == [] || !IsSpace(r[0]))
    ensures LeadingSpaces(w + r) == |w|
  {
    if w != [] {
      assert (w + r)[1..] == w[1..] + r;
      SpacesOf(w[1..], r);
    }
  }

  lemma ScanNumberOf(d: string, r: string, lo: nat, hi: nat)
    requires IsNumeral(d, lo, hi) && !DigitFirst(r)
    ensures ScanNumber(d + r, lo, hi) == Some((d, r))
  {
    DigitRunOf(d, r);
    assert (d + r)[..|d|] == d;
  }

  lemma ScanSlashNumberOf(d: string, r: string, lo: nat, hi: nat)
    requires IsNumeral(d, lo, hi) && !DigitFirst(r)
    ensures ScanSlashNumber("/" + (d + r), lo, hi) == Some((d, r))
  {
    assert ("/" + (d + r))[1..] == d + r;
    ScanNumberOf(d, r, lo, hi);
  }

  lemma ScanDateOf(d: DateFields, r: string)
    requires DateOk(d) && !DigitFirst(r)
    ensures ScanDate(DateThen(d, r)) == Some((d, r))
  {
    var s2 := "/" + (d.year + r);
    var s1 := "/" + (d.second + s2);
    ScanNumberOf(d.first, s1, 1, 2);
    ScanSlashNumberOf(d.second, s2, 1, 2);
    ScanSlashNumberOf(d.year, r, 2, 4);
  }

  lemma ScanColonPairOf(x: string, r: string)
    requires IsNumeral(x, 2, 2)
    ensures ScanColonPair(":" + (x + r)) == Some((x, r))
  {
    var s := ":" + (x + r);
    assert s[1..3] == x && s[3..] == r;
  }

  lemma ScanSecondsOf(seconds: Option<string>, r: string)
    requires seconds.Some? ==> IsNumeral(seconds.value, 2, 2)
    requires seconds.None? ==> ScanColonPair(r).None?
    ensures ScanSeconds(SecondsThen(seconds, r)) == (seconds, r)
  {
    if seconds.Some? {
      ScanColonPairOf(seconds.value, r);
    }
  }

  lemma ScanMeridiemOf(m: Option<Meridiem>, r: string)
    requires m.Some? ==> MeridiemOk(m.value)
    requires m.None? ==> !MeridiemAhead(r)
    ensures ScanMeridiem(MeridiemThen(m, r)) == (m, r)
  {
    if m.Some? {
      var gap, letters := m.value.gap, m.value.letters;
      var s, k := gap + (letters + r), |gap|;
      assert (letters + r)[0] == letters[0];
      SpacesOf(gap, letters + r);
      assert s[k] == letters[0] && s[k + 1] == letters[1];
      assert MeridiemAhead(s);
      assert s[..k] == gap && s[k..k + 2] == letters && s[k + 2..] == r;
    }
  }

  lemma ClockOf(c: ClockFields, r: string)
    requires ClockOk(c) && ClockEnds(c, r)
    ensures ScanClock(ClockThen(c, r)) == Some((c, r))
  {
    var s3 := MeridiemThen(c.meridiem, r);
    var s2 := SecondsThen(c.seconds, s3);
    var s1 := ":" + (c.minute + s2);
    ScanNumberOf(c.hour, s1, 1, 2);
    ScanColonPairOf(c.minute, s2);
    if c.seconds.None? && c.meridiem.Some? {
      var m := c.meridiem.value;
      if m.gap != [] {
        assert s3[0] == m.gap[0];
      } else {
        assert s3[0] == m.letters[0];
      }
    }
    ScanSecondsOf(c.seconds, s3);
    ScanMeridiemOf(c.meridiem, r);
  }

  lemma ScanStampOf(st: Stamp, r: string)
    requires StampOk(st) && ClockEnds(st.clock, r)
    ensures ScanStamp(StampThen(st, r)) == Some((st, r))
  {
    var c := ClockThen(st.clock, r);
    var s2 := st.gap + c;
    var s1 := CommaThen(st.comma, s2);
    assert s1[0] == ',' || s1[0] == st.gap[0];
    ScanDateOf(st.date, s1);
    assert c[0] == st.clock.hour[0];
    SpacesOf(st.gap, c);
    assert s2[..|st.gap|] == st.gap && s2[|st.gap|..] == c;
    ClockOf(st.clock, r);
  }

  /** The pieces of a printed tail, as `ScanTail` slices them. */
  lemma TailSlices(t: Tail)
    ensures var s, c := TailString(t), |t.pad| + |t.sender|;
      c < |s| && s[c] == ':' && s[..c] == t.pad + t.sender && s[c + 1..] == t.gap + t.text
      && s[..|t.pad|] == t.pad && s[|t.pad|..c] == t.sender
  {
  }

  lemma ColonAt(t: Tail)
    requires TailOk(t)
    ensures IndexOfChar(TailString(t), ':') == Some(|t.pad| + |t.sender|)
  {
    var head := t.pad + t.sender;
    assert ':' !in head by {
      forall i | 0 <= i < |head| ensures head[i] != ':' {
        if i >= |t.pad| {
          assert head[i] == t.sender[i - |t.pad|];
        }
      }
    }
    assert TailString(t) == head + [':'] + (t.gap + t.text);
    IndexOfCharAfter(head, ':', t.gap + t.text);
  }

  /** The greedy `\s*` before the sender stops where the sender starts. */
  lemma SenderStartOf(t: Tail)
    requires TailOk(t)
    ensures SenderStart(t.pad + t.sender) == |t.pad|
  {
    if IsSpace(t.sender[0]) {
      SpacesOf(t.pad + t.sender, []);
      assert t.pad + t.sender + [] == t.pad + t.sender;
    } else {
      SpacesOf(t.pad, t.sender);
    }
  }

  lemma ScanTailAt(s: string, c: nat, t: Tail)
    requires IndexOfChar(s, ':') == Some(c) && c > 0 && SenderStart(s[..c]) == |t.pad|
    requires s[..|t.pad|] == t.pad && s[|t.pad|..c] == t.sender
    requires s[c + 1..] == t.gap + t.text && LeadingSpaces(t.gap + t.text) == |t.gap|
    requires NoLineTerminator(t.text)
    ensures ScanTail(s) == Some(t)
  {
    ConcatSlices(t.gap, t.text);
  }

  lemma ConcatSlices(x: string, y: string)
    ensures (x + y)[..|x|] == x && (x + y)[|x|..] == y
  {
  }

  lemma ScanTailOf(t: Tail)
    requires TailOk(t)
    ensures ScanTail(TailString(t)) == Some(t)
  {
    var s, c := TailString(t), |t.pad| + |t.sender|;
    assert IndexOfChar(s, ':') == Some(c) by { ColonAt(t); }
    assert s[..c] == t.pad + t.sender && s[c + 1..] == t.gap + t.text
      && s[..|t.pad|] == t.pad && s[|t.pad|..c] == t.sender by { TailSlices(t); }
    assert SenderStart(s[..c]) == |t.pad| by { SenderStartOf(t); }
    assert LeadingSpaces(t.gap + t.text) == |t.gap| by { SpacesOf(t.gap, t.text); }
    ScanTailAt(s, c, t);
  }

  lemma DashedEnds(st: Stamp, before: string, dash: char, tail: string)
    requires IsBlank(before) && DashChar(dash)
    ensures ClockEnds(st.clock, before + ([dash] + tail))
  {
    var r := before + ([dash] + tail);
    SpacesOf(before, [dash] + tail);
    assert r[|before|] == dash;
    if |before| > 0 {
      assert r[0] == before[0];
    }
  }

  lemma MatchDashedOf(l: Layout, dashes: set<char>)
    requires DashesOk(dashes) && l.Dashed? && Wellformed(l)
    ensures MatchDashed(Assemble(l), dashes) == if l.dash in dashes then Some(l) else None
  {
    var tail := TailString(l.tail);
    var rest := l.before + ([l.dash] + tail);
    assert Assemble(l) == StampThen(l.stamp, rest);
    DashedEnds(l.stamp, l.before, l.dash, tail);
    ScanStampOf(l.stamp, rest);
    DashAfterSpaces(l.before, l.dash, tail);
    ScanTailOf(l.tail);
  }

  lemma DashAfterSpaces(before: string, dash: char, tail: string)
    requires IsBlank(before) && !IsSpace(dash)
    ensures var rest := before + ([dash] + tail);
      LeadingSpaces(rest) == |before| && rest[|before|] == dash
      && rest[..|before|] == before && rest[|before| + 1..] == tail
  {
    SpacesOf(before, [dash] + tail);
  }

  lemma MatchBracketedOf(l: Layout)
    requires l.Bracketed? && Wellformed(l)
    ensures MatchBracketed(Assemble(l)) == Some(l)
  {
    var rest := "]" + TailString(l.tail);
    assert Assemble(l)[1..] == StampThen(l.stamp, rest);
    ClockEndsBracket(l.stamp.clock, TailString(l.tail));
    ScanStampOf(l.stamp, rest);
    assert rest[1..] == TailString(l.tail);
    ScanTailOf(l.tail);
  }

  lemma ClockEndsBracket(c: ClockFields, tail: string)
    ensures ClockEnds(c, "]" + tail)
  {
    assert LeadingSpaces("]" + tail) == 0;
  }

  /** A line that starts with a digit is not in the bracket form, and one
      that starts with `[` is not in the dash form. */
  lemma FormsDisjoint(line: string, dashes: set<char>)
    requires DashesOk(dashes) && line != []
    ensures IsDigit(line[0]) ==> MatchBracketed(line).None?
    ensures line[0] == '[' ==> MatchDashed(line, dashes).None?
  {
    if line[0] == '[' {
      assert DigitRun(line) == 0;
    }
  }

  /** Every well-formed layout is recognised, as itself, exactly when the
      dash class admits it. */
  lemma RecogniseComplete(l: Layout, dashes: set<char>)
    requires DashesOk(dashes) && Wellformed(l)
    ensures Recognise(Assemble(l), dashes) == if Admits(l, dashes) then Some(l) else None
  {
    var line := Assemble(l);
    if l.Dashed? {
      MatchDashedOf(l, dashes);
      assert line[0] == l.stamp.date.first[0];
      FormsDisjoint(line, dashes);
    } else {
      FormsDisjoint(line, dashes);
      MatchBracketedOf(l);
    }
  }

  /** Two well-formed layouts that print the same line are the same. */
  lemma AssembleInjective(l1: Layout, l2: Layout)
    requires Wellformed(l1) && Wellformed(l2) && Assemble(l1) == Assemble(l2)
    ensures l1 == l2
  {
    var dashes := (if l1.Dashed? then {l1.dash} else {}) + (if l2.Dashed? then {l2.dash} else {});
    RecogniseComplete(l1, dashes);
    RecogniseComplete(l2, dashes);
  }

  // ---------------------------------------------------------------------
  // The four capture groups

  /** `match[1]` to `match[4]`: date, time, sender and text, untrimmed. */
  datatype Captures = Captures(date: string, time: string, sender: string, text: string)

  /** The date as the first group captures it. */
  function DateString(d: DateFields): string {
    d.first + "/" + d.second + "/" + d.year
  }

  /** The time as the second group captures it. */
  function ClockString(c: ClockFields): string {
    if c.meridiem.Some? then CoreString(c) + c.meridiem.value.gap + c.meridiem.value.letters else CoreString(c)
  }

  function CapturesOf(l: Layout): Captures {
    Captures(DateString(l.stamp.date), ClockString(l.stamp.clock), l.tail.sender, l.tail.text)
  }

  lemma {:induction false} TrimEndOf(x: string, w: string)
    requires IsBlank(w) && (x == [] || !IsSpace(x[|x| - 1]))
    ensures TrimEnd(x + w) == x
  {
    if w != [] {
      var u := w[..|w| - 1];
      assert (x + w)[..|x + w| - 1] == x + u;
      TrimEndOf(x, u);
    } else {
      assert x + w == x;
    }
  }

  /** The time without its meridiem: `H:MM` or `H:MM:SS`. */
  function CoreString(c: ClockFields): string {
    if c.seconds.Some? then c.hour + ":" + c.minute + ":" + c.seconds.value else c.hour + ":" + c.minute
  }

  lemma DateStringShape(d: DateFields)
    requires DateOk(d)
    ensures DateShape(DateString(d))
  {
    DigitsHaveNo(d.first, '/');
    DigitsHaveNo(d.second, '/');
    DigitsHaveNo(d.year, '/');
    SplitThree(d.first, d.second, d.year, '/');
  }

  lemma StripClock(c: ClockFields)
    requires ClockOk(c)
    ensures StripMeridiem(ClockString(c)) == CoreString(c)
  {
    var core := CoreString(c);
    var t := ClockString(c);
    if c.meridiem.Some? {
      var m := c.meridiem.value;
      assert t == core + m.gap + m.letters;
      assert HasMeridiem(t);
      assert t[..|t| - 2] == core + m.gap;
      TrimEndOf(core, m.gap);
    } else {
      assert t == core;
      assert !HasMeridiem(t);
    }
  }

  lemma ClockStringShape(c: ClockFields)
    requires ClockOk(c)
    ensures TimeShape(ClockString(c))
  {
    StripClock(c);
    DigitsHaveNo(c.hour, ':');
    DigitsHaveNo(c.minute, ':');
    if c.seconds.Some? {
      DigitsHaveNo(c.seconds.value, ':');
      SplitThree(c.hour, c.minute, c.seconds.value, ':');
    } else {
      SplitTwo(c.hour, c.minute, ':');
    }
  }

  /** `line.match(pattern)` over the two patterns, in order. */
  function MatchHeader(line: string, dashes: set<char>): (r: Option<Captures>)
    requires DashesOk(dashes)
    ensures r.Some? ==> DateShape(r.value.date) && TimeShape(r.value.time)
    ensures r.Some? ==> |r.value.sender| >= 1 && ':' !in r.value.sender && NoLineTerminator(r.value.text)
    ensures r.Some? <==> Recognise(line, dashes).Some?
  {
    match Recognise(line, dashes)
    case None => None
    case Some(l) =>
      DateStringShape(l.stamp.date);
      ClockStringShape(l.stamp.clock);
      Some(CapturesOf(l))
  }

  // ---------------------------------------------------------------------
  // The dash class as written

  /** `1/2/20, 9:05 – Ann: hi`, with an en dash. */
  const EnDashLine: Layout :=
    Dashed(Stamp(DateFields("1", "2", "20"), true, " ", ClockFields("9", "05", None, None)),
           " ", '\U{2013}', Tail(" ", "Ann", " ", "hi"))

  /** With the class as written, no header whose dash is an en dash is
      recognised: the line falls through as a continuation of the message
      before it. */
  lemma EnDashRejectedAsWritten(l: Layout)
    requires Wellformed(l) && l.Dashed? && l.dash == '\U{2013}'
    ensures Recognise(Assemble(l), AsWrittenDashes).None?
  {
    DashSetsOk();
    RecogniseComplete(l, AsWrittenDashes);
  }

  /** With the intended class, every such header is recognised. */
  lemma EnDashAcceptedIntended(l: Layout)
    requires Wellformed(l) && l.Dashed? && l.dash == '\U{2013}'
    ensures Recognise(Assemble(l), IntendedDashes) == Some(l)
  {
    DashSetsOk();
    RecogniseComplete(l, IntendedDashes);
  }

  lemma EnDashLineText()
    ensures Assemble(EnDashLine) == "1/2/20, 9:05 \U{2013} Ann: hi"
  {
  }

  lemma EnDashLineWellformed()
    ensures Wellformed(EnDashLine)
  {
    assert IsBlank(" ");
  }

  /** `1/2/20, 9:05 – Ann: hi`: rejected as written, recognised with the
      intended class. */
  lemma EnDashExample()
    ensures Recognise("1/2/20, 9:05 \U{2013} Ann: hi", AsWrittenDashes).None?
    ensures Recognise("1/2/20, 9:05 \U{2013} Ann: hi", IntendedDashes) == Some(EnDashLine)
  {
    EnDashLineText();
    EnDashLineWellformed();
    EnDashRejectedAsWritten(EnDashLine);
    EnDashAcceptedIntended(EnDashLine);
  }
}
