/**
  * `parseWhatsAppChat` (app.js:41-89): the exported transcript is split at
  * `\n`; a line that matches one of the two header forms opens a message,
  * any other non-blank line is appended to the open message (or dropped
  * when none is open), blank lines are skipped, and the messages are
  * finally sorted by timestamp.
  */
module Transcript {
  import opened Text
  import opened Timestamp
  import opened Header
  import opened Media

  /** The message record built at app.js:65-72 and later given its media. */
  datatype Message = Message(date: string, time: string, sender: string, text: string,
                             timestamp: int, media: Option<MediaFile>)

  /** The messages pushed so far and `currentMessage`. */
  datatype ParseState = ParseState(done: seq<Message>, current: Option<Message>)

  const Initial := ParseState([], None)

  /** A message opened by a header line; `epoch` stands for the conversion of
      a local civil time to milliseconds that `new Date(...).getTime()` does. */
  function Open(c: Captures, epoch: Civil -> int): (m: Message)
    requires DateShape(c.date) && TimeShape(c.time)
    ensures m.date == c.date && m.time == c.time && m.media.None?
    ensures m.sender == Trim(c.sender) && m.text == Trim(c.text)
    ensures m.timestamp == epoch(ParseTimestamp(c.date, c.time))
  {
    Message(c.date, c.time, Trim(c.sender), Trim(c.text), epoch(ParseTimestamp(c.date, c.time)), None)
  }

  /** A continuation line is appended, untrimmed, after a line feed. */
  function Continue(m: Message, line: string): (r: Message)
    ensures r.(text := "") == m.(text := "") && r.text == m.text + "\n" + line
  {
    m.(text := m.text + "\n" + line)
  }

  /** The messages of a state, the open one last. */
  function Flush(st: ParseState): seq<Message> {
    if st.current.Some? then st.done + [st.current.value] else st.done
  }

  /** What a line is to the loop: blank (skipped), a header (opens a
      message) or plain text (continues the open message). */
  datatype Line = Blank | Opens(message: Message) | Plain(text: string)

  /** The test of app.js:54 and the two patterns tried in turn (app.js:60-76). */
  function Classify(line: string, dashes: set<char>, epoch: Civil -> int): (k: Line)
    requires DashesOk(dashes)
    ensures k.Blank? <==> IsBlank(line)
    ensures k.Opens? <==> !IsBlank(line) && MatchHeader(line, dashes).Some?
    ensures k.Opens? ==> k.message == Open(MatchHeader(line, dashes).value, epoch)
    ensures k.Plain? ==> k.text == line
  {
    TrimEmptyIffBlank(line);
    if Trim(line) == [] then Blank
    else
      match MatchHeader(line, dashes)
      case Some(c) => Opens(Open(c, epoch))
      case None => Plain(line)
  }

  function Classified(lines: seq<string>, dashes: set<char>, epoch: Civil -> int): (ks: seq<Line>)
    requires DashesOk(dashes)
    ensures |ks| == |lines|
  {
    if lines == [] then [] else [Classify(lines[0], dashes, epoch)] + Classified(lines[1..], dashes, epoch)
  }

  /** One turn of the loop of app.js:53-82. */
  function Step(st: ParseState, k: Line): ParseState {
    match k
    case Blank => st
    case Opens(m) => ParseState(Flush(st), Some(m))
    case Plain(line) =>
      if st.current.Some? then ParseState(st.done, Some(Continue(st.current.value, line))) else st
  }

  function Run(st: ParseState, ks: seq<Line>): ParseState
    decreases ks
  {
    if ks == [] then st else Run(Step(st, ks[0]), ks[1..])
  }

  /** The messages of a transcript's lines in the order they appear. */
  function Collect(lines: seq<string>, dashes: set<char>, epoch: Civil -> int): seq<Message>
    requires DashesOk(dashes)
  {
    Flush(Run(Initial, Classified(lines, dashes, epoch)))
  }

  /** `parseWhatsAppChat`: `dashes` is the class of characters the first
      header form accepts between the time and the sender. */
  method ParseChat(text: string, dashes: set<char>, epoch: Civil -> int) returns (messages: seq<Message>)
    requires DashesOk(dashes)
    ensures messages == SortByTimestamp(Collect(Split(text, '\n'), dashes, epoch))
    ensures Sorted(messages) && multiset(messages) == multiset(Collect(Split(text, '\n'), dashes, epoch))
  {
    var lines := Split(text, '\n');
    var done: seq<Message> := [];
    var current: Option<Message> := None;
    var i := 0;
    while i < |lines|
      invariant 0 <= i <= |lines|
      invariant Run(ParseState(done, current), Classified(lines[i..], dashes, epoch))
             == Run(Initial, Classified(lines, dashes, epoch))
    {
      var line := lines[i];
      assert lines[i..][0] == line && lines[i..][1..] == lines[i + 1..];
      if Trim(line) != [] {
        var matched := false;
        var m := MatchHeader(line, dashes);
        if m.Some? {
          if current.Some? {
            done := done + [current.value];
          }
          current := Some(Open(m.value, epoch));
          matched := true;
        }
        if !matched && current.Some? {
          current := Some(current.value.(text := current.value.text + "\n" + line));
        }
      }
      i := i + 1;
    }
    assert lines[i..] == [];
    if current.Some? {
      done := done + [current.value];
    }
    messages := SortByTimestamp(done);
  }

  // ---------------------------------------------------------------------
  // How the lines determine the messages

  lemma {:induction false} RunAppend(st: ParseState, a: seq<Line>, b: seq<Line>)
    ensures Run(st, a + b) == Run(Run(st, a), b)
    decreases a
  {
    if a == [] {
      assert a + b == b;
    } else {
      assert (a + b)[0] == a[0] && (a + b)[1..] == a[1..] + b;
      RunAppend(Step(st, a[0]), a[1..], b);
    }
  }

  lemma {:induction false} ClassifiedAppend(a: seq<string>, b: seq<string>, dashes: set<char>, epoch: Civil -> int)
    requires DashesOk(dashes)
    ensures Classified(a + b, dashes, epoch) == Classified(a, dashes, epoch) + Classified(b, dashes, epoch)
  {
    if a == [] {
      assert a + b == b;
    } else {
      assert (a + b)[0] == a[0] && (a + b)[1..] == a[1..] + b;
      ClassifiedAppend(a[1..], b, dashes, epoch);
    }
  }

  /** A blank line, wherever it stands, changes nothing. */
  lemma BlankLineIgnored(a: seq<string>, line: string, b: seq<string>, dashes: set<char>, epoch: Civil -> int)
    requires DashesOk(dashes) && IsBlank(line)
    ensures Collect(a + [line] + b, dashes, epoch) == Collect(a + b, dashes, epoch)
  {
    var ka := Classified(a, dashes, epoch);
    var kb := Classified(b, dashes, epoch);
    ClassifiedAppend(a + [line], b, dashes, epoch);
    ClassifiedAppend(a, [line], dashes, epoch);
    ClassifiedAppend(a, b, dashes, epoch);
    assert Classified([line], dashes, epoch) == [Blank];
    RunAppend(Initial, ka + [Blank], kb);
    RunAppend(Initial, ka, [Blank]);
    RunAppend(Initial, ka, kb);
  }

  /** A line that is blank or matches neither header form. */
  predicate NotHeader(line: string, dashes: set<char>)
    requires DashesOk(dashes)
  {
    IsBlank(line) || MatchHeader(line, dashes).None?
  }

  lemma {:induction false} StaysInitial(pre: seq<string>, dashes: set<char>, epoch: Civil -> int)
    requires DashesOk(dashes)
    requires forall i :: 0 <= i < |pre| ==> NotHeader(pre[i], dashes)
    ensures Run(Initial, Classified(pre, dashes, epoch)) == Initial
  {
    if pre != [] {
      var k := Classify(pre[0], dashes, epoch);
      var rest := Classified(pre[1..], dashes, epoch);
      assert NotHeader(pre[0], dashes);
      assert Step(Initial, k) == Initial;
      assert ([k] + rest)[1..] == rest;
      StaysInitial(pre[1..], dashes, epoch);
    }
  }

  /** Lines before the first header belong to no message and are dropped. */
  lemma LeadingLinesDropped(pre: seq<string>, rest: seq<string>, dashes: set<char>, epoch: Civil -> int)
    requires DashesOk(dashes)
    requires forall i :: 0 <= i < |pre| ==> NotHeader(pre[i], dashes)
    ensures Collect(pre + rest, dashes, epoch) == Collect(rest, dashes, epoch)
  {
    var kp := Classified(pre, dashes, epoch);
    ClassifiedAppend(pre, rest, dashes, epoch);
    RunAppend(Initial, kp, Classified(rest, dashes, epoch));
    StaysInitial(pre, dashes, epoch);
  }

  /** `text` with the continuation lines added: each non-blank one after a
      line feed. */
  function Appended(text: string, cs: seq<string>): string
    decreases cs
  {
    if cs == [] then text
    else Appended(if IsBlank(cs[0]) then text else text + "\n" + cs[0], cs[1..])
  }

  lemma {:induction false} RunContinuations(done: seq<Message>, m: Message, cs: seq<string>, dashes: set<char>, epoch: Civil -> int)
    requires DashesOk(dashes)
    requires forall i :: 0 <= i < |cs| ==> NotHeader(cs[i], dashes)
    ensures Run(ParseState(done, Some(m)), Classified(cs, dashes, epoch))
         == ParseState(done, Some(m.(text := Appended(m.text, cs))))
    decreases cs
  {
    if cs != [] {
      var k := Classify(cs[0], dashes, epoch);
      var rest := Classified(cs[1..], dashes, epoch);
      assert ([k] + rest)[0] == k && ([k] + rest)[1..] == rest;
      assert NotHeader(cs[0], dashes);
      var m' := if IsBlank(cs[0]) then m else Continue(m, cs[0]);
      StepNotHeader(done, m, cs[0], dashes, epoch);
      RunContinuations(done, m', cs[1..], dashes, epoch);
    }
  }

  lemma StepNotHeader(done: seq<Message>, m: Message, line: string, dashes: set<char>, epoch: Civil -> int)
    requires DashesOk(dashes) && NotHeader(line, dashes)
    ensures Step(ParseState(done, Some(m)), Classify(line, dashes, epoch))
         == ParseState(done, Some(if IsBlank(line) then m else Continue(m, line)))
  {
  }

  /** A header line and the lines up to the next header make one message:
      the header's fields, its text followed by every non-blank line after it. */
  lemma HeaderBlock(h: string, cs: seq<string>, dashes: set<char>, epoch: Civil -> int)
    requires DashesOk(dashes) && !IsBlank(h) && MatchHeader(h, dashes).Some?
    requires forall i :: 0 <= i < |cs| ==> NotHeader(cs[i], dashes)
    ensures var c := MatchHeader(h, dashes).value;
      Collect([h] + cs, dashes, epoch)
        == [Open(c, epoch).(text := Appended(Trim(c.text), cs))]
  {
    var m := Open(MatchHeader(h, dashes).value, epoch);
    var kc := Classified(cs, dashes, epoch);
    assert Classified([h] + cs, dashes, epoch) == [Opens(m)] + kc by {
      ClassifiedAppend([h], cs, dashes, epoch);
      assert Classified([h], dashes, epoch) == [Opens(m)];
    }
    assert Run(Initial, [Opens(m)] + kc) == Run(ParseState([], Some(m)), kc) by {
      RunAppend(Initial, [Opens(m)], kc);
    }
    RunContinuations([], m, cs, dashes, epoch);
  }

  lemma {:induction false} RunDone(d1: seq<Message>, d2: seq<Message>, cur: Option<Message>, ks: seq<Line>)
    ensures Flush(Run(ParseState(d1 + d2, cur), ks)) == d1 + Flush(Run(ParseState(d2, cur), ks))
    decreases ks
  {
    if ks != [] {
      var s := Step(ParseState(d2, cur), ks[0]);
      assert Step(ParseState(d1 + d2, cur), ks[0]) == ParseState(d1 + s.done, s.current);
      RunDone(d1, s.done, s.current, ks[1..]);
    }
  }

  /** A transcript cut just before a header line parses as its two halves. */
  lemma CollectConcat(a: seq<string>, b: seq<string>, dashes: set<char>, epoch: Civil -> int)
    requires DashesOk(dashes) && b != [] && !IsBlank(b[0]) && MatchHeader(b[0], dashes).Some?
    ensures Collect(a + b, dashes, epoch) == Collect(a, dashes, epoch) + Collect(b, dashes, epoch)
  {
    var ka := Classified(a, dashes, epoch);
    var kb := Classified(b, dashes, epoch);
    ClassifiedAppend(a, b, dashes, epoch);
    RunAppend(Initial, ka, kb);
    CollectConcatLines(ka, kb);
  }

  lemma CollectConcatLines(ka: seq<Line>, kb: seq<Line>)
    requires kb != [] && kb[0].Opens?
    ensures Flush(Run(Run(Initial, ka), kb)) == Flush(Run(Initial, ka)) + Flush(Run(Initial, kb))
  {
    var st := Run(Initial, ka);
    assert kb == [kb[0]] + kb[1..];
    RunAppend(st, [kb[0]], kb[1..]);
    RunAppend(Initial, [kb[0]], kb[1..]);
    RunDone(Flush(st), [], Some(kb[0].message), kb[1..]);
    assert Flush(st) + [] == Flush(st);
  }

  // ---------------------------------------------------------------------
  // One message per header line

  /** The messages the header lines open, in order. */
  function Openings(ks: seq<Line>): seq<Message> {
    if ks == [] then []
    else (if ks[0].Opens? then [ks[0].message] else []) + Openings(ks[1..])
  }

  /** A message without its text: everything its header line decides. */
  function Heading(m: Message): Message {
    m.(text := "")
  }

  function Headings(ms: seq<Message>): (hs: seq<Message>)
    ensures |hs| == |ms| && forall i :: 0 <= i < |ms| ==> hs[i] == Heading(ms[i])
  {
    seq(|ms|, i requires 0 <= i < |ms| => Heading(ms[i]))
  }

  lemma StepHeadings(st: ParseState, k: Line)
    ensures Headings(Flush(Step(st, k)))
         == Headings(Flush(st)) + Headings(if k.Opens? then [k.message] else [])
  {
  }

  lemma {:induction false} RunHeadings(st: ParseState, ks: seq<Line>)
    ensures Headings(Flush(Run(st, ks))) == Headings(Flush(st)) + Headings(Openings(ks))
    decreases ks
  {
    if ks != [] {
      var o := if ks[0].Opens? then [ks[0].message] else [];
      RunHeadings(Step(st, ks[0]), ks[1..]);
      StepHeadings(st, ks[0]);
      assert Headings(o + Openings(ks[1..])) == Headings(o) + Headings(Openings(ks[1..]));
    }
  }

  /** There is one message per header line, in the order of the lines, and
      each has the date, time, trimmed sender and timestamp of its header and
      no media yet. */
  lemma MessagesFollowHeaders(lines: seq<string>, dashes: set<char>, epoch: Civil -> int)
    requires DashesOk(dashes)
    ensures var ms := Collect(lines, dashes, epoch);
      var hs := HeaderMessages(lines, dashes, epoch);
      |ms| == |hs| && forall i :: 0 <= i < |ms| ==> Heading(ms[i]) == Heading(hs[i])
  {
    var ks := Classified(lines, dashes, epoch);
    RunHeadings(Initial, ks);
    OpeningsOfLines(lines, dashes, epoch);
    assert Headings(Collect(lines, dashes, epoch)) == Headings(Openings(ks));
  }

  /** The messages the header lines open, in the order of the lines. */
  function HeaderMessages(lines: seq<string>, dashes: set<char>, epoch: Civil -> int): seq<Message>
    requires DashesOk(dashes)
  {
    if lines == [] then []
    else
      var rest := HeaderMessages(lines[1..], dashes, epoch);
      if !IsBlank(lines[0]) && MatchHeader(lines[0], dashes).Some?
      then [Open(MatchHeader(lines[0], dashes).value, epoch)] + rest
      else rest
  }

  lemma {:induction false} OpeningsOfLines(lines: seq<string>, dashes: set<char>, epoch: Civil -> int)
    requires DashesOk(dashes)
    ensures Openings(Classified(lines, dashes, epoch)) == HeaderMessages(lines, dashes, epoch)
  {
    if lines != [] {
      var k := Classify(lines[0], dashes, epoch);
      var rest := Classified(lines[1..], dashes, epoch);
      assert ([k] + rest)[1..] == rest;
      OpeningsOfLines(lines[1..], dashes, epoch);
    }
  }

  // ---------------------------------------------------------------------
  // `messages.sort((a, b) => a.timestamp - b.timestamp)`, a stable sort

  predicate Sorted(ms: seq<Message>) {
    forall i, j :: 0 <= i < j < |ms| ==> ms[i].timestamp <= ms[j].timestamp
  }

  lemma SortedCons(x: Message, r: seq<Message>)
    requires Sorted(r) && (r == [] || x.timestamp <= r[0].timestamp)
    ensures Sorted([x] + r)
  {
    forall i, j | 0 <= i < j < |[x] + r|
      ensures ([x] + r)[i].timestamp <= ([x] + r)[j].timestamp
    {
      if i == 0 && j > 1 {
        assert r[0].timestamp <= r[j - 1].timestamp;
      }
    }
  }

  /** Puts `m` before the first message whose timestamp is not smaller. */
  function Insert(m: Message, s: seq<Message>): (r: seq<Message>)
    ensures multiset(r) == multiset(s) + multiset{m}
    ensures |r| == |s| + 1 && (r[0] == m || (s != [] && r[0] == s[0]))
  {
    if s == [] || m.timestamp <= s[0].timestamp then [m] + s
    else
      assert s == [s[0]] + s[1..];
      [s[0]] + Insert(m, s[1..])
  }

  /** Insertion keeps a sorted list sorted. */
  lemma {:induction false} InsertSorted(m: Message, s: seq<Message>)
    requires Sorted(s)
    ensures Sorted(Insert(m, s))
  {
    if s == [] || m.timestamp <= s[0].timestamp {
      SortedCons(m, s);
    } else {
      InsertSorted(m, s[1..]);
      SortedCons(s[0], Insert(m, s[1..]));
    }
  }

  function SortByTimestamp(ms: seq<Message>): (r: seq<Message>)
    ensures Sorted(r) && multiset(r) == multiset(ms)
  {
    if ms == [] then []
    else
      assert ms == [ms[0]] + ms[1..];
      InsertSorted(ms[0], SortByTimestamp(ms[1..]));
      Insert(ms[0], SortByTimestamp(ms[1..]))
  }

  /** The messages with timestamp `t`, in order. */
  function WithTimestamp(ms: seq<Message>, t: int): seq<Message> {
    if ms == [] then []
    else (if ms[0].timestamp == t then [ms[0]] else []) + WithTimestamp(ms[1..], t)
  }

  lemma {:induction false} InsertStable(m: Message, s: seq<Message>, t: int)
    ensures WithTimestamp(Insert(m, s), t)
         == (if m.timestamp == t then [m] else []) + WithTimestamp(s, t)
  {
    if s != [] && m.timestamp > s[0].timestamp {
      var r := Insert(m, s[1..]);
      assert Insert(m, s) == [s[0]] + r;
      assert WithTimestamp(r, t) == (if m.timestamp == t then [m] else []) + WithTimestamp(s[1..], t) by {
        InsertStable(m, s[1..], t);
      }
      WithTimestampCons(s[0], r, t);
      assert WithTimestamp(s, t) == (if s[0].timestamp == t then [s[0]] else []) + WithTimestamp(s[1..], t) by {
        WithTimestampCons(s[0], s[1..], t);
        assert s == [s[0]] + s[1..];
      }
      if m.timestamp == t {
        assert WithTimestamp([s[0]] + r, t) == WithTimestamp(r, t);
        assert WithTimestamp(s, t) == WithTimestamp(s[1..], t);
      } else {
        assert WithTimestamp(r, t) == WithTimestamp(s[1..], t);
      }
    } else {
      WithTimestampCons(m, s, t);
    }
  }

  lemma WithTimestampCons(x: Message, r: seq<Message>, t: int)
    ensures WithTimestamp([x] + r, t) == (if x.timestamp == t then [x] else []) + WithTimestamp(r, t)
  {
    assert ([x] + r)[0] == x && ([x] + r)[1..] == r;
  }

  /** Messages with equal timestamps keep their order: the sort is stable. */
  lemma {:induction false} SortIsStable(ms: seq<Message>, t: int)
    ensures WithTimestamp(SortByTimestamp(ms), t) == WithTimestamp(ms, t)
  {
    if ms != [] {
      SortIsStable(ms[1..], t);
      InsertStable(ms[0], SortByTimestamp(ms[1..]), t);
    }
  }
}
