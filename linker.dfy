/**
  * The media-linking step of `processZipFile` (app.js:220-234): every
  * message body is scanned with the global, case-insensitive pattern
  * `(IMG-|VID-|AUD-)[\w-]+\.\w+|<Media omitted>|\.(jpg|…|opus)`, and for
  * each token found the first file of the media table whose name matches it
  * becomes the message's media. The `break` leaves only the loop over the
  * files, so a later token that matches overrides an earlier one.
  */
module Linker {
  import opened Text
  import opened Media
  import opened Transcript

  // ---------------------------------------------------------------------
  // The token scanner (`msg.text.match(mediaPattern)`)

  /** The extensions of the third alternative, in the order they are tried. */
  const ExtensionAlternatives: seq<string> :=
    ["jpg", "jpeg", "png", "gif", "mp4", "mov", "avi", "mp3", "ogg", "wav", "opus"]

  /** The third alternative lists the same extensions, in the same order, as
      the tables of `getMediaType`. */
  lemma AlternativesAreKnownExtensions()
    ensures ExtensionAlternatives == ImageExtensions + VideoExtensions + AudioExtensions
  {
  }

  /** The lower-case word `w` occurs at `i`, in any letter case (the `i` flag
      folds ASCII letters only). */
  predicate LowerAt(s: string, i: nat, w: string) {
    i + |w| <= |s| && Lower(s[i..i + |w|]) == w
  }

  predicate IsWordOrDash(c: char) {
    IsWordChar(c) || c == '-'
  }

  /** Length of the run of `\w` characters that starts at `i`. */
  function WordRun(s: string, i: nat): (n: nat)
    requires i <= |s|
    ensures i + n <= |s|
    ensures forall k :: i <= k < i + n ==> IsWordChar(s[k])
    ensures i + n == |s| || !IsWordChar(s[i + n])
    decreases |s| - i
  {
    if i < |s| && IsWordChar(s[i]) then 1 + WordRun(s, i + 1) else 0
  }

  /** Length of the run of `[\w-]` characters that starts at `i`. */
  function WordDashRun(s: string, i: nat): (n: nat)
    requires i <= |s|
    ensures i + n <= |s|
    ensures forall k :: i <= k < i + n ==> IsWordOrDash(s[k])
    ensures i + n == |s| || !IsWordOrDash(s[i + n])
    decreases |s| - i
  {
    if i < |s| && IsWordOrDash(s[i]) then 1 + WordDashRun(s, i + 1) else 0
  }

  /** The first alternative at `i`: the run of `[\w-]` cannot hold a `.`, so
      only the whole run can be followed by the `.`, and `\w+` takes every
      word character after it. */
  function FileTokenAt(s: string, i: nat): (r: Option<nat>)
    requires i <= |s|
    ensures r.Some? ==> 7 <= r.value && i + r.value <= |s|
  {
    if LowerAt(s, i, "img-") || LowerAt(s, i, "vid-") || LowerAt(s, i, "aud-") then
      var run := WordDashRun(s, i + 4);
      var dot := i + 4 + run;
      if run >= 1 && dot < |s| && s[dot] == '.' && WordRun(s, dot + 1) >= 1
      then Some(dot + 1 + WordRun(s, dot + 1) - i)
      else None
    else None
  }

  /** The first extension of `alts` that occurs at `j`. */
  function FirstExtension(s: string, j: nat, alts: seq<string>): (r: Option<string>)
    ensures r.Some? ==> r.value in alts && LowerAt(s, j, r.value)
  {
    if alts == [] then None
    else if LowerAt(s, j, alts[0]) then Some(alts[0])
    else FirstExtension(s, j, alts[1..])
  }

  /** The third alternative at `i`. */
  function ExtensionTokenAt(s: string, i: nat): (r: Option<nat>)
    ensures r.Some? ==> 2 <= r.value && i + r.value <= |s|
  {
    if i < |s| && s[i] == '.' then
      match FirstExtension(s, i + 1, ExtensionAlternatives)
      case Some(e) => Some(1 + |e|)
      case None => None
    else None
  }

  /** The placeholder WhatsApp writes for a file left out of the export. */
  const Omitted: string := "<Media omitted>"

  /** The second alternative, lower-cased: what the `i` flag compares against. */
  const OmittedLower: string := "<media omitted>"

  /** The length of the match that starts at `i`, the alternatives tried in
      order. */
  function TokenAt(s: string, i: nat): (r: Option<nat>)
    requires i <= |s|
    ensures r.Some? ==> 1 <= r.value && i + r.value <= |s|
  {
    match FileTokenAt(s, i)
    case Some(n) => Some(n)
    case None =>
      if LowerAt(s, i, OmittedLower) then Some(|OmittedLower|) else ExtensionTokenAt(s, i)
  }

  /** The matches from position `i` on: after a match the search resumes
      where it ended, otherwise one character further. */
  function Tokens(s: string, i: nat): seq<string>
    requires i <= |s|
    decreases |s| - i
  {
    if i == |s| then []
    else
      match TokenAt(s, i)
      case Some(n) => [s[i..i + n]] + Tokens(s, i + n)
      case None => Tokens(s, i + 1)
  }

  /** `msg.text.match(mediaPattern)`, with `null` as no tokens. */
  function MediaTokens(text: string): seq<string> {
    Tokens(text, 0)
  }

  // ---------------------------------------------------------------------
  // What the scanner finds

  /** `(IMG-|VID-|AUD-)[\w-]+\.\w+`, in any letter case: `d` is the
      position of the dot. */
  predicate FileTokenShapeAt(t: string, d: int) {
    5 <= d < |t| - 1 && t[d] == '.'
    && (forall k :: 4 <= k < d ==> IsWordOrDash(t[k]))
    && (forall k :: d < k < |t| ==> IsWordChar(t[k]))
  }

  ghost predicate FileTokenShape(t: string) {
    |t| >= 7 && (Lower(t[..4]) == "img-" || Lower(t[..4]) == "vid-" || Lower(t[..4]) == "aud-")
    && exists d :: FileTokenShapeAt(t, d)
  }

  /** `\.(jpg|…|opus)`, in any letter case. */
  predicate ExtensionTokenShape(t: string) {
    |t| >= 2 && t[0] == '.' && Lower(t[1..]) in ExtensionAlternatives
  }

  /** A string one of the three alternatives matches as a whole. */
  ghost predicate MediaTokenShape(t: string) {
    FileTokenShape(t) || (|t| == |OmittedLower| && LowerAt(t, 0, OmittedLower)) || ExtensionTokenShape(t)
  }

  /** A token of the first alternative has that alternative's shape. */
  lemma FileTokenSound(s: string, i: nat)
    requires i <= |s| && FileTokenAt(s, i).Some?
    ensures FileTokenShape(s[i..i + FileTokenAt(s, i).value])
  {
    var n := FileTokenAt(s, i).value;
    var t := s[i..i + n];
    var run := WordDashRun(s, i + 4);
    var dot := i + 4 + run;
    var d := dot - i;
    assert t[..4] == s[i..i + 4];
    assert t[d] == s[dot];
    forall k | 4 <= k < d
      ensures IsWordOrDash(t[k])
    {
      assert t[k] == s[i + k];
    }
    forall k | d < k < |t|
      ensures IsWordChar(t[k])
    {
      assert t[k] == s[i + k];
    }
    assert FileTokenShapeAt(t, d);
  }

  /** A token of the third alternative is a dot and one of its extensions. */
  lemma ExtensionTokenSound(s: string, i: nat)
    requires i <= |s| && ExtensionTokenAt(s, i).Some?
    ensures ExtensionTokenShape(s[i..i + ExtensionTokenAt(s, i).value])
  {
    var e := FirstExtension(s, i + 1, ExtensionAlternatives).value;
    assert ExtensionTokenAt(s, i).value == 1 + |e|;
    DotThenExtension(s, i, e, ExtensionAlternatives);
  }

  lemma DotThenExtension(s: string, i: nat, e: string, alts: seq<string>)
    requires i < |s| && s[i] == '.' && e in alts && LowerAt(s, i + 1, e) && |e| >= 1
    ensures |s[i..i + 1 + |e|]| >= 2 && s[i..i + 1 + |e|][0] == '.' && Lower(s[i..i + 1 + |e|][1..]) in alts
  {
    assert s[i..i + 1 + |e|][1..] == s[i + 1..i + 1 + |e|];
  }

  /** Every match has the shape of one of the alternatives. */
  lemma TokenAtSound(s: string, i: nat)
    requires i <= |s| && TokenAt(s, i).Some?
    ensures MediaTokenShape(s[i..i + TokenAt(s, i).value])
  {
    if FileTokenAt(s, i).Some? {
      FileMatchSound(s, i);
    } else if LowerAt(s, i, OmittedLower) {
      PlaceholderMatchSound(s, i);
    } else {
      ExtensionMatchSound(s, i);
    }
  }

  lemma FileMatchSound(s: string, i: nat)
    requires i <= |s| && FileTokenAt(s, i).Some?
    ensures MediaTokenShape(s[i..i + TokenAt(s, i).value])
  {
    FileTokenSound(s, i);
  }

  lemma PlaceholderMatchSound(s: string, i: nat)
    requires i <= |s| && FileTokenAt(s, i).None? && LowerAt(s, i, OmittedLower)
    ensures MediaTokenShape(s[i..i + TokenAt(s, i).value])
  {
    LowerAtWhole(s, i, OmittedLower);
  }

  lemma ExtensionMatchSound(s: string, i: nat)
    requires i <= |s| && FileTokenAt(s, i).None? && !LowerAt(s, i, OmittedLower)
    requires ExtensionTokenAt(s, i).Some?
    ensures MediaTokenShape(s[i..i + TokenAt(s, i).value])
  {
    ExtensionTokenSound(s, i);
  }

  /** A word found at `i` is found at the start of the slice it covers. */
  lemma LowerAtWhole(s: string, i: nat, w: string)
    requires LowerAt(s, i, w)
    ensures LowerAt(s[i..i + |w|], 0, w)
  {
    assert s[i..i + |w|][0..|w|] == s[i..i + |w|];
  }

  /** Every token the global match returns has the shape of one of the
      alternatives. */
  lemma {:induction false} TokensSound(s: string, i: nat)
    requires i <= |s|
    ensures forall k :: 0 <= k < |Tokens(s, i)| ==> MediaTokenShape(Tokens(s, i)[k])
    decreases |s| - i
  {
    if i < |s| {
      match TokenAt(s, i)
      case Some(n) =>
        TokenAtSound(s, i);
        TokensSound(s, i + n);
      case None =>
        TokensSound(s, i + 1);
    }
  }

  /** Every alternative needs a `.` or starts with `<`. */
  lemma {:induction false} NoTokensWithoutDotOrAngle(s: string, i: nat)
    requires i <= |s| && '.' !in s && '<' !in s
    ensures Tokens(s, i) == []
    decreases |s| - i
  {
    if i < |s| {
      NoTokensWithoutDotOrAngle(s, i + 1);
    }
  }

  /** Without a `.` in the text, only a `<` can start a match. */
  lemma NoTokenAt(s: string, k: nat)
    requires '.' !in s && k < |s| && s[k] != '<'
    ensures TokenAt(s, k).None?
  {
    NoFileToken(s, k);
    if k + |OmittedLower| <= |s| {
      assert Lower(s[k..k + |OmittedLower|])[0] == LowerChar(s[k]) != OmittedLower[0];
    }
  }

  lemma NoFileToken(s: string, k: nat)
    requires '.' !in s && k <= |s|
    ensures FileTokenAt(s, k).None?
  {
    if LowerAt(s, k, "img-") || LowerAt(s, k, "vid-") || LowerAt(s, k, "aud-") {
      var dot := k + 4 + WordDashRun(s, k + 4);
      assert dot < |s| ==> s[dot] in s;
    }
  }

  /** Positions where no match starts are skipped. */
  lemma {:induction false} SkipNoTokens(s: string, i: nat, j: nat)
    requires i <= j <= |s|
    requires forall k :: i <= k < j ==> TokenAt(s, k).None?
    ensures Tokens(s, i) == Tokens(s, j)
    decreases j - i
  {
    if i < j {
      SkipNoTokens(s, i + 1, j);
    }
  }


  /** Character by character, the placeholder lower-cases to `OmittedLower`. */
  lemma OmittedLowerChars()
    ensures |Omitted| == |OmittedLower|
    ensures forall k :: 0 <= k < |Omitted| ==> LowerChar(Omitted[k]) == OmittedLower[k]
  {
  }

  /** A text whose characters lower-case one by one to `w` lower-cases to `w`. */
  lemma LowerEach(x: string, w: string)
    requires |x| == |w| && forall k :: 0 <= k < |x| ==> LowerChar(x[k]) == w[k]
    ensures Lower(x) == w
  {
  }

  /** A body whose only `<` is that of the placeholder, and that has no `.`,
      yields the placeholder as its one token. */
  lemma OnlyPlaceholderToken(pre: string, post: string)
    requires '.' !in pre && '.' !in post && '<' !in pre && '<' !in post
    ensures MediaTokens(pre + Omitted + post) == [Omitted]
  {
    var p := Omitted;
    var s := pre + p + post;
    var a, b := |pre|, |pre| + |p|;
    assert s[a..b] == p;
    assert '.' !in s by {
      assert forall k :: 0 <= k < |s| ==> s[k] in pre || s[k] in p || s[k] in post;
    }
    forall k | 0 <= k < a
      ensures TokenAt(s, k).None?
    {
      assert s[k] == pre[k];
      NoTokenAt(s, k);
    }
    SkipNoTokens(s, 0, a);
    assert TokenAt(s, a) == Some(|p|) by {
      NoFileToken(s, a);
      OmittedLowerChars();
      LowerEach(s[a..b], OmittedLower);
    }
    forall k | b <= k < |s|
      ensures TokenAt(s, k).None?
    {
      assert s[k] == post[k - b];
      NoTokenAt(s, k);
    }
    SkipNoTokens(s, b, |s|);
  }

  // ---------------------------------------------------------------------
  // Matching a token against the media table

  /** The test of app.js:227: the file name includes the token (the
      placeholder, in exactly that letter case, becomes the empty string,
      which every name includes), or the token includes the file name. */
  predicate Links(fileName: string, token: string) {
    Contains(fileName, ReplaceFirst(token, "<Media omitted>", "")) || Contains(token, fileName)
  }

  /** The value of the first entry whose name links to `token`. */
  function FirstLink(table: MediaTable, token: string): (r: Option<MediaFile>)
  {
    if table == [] then None
    else if Links(table[0].0, token) then Some(table[0].1)
    else FirstLink(table[1..], token)
  }

  /** `FirstLink` finds the first entry that links, and finds one whenever
      some entry links. */
  lemma FirstLinkIsFirst(table: MediaTable, token: string)
    ensures FirstLink(table, token).None? <==> forall i :: 0 <= i < |table| ==> !Links(table[i].0, token)
    ensures FirstLink(table, token).Some? ==> exists i :: (0 <= i < |table|
      && table[i].1 == FirstLink(table, token).value && Links(table[i].0, token)
      && forall j :: 0 <= j < i ==> !Links(table[j].0, token))
  {
    FirstLinkNone(table, token);
    if FirstLink(table, token).Some? {
      FirstLinkFound(table, token);
      var k := LinkIndex(table, token);
      assert 0 <= k < |table| && table[k].1 == FirstLink(table, token).value && Links(table[k].0, token);
    }
  }

  lemma {:induction false} FirstLinkNone(table: MediaTable, token: string)
    ensures FirstLink(table, token).None? <==> forall i :: 0 <= i < |table| ==> !Links(table[i].0, token)
  {
    if table != [] && !Links(table[0].0, token) {
      FirstLinkNone(table[1..], token);
      assert forall i :: 1 <= i < |table| ==> table[1..][i - 1] == table[i];
    }
  }

  /** Where `FirstLink` stops: the first entry that links, or `|table|`. */
  function LinkIndex(table: MediaTable, token: string): (k: nat)
    ensures k <= |table|
  {
    if table == [] || Links(table[0].0, token) then 0 else 1 + LinkIndex(table[1..], token)
  }

  lemma FirstLinkFound(table: MediaTable, token: string)
    requires FirstLink(table, token).Some?
    ensures LinkIndex(table, token) < |table|
    ensures table[LinkIndex(table, token)].1 == FirstLink(table, token).value
    ensures Links(table[LinkIndex(table, token)].0, token)
    ensures forall j :: 0 <= j < LinkIndex(table, token) ==> !Links(table[j].0, token)
  {
    LinkIndexFinds(table, token);
    LinkIndexNoneBefore(table, token);
  }

  /** `FirstLink` returns the entry at `LinkIndex`, which links. */
  lemma {:induction false} LinkIndexFinds(table: MediaTable, token: string)
    ensures LinkIndex(table, token) == |table| <==> FirstLink(table, token).None?
    ensures LinkIndex(table, token) < |table| ==>
      Links(table[LinkIndex(table, token)].0, token) && FirstLink(table, token) == Some(table[LinkIndex(table, token)].1)
  {
    if table != [] && !Links(table[0].0, token) {
      LinkIndexFinds(table[1..], token);
      var i := LinkIndex(table[1..], token);
      if i < |table| - 1 {
        assert table[i + 1] == table[1..][i];
      }
    }
  }

  /** No entry before `LinkIndex` links. */
  lemma {:induction false} LinkIndexNoneBefore(table: MediaTable, token: string)
    ensures forall j :: 0 <= j < LinkIndex(table, token) ==> !Links(table[j].0, token)
  {
    if table != [] && !Links(table[0].0, token) {
      var rest := table[1..];
      LinkIndexNoneBefore(rest, token);
      forall j | 1 <= j < LinkIndex(table, token)
        ensures !Links(table[j].0, token)
      {
        assert table[j] == rest[j - 1];
      }
    }
  }

  /** The media after the tokens: each token that links to some file sets
      it, so the last such token decides, and it is always the initial media
      or a file of the table. */
  function LinkedMedia(initial: Option<MediaFile>, table: MediaTable, tokens: seq<string>): (r: Option<MediaFile>)
    ensures r == initial || exists i :: 0 <= i < |table| && r == Some(table[i].1)
  {
    if tokens == [] then initial
    else
      match FirstLink(table, tokens[|tokens| - 1])
      case Some(v) =>
        FirstLinkIsFirst(table, tokens[|tokens| - 1]);
        Some(v)
      case None => LinkedMedia(initial, table, tokens[..|tokens| - 1])
  }

  /** The `forEach` callback of app.js:220-234: only the media changes, and
      it becomes one of the table's files or stays as it was. */
  function LinkMessage(m: Message, table: MediaTable): (r: Message)
    ensures r.(media := m.media) == m
    ensures r.media == m.media || exists i :: 0 <= i < |table| && r.media == Some(table[i].1)
  {
    m.(media := LinkedMedia(m.media, table, MediaTokens(m.text)))
  }

  function LinkAll(messages: seq<Message>, table: MediaTable): (r: seq<Message>)
    ensures |r| == |messages| && forall i :: 0 <= i < |messages| ==> r[i] == LinkMessage(messages[i], table)
  {
    seq(|messages|, i requires 0 <= i < |messages| => LinkMessage(messages[i], table))
  }

  /** `messages.forEach(msg => …)` of app.js:220-234. */
  method LinkMedia(messages: seq<Message>, table: MediaTable) returns (linked: seq<Message>)
    ensures linked == LinkAll(messages, table)
  {
    linked := [];
    var k := 0;
    while k < |messages|
      invariant 0 <= k <= |messages|
      invariant linked == LinkAll(messages[..k], table)
    {
      var msg := messages[k];
      var media := LinkOne(msg, table);
      linked := linked + [msg.(media := media)];
      assert messages[..k + 1] == messages[..k] + [msg];
      k := k + 1;
    }
    assert messages[..k] == messages;
  }

  /** The body of the `forEach` callback: the loop over the matches. */
  method LinkOne(msg: Message, table: MediaTable) returns (media: Option<MediaFile>)
    ensures media == LinkedMedia(msg.media, table, MediaTokens(msg.text))
  {
    var matches := MediaTokens(msg.text);
    media := msg.media;
    var t := 0;
    while t < |matches|
      invariant 0 <= t <= |matches|
      invariant media == LinkedMedia(msg.media, table, matches[..t])
    {
      LinkedSnoc(msg.media, table, matches, t);
      var found := FindFile(table, matches[t]);
      if found.Some? {
        media := found;
      }
      t := t + 1;
    }
    assert matches[..t] == matches;
  }

  lemma LinkedSnoc(initial: Option<MediaFile>, table: MediaTable, tokens: seq<string>, t: nat)
    requires t < |tokens|
    ensures LinkedMedia(initial, table, tokens[..t + 1])
         == if FirstLink(table, tokens[t]).Some? then FirstLink(table, tokens[t]) else LinkedMedia(initial, table, tokens[..t])
  {
    assert tokens[..t + 1][..t] == tokens[..t];
  }

  /** The loop over `Object.entries(mediaFiles)`, left by `break` at the
      first file that links. */
  method FindFile(table: MediaTable, token: string) returns (found: Option<MediaFile>)
    ensures found == FirstLink(table, token)
  {
    found := None;
    var e := 0;
    while e < |table|
      invariant 0 <= e <= |table|
      invariant forall j :: 0 <= j < e ==> !Links(table[j].0, token)
    {
      if Contains(table[e].0, ReplaceFirst(token, "<Media omitted>", "")) || Contains(token, table[e].0) {
        found := Some(table[e].1);
        FirstLinkAt(table, token, e);
        return;
      }
      e := e + 1;
    }
    FirstLinkAt(table, token, e);
  }

  /** What the scan over the files finds when it stops at `e`. */
  lemma FirstLinkAt(table: MediaTable, token: string, e: nat)
    requires e <= |table| && forall j :: 0 <= j < e ==> !Links(table[j].0, token)
    ensures e < |table| && Links(table[e].0, token) ==> FirstLink(table, token) == Some(table[e].1)
    ensures e == |table| ==> FirstLink(table, token).None?
  {
    FirstLinkIsFirst(table, token);
    if e < |table| && Links(table[e].0, token) {
      var v := FirstLink(table, token).value;
      var i :| 0 <= i < |table| && table[i].1 == v && Links(table[i].0, token)
        && forall j :: 0 <= j < i ==> !Links(table[j].0, token);
      assert i == e;
    }
  }

  // ---------------------------------------------------------------------
  // What linking does

  /** When no token links to a file, the media is left as it was. */
  lemma {:induction false} NoLinkKeepsMedia(initial: Option<MediaFile>, table: MediaTable, tokens: seq<string>)
    requires forall j :: 0 <= j < |tokens| ==> FirstLink(table, tokens[j]).None?
    ensures LinkedMedia(initial, table, tokens) == initial
  {
    if tokens != [] {
      var n := |tokens| - 1;
      assert forall j :: 0 <= j < n ==> tokens[..n][j] == tokens[j];
      NoLinkKeepsMedia(initial, table, tokens[..n]);
    }
  }

  /** The media a message ends with is the file of the LAST token that links
      to any file, not of the first. */
  lemma LastLinkWins(initial: Option<MediaFile>, table: MediaTable, tokens: seq<string>, j: nat)
    requires j < |tokens| && FirstLink(table, tokens[j]).Some?
    requires forall k :: j < k < |tokens| ==> FirstLink(table, tokens[k]).None?
    ensures LinkedMedia(initial, table, tokens) == FirstLink(table, tokens[j])
  {
    var hits := Hits(table, tokens);
    LinkedIsLastHit(initial, table, tokens);
    LastHitAt(initial, hits, j);
  }

  /** What each token finds in the table. */
  function Hits(table: MediaTable, tokens: seq<string>): (h: seq<Option<MediaFile>>)
    ensures |h| == |tokens| && forall k :: 0 <= k < |tokens| ==> h[k] == FirstLink(table, tokens[k])
  {
    seq(|tokens|, k requires 0 <= k < |tokens| => FirstLink(table, tokens[k]))
  }

  /** The last hit, or `initial` when there is none. */
  function LastHit(initial: Option<MediaFile>, hits: seq<Option<MediaFile>>): Option<MediaFile> {
    if hits == [] then initial
    else if hits[|hits| - 1].Some? then hits[|hits| - 1]
    else LastHit(initial, hits[..|hits| - 1])
  }

  lemma {:induction false} LinkedIsLastHit(initial: Option<MediaFile>, table: MediaTable, tokens: seq<string>)
    ensures LinkedMedia(initial, table, tokens) == LastHit(initial, Hits(table, tokens))
  {
    if tokens != [] {
      var n := |tokens| - 1;
      LinkedIsLastHit(initial, table, tokens[..n]);
      assert Hits(table, tokens)[..n] == Hits(table, tokens[..n]);
    }
  }

  lemma {:induction false} LastHitAt(initial: Option<MediaFile>, hits: seq<Option<MediaFile>>, j: nat)
    requires j < |hits| && hits[j].Some?
    requires forall k :: j < k < |hits| ==> hits[k].None?
    ensures LastHit(initial, hits) == hits[j]
  {
    var n := |hits| - 1;
    if j < n {
      assert forall k :: 0 <= k < n ==> hits[..n][k] == hits[k];
      LastHitAt(initial, hits[..n], j);
    }
  }

  /** Linked media is always one of the table's files, under a name that
      includes the token (placeholder removed) or is included in it. */
  lemma {:induction false} LinkedFromTable(initial: Option<MediaFile>, table: MediaTable, tokens: seq<string>)
    requires LinkedMedia(initial, table, tokens) != initial
    ensures exists i, j :: (0 <= i < |table| && 0 <= j < |tokens|
      && LinkedMedia(initial, table, tokens) == Some(table[i].1) && Links(table[i].0, tokens[j]))
  {
    var n := |tokens| - 1;
    match FirstLink(table, tokens[n])
    case Some(v) =>
      FirstLinkIsFirst(table, tokens[n]);
      var i :| 0 <= i < |table| && table[i].1 == v && Links(table[i].0, tokens[n]);
      assert LinkedMedia(initial, table, tokens) == Some(table[i].1);
    case None =>
      LinkedFromTable(initial, table, tokens[..n]);
      var i, j :| (0 <= i < |table| && 0 <= j < |tokens[..n]|
        && LinkedMedia(initial, table, tokens[..n]) == Some(table[i].1) && Links(table[i].0, tokens[..n][j]));
      assert tokens[..n][j] == tokens[j];
  }

  /** Linking changes nothing but the media, and keeps it when the body has
      no token or no file links. */
  lemma LinkTouchesOnlyMedia(m: Message, table: MediaTable)
    ensures LinkMessage(m, table).(media := m.media) == m
    ensures MediaTokens(m.text) == [] ==> LinkMessage(m, table) == m
    ensures table == [] ==> LinkMessage(m, table) == m
  {
    var tokens := MediaTokens(m.text);
    if tokens == [] || table == [] {
      NoLinkKeepsMedia(m.media, table, tokens);
    }
  }

  /** A body such as `IMG-0001 <Media omitted>` (no `.`, no other `<`)
      is given the first file of the table. */
  lemma PlaceholderBodyTakesFirstFile(m: Message, table: MediaTable, pre: string, post: string)
    requires m.text == pre + "<Media omitted>" + post && table != []
    requires '.' !in pre && '.' !in post && '<' !in pre && '<' !in post
    ensures LinkMessage(m, table).media == Some(table[0].1)
  {
    OnlyPlaceholderToken(pre, post);
    OmittedTakesFirstFile(m, table);
  }

  /** When the last token is the placeholder in exactly the letter case
      WhatsApp writes, the message is given the FIRST file of the archive,
      whatever it is: the empty needle is included in every name. */
  lemma OmittedTakesFirstFile(m: Message, table: MediaTable)
    requires MediaTokens(m.text) != [] && table != []
    requires MediaTokens(m.text)[|MediaTokens(m.text)| - 1] == "<Media omitted>"
    ensures LinkMessage(m, table).media == Some(table[0].1)
  {
    var token := "<Media omitted>";
    assert IndexOf(token, token) == Some(0) by {
      assert IsPrefix(token, token);
    }
    assert ReplaceFirst(token, token, "") == "";
    ContainsEmpty(table[0].0);
  }
}
