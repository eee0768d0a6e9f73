/**
  * `processZipFile` (app.js:190-256) from the archive's entries to the chat
  * record: the transcript is found and parsed, the media table filled, the
  * media linked, and the display name, last message and timestamp derived.
  */
module Assembly {
  import opened Text
  import opened Header
  import opened Media
  import opened Transcript
  import opened Linker
  import opened Timestamp

  datatype Result<T> = Success(value: T) | Failure(error: string)

  /** The chat record of app.js:246-253. */
  datatype Chat = Chat(id: real, name: string, messages: seq<Message>, mediaFiles: MediaTable,
                       lastMessage: string, timestamp: int)

  // ---------------------------------------------------------------------
  // `[...new Set(xs)]`: the distinct values in order of first appearance

  function Distinct(xs: seq<string>): (r: seq<string>)
    ensures forall i, j :: 0 <= i < j < |r| ==> r[i] != r[j]
    ensures forall x :: x in r <==> x in xs
    ensures |r| <= |xs|
  {
    if xs == [] then []
    else
      var d := Distinct(xs[..|xs| - 1]);
      var x := xs[|xs| - 1];
      assert xs == xs[..|xs| - 1] + [x];
      if x in d then d else d + [x]
  }

  lemma {:induction false} DistinctOfOne(xs: seq<string>, x: string)
    requires xs != [] && forall i :: 0 <= i < |xs| ==> xs[i] == x
    ensures Distinct(xs) == [x]
  {
    var pre := xs[..|xs| - 1];
    if pre != [] {
      DistinctOfOne(pre, x);
    }
  }

  /** Where `x` first appears in `xs`. */
  function FirstIndex(xs: seq<string>, x: string): (k: nat)
    requires x in xs
    ensures k < |xs| && xs[k] == x && x !in xs[..k]
  {
    if xs[0] == x then 0
    else
      var k := FirstIndex(xs[1..], x);
      assert xs[..k + 1] == [xs[0]] + xs[1..][..k];
      k + 1
  }

  lemma FirstIndexOfPrefix(xs: seq<string>, n: nat, x: string)
    requires n <= |xs| && x in xs[..n]
    ensures FirstIndex(xs[..n], x) == FirstIndex(xs, x)
  {
    var k := FirstIndex(xs[..n], x);
    var m := FirstIndex(xs, x);
    assert xs[..n][..k] == xs[..k];
  }

  /** The distinct values come in the order of their first appearance. */
  lemma {:induction false} DistinctInOrder(xs: seq<string>)
    ensures forall i, j :: 0 <= i < j < |Distinct(xs)| ==> FirstIndex(xs, Distinct(xs)[i]) < FirstIndex(xs, Distinct(xs)[j])
  {
    if xs != [] {
      var n := |xs| - 1;
      var pre := xs[..n];
      var x := xs[n];
      DistinctInOrder(pre);
      var d := Distinct(pre);
      assert xs[..n] == pre;
      var r := Distinct(xs);
      assert r == if x in d then d else d + [x];
      forall i, j | 0 <= i < j < |r|
        ensures FirstIndex(xs, r[i]) < FirstIndex(xs, r[j])
      {
        if x !in d && j == |d| {
          assert r[i] == d[i] && r[j] == x && x !in pre;
          FirstIndexOfPrefix(xs, n, d[i]);
          assert FirstIndex(xs, x) == n;
        } else {
          assert r[i] == d[i] && r[j] == d[j];
          FirstIndexOfPrefix(xs, n, d[i]);
          FirstIndexOfPrefix(xs, n, d[j]);
        }
      }
    }
  }

  // ---------------------------------------------------------------------
  // Display name, last message, timestamp (app.js:237-252)

  function Senders(messages: seq<Message>): (ss: seq<string>)
    ensures |ss| == |messages| && forall i :: 0 <= i < |messages| ==> ss[i] == messages[i].sender
  {
    seq(|messages|, i requires 0 <= i < |messages| => messages[i].sender)
  }

  /** A name longer than 50 characters keeps its first 47 and gets `...`. */
  function Shorten(name: string): (r: string)
    ensures |r| <= 50
    ensures |name| <= 50 ==> r == name
    ensures |name| > 50 ==> |r| == 50 && r[..47] == name[..47] && r[47..] == "..."
  {
    if |name| > 50 then name[..47] + "..." else name
  }

  /** The chat name of app.js:237-245: `Unknown Chat` without messages,
      otherwise the distinct senders joined with `, `, shortened. */
  function ChatName(messages: seq<Message>): (name: string)
    ensures |name| <= 50
  {
    if messages == [] then "Unknown Chat"
    else
      var senders := Distinct(Senders(messages));
      Shorten(if |senders| > 1 then Join(senders, ", ") else senders[0])
  }

  /** No messages: `Unknown Chat`. */
  lemma ChatNameEmpty()
    ensures ChatName([]) == "Unknown Chat"
  {
  }

  /** Everyone wrote as the same sender: the name is that sender. */
  lemma ChatNameOneSender(messages: seq<Message>, sender: string)
    requires messages != [] && forall i :: 0 <= i < |messages| ==> messages[i].sender == sender
    ensures ChatName(messages) == Shorten(sender)
  {
    var d := Distinct(Senders(messages));
    assert Senders(messages)[0] == sender;
    assert sender in d;
    DistinctOfOne(Senders(messages), sender);
  }

  /** Several senders: their names in order of first appearance, joined
      with `, `. */
  lemma ChatNameSenders(messages: seq<Message>, a: string, b: string)
    requires a in Senders(messages) && b in Senders(messages) && a != b
    ensures var d := Distinct(Senders(messages));
      |d| > 1 && ChatName(messages) == Shorten(Join(d, ", "))
  {
    var d := Distinct(Senders(messages));
    assert a in d && b in d;
  }

  /** `messages[messages.length - 1]?.text || 'No messages'`: an empty text
      counts as missing. */
  function LastMessage(messages: seq<Message>): (r: string)
    ensures r != []
    ensures messages != [] && messages[|messages| - 1].text != [] ==> r == messages[|messages| - 1].text
    ensures messages == [] || messages[|messages| - 1].text == [] ==> r == "No messages"
  {
    if messages == [] || messages[|messages| - 1].text == [] then "No messages"
    else messages[|messages| - 1].text
  }

  /** `messages[messages.length - 1]?.timestamp || Date.now()`: a zero
      timestamp counts as missing. */
  function LastTimestamp(messages: seq<Message>, now: int): (r: int)
    ensures r != 0 || now == 0
    ensures messages != [] && messages[|messages| - 1].timestamp != 0 ==> r == messages[|messages| - 1].timestamp
    ensures messages == [] || messages[|messages| - 1].timestamp == 0 ==> r == now
  {
    if messages == [] || messages[|messages| - 1].timestamp == 0 then now
    else messages[|messages| - 1].timestamp
  }

  // ---------------------------------------------------------------------
  // The archive

  /** `files.find(f => f.endsWith('_chat.txt') || f.endsWith('.txt'))` */
  function FindTranscript(entries: seq<ArchiveEntry>): (r: Option<nat>)
    ensures r.Some? ==> r.value < |entries| && EndsWith(entries[r.value].name, ".txt")
    ensures r.Some? ==> forall j :: 0 <= j < r.value ==> !EndsWith(entries[j].name, ".txt")
    ensures r.None? ==> forall j :: 0 <= j < |entries| ==> !EndsWith(entries[j].name, ".txt")
  {
    if entries == [] then None
    else if EndsWith(entries[0].name, "_chat.txt") || EndsWith(entries[0].name, ".txt") then
      Some(0)
    else
      match FindTranscript(entries[1..])
      case None => None
      case Some(i) => Some(i + 1)
  }

  /** Every name that ends with `_chat.txt` ends with `.txt`: the first test
      of the search never decides anything. */
  lemma ChatSuffixIsTextSuffix(name: string)
    requires EndsWith(name, "_chat.txt")
    ensures EndsWith(name, ".txt")
  {
    assert name[|name| - 4..] == name[|name| - 9..][5..];
  }

  /** The chat `processZipFile` pushes, from the transcript found at `i`.
      `dashes` is the dash class of the header pattern: `AsWrittenDashes`
      for the program as written, `IntendedDashes` for the corrected one.
      `id` stands for `Date.now() + Math.random()` and `now` for the clock
      read when the last message gives no timestamp. */
  function ChatOf(entries: seq<ArchiveEntry>, i: nat, dashes: set<char>, epoch: Civil -> int,
                  urlOf: string -> string, id: real, now: int): (c: Chat)
    requires i < |entries| && DashesOk(dashes)
    ensures c.id == id && c.mediaFiles == MediaTableOf(entries, urlOf)
    ensures c.name == ChatName(c.messages) && c.lastMessage == LastMessage(c.messages)
    ensures c.timestamp == LastTimestamp(c.messages, now)
  {
    var messages := LinkAll(SortByTimestamp(Collect(Split(entries[i].text, '\n'), dashes, epoch)),
                            MediaTableOf(entries, urlOf));
    Chat(id, ChatName(messages), messages, MediaTableOf(entries, urlOf),
         LastMessage(messages), LastTimestamp(messages, now))
  }

  /** `processZipFile`, once the archive is read: fails when no entry is a
      transcript, and otherwise builds the chat. */
  method ProcessArchive(entries: seq<ArchiveEntry>, dashes: set<char>, epoch: Civil -> int, urlOf: string -> string,
                        id: real, now: int) returns (r: Result<Chat>)
    requires DashesOk(dashes)
    ensures FindTranscript(entries).None? ==> r == Failure("No chat text file found in ZIP")
    ensures FindTranscript(entries).Some? ==> r == Success(ChatOf(entries, FindTranscript(entries).value, dashes, epoch, urlOf, id, now))
  {
    var chatFile := FindTranscript(entries);
    if chatFile.None? {
      return Failure("No chat text file found in ZIP");
    }
    var parsed := ParseChat(entries[chatFile.value].text, dashes, epoch);
    var mediaFiles := CollectMedia(entries, urlOf);
    var messages := LinkMedia(parsed, mediaFiles);
    var chatName := NameChat(messages);
    r := Success(Chat(id, chatName, messages, mediaFiles, LastMessage(messages), LastTimestamp(messages, now)));
  }

  /** The statements that compute `ChatName`. */
  method NameChat(messages: seq<Message>) returns (chatName: string)
    ensures chatName == ChatName(messages)
  {
    chatName := "Unknown Chat";
    if |messages| > 0 {
      var senders := Distinct(Senders(messages));
      chatName := if |senders| > 1 then Join(senders, ", ") else senders[0];
      if |chatName| > 50 {
        chatName := chatName[..47] + "...";
      }
    }
  }

  /** The messages of the chat are those of the transcript, in time order,
      one per header line, each with its media linked. */
  lemma ChatMessages(entries: seq<ArchiveEntry>, i: nat, dashes: set<char>, epoch: Civil -> int,
                     urlOf: string -> string, id: real, now: int)
    requires i < |entries| && DashesOk(dashes)
    ensures var c := ChatOf(entries, i, dashes, epoch, urlOf, id, now);
      var lines := Split(entries[i].text, '\n');
      Sorted(c.messages)
      && |c.messages| == |HeaderMessages(lines, dashes, epoch)|
      && |c.name| <= 50 && c.lastMessage != []
  {
    var lines := Split(entries[i].text, '\n');
    var collected := Collect(lines, dashes, epoch);
    var sorted := SortByTimestamp(collected);
    var c := ChatOf(entries, i, dashes, epoch, urlOf, id, now);
    MessagesFollowHeaders(lines, dashes, epoch);
    assert |sorted| == |collected| by {
      assert |multiset(sorted)| == |multiset(collected)|;
    }
    forall a, b | 0 <= a < b < |c.messages|
      ensures c.messages[a].timestamp <= c.messages[b].timestamp
    {
      assert c.messages[a].timestamp == sorted[a].timestamp;
      assert c.messages[b].timestamp == sorted[b].timestamp;
    }
  }
}
