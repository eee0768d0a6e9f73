/**
  * The viewer's global state (app.js:2-3): the list of chats and the id of
  * the chat on screen, with the operations that change them.
  */
module Session {
  import opened Text
  import opened Timestamp
  import opened Header
  import opened Media
  import opened Assembly

  // ---------------------------------------------------------------------
  // `chats.filter(c => c.id !== chatId)`

  function Without(chats: seq<Chat>, id: real): (r: seq<Chat>)
    ensures |r| <= |chats|
    ensures forall c :: c in r <==> c in chats && c.id != id
  {
    if chats == [] then []
    else if chats[0].id != id then [chats[0]] + Without(chats[1..], id)
    else Without(chats[1..], id)
  }

  /** The filter works chat by chat: it distributes over concatenation, so
      the chats it keeps stay in their order. */
  lemma {:induction false} WithoutConcat(a: seq<Chat>, b: seq<Chat>, id: real)
    ensures Without(a + b, id) == Without(a, id) + Without(b, id)
  {
    if a == [] {
      assert a + b == b;
    } else {
      assert (a + b)[1..] == a[1..] + b;
      WithoutConcat(a[1..], b, id);
    }
  }

  /** Nothing to remove: the list is unchanged. */
  lemma {:induction false} WithoutAbsent(chats: seq<Chat>, id: real)
    requires forall i :: 0 <= i < |chats| ==> chats[i].id != id
    ensures Without(chats, id) == chats
  {
    if chats != [] {
      WithoutAbsent(chats[1..], id);
    }
  }

  /** Removing twice is removing once. */
  lemma WithoutIdempotent(chats: seq<Chat>, id: real)
    ensures Without(Without(chats, id), id) == Without(chats, id)
  {
    var r := Without(chats, id);
    forall i | 0 <= i < |r|
      ensures r[i].id != id
    {
      assert r[i] in r;
    }
    WithoutAbsent(r, id);
  }

  /** The order of two removals does not matter. */
  lemma {:induction false} WithoutCommutes(chats: seq<Chat>, a: real, b: real)
    ensures Without(Without(chats, a), b) == Without(Without(chats, b), a)
  {
    if chats != [] {
      WithoutCommutes(chats[1..], a, b);
    }
  }

  /** `chats.find(c => c.id === chatId)` */
  function FindChat(chats: seq<Chat>, id: real): (r: Option<Chat>)
    ensures r.None? <==> forall i :: 0 <= i < |chats| ==> chats[i].id != id
    ensures r.Some? ==> r.value in chats && r.value.id == id
  {
    if chats == [] then None
    else if chats[0].id == id then Some(chats[0])
    else FindChat(chats[1..], id)
  }

  /** `find` returns the first chat with the id. */
  lemma {:induction false} FindChatIsFirst(chats: seq<Chat>, id: real, i: nat)
    requires i < |chats| && chats[i].id == id
    requires forall j :: 0 <= j < i ==> chats[j].id != id
    ensures FindChat(chats, id) == Some(chats[i])
  {
    if i > 0 {
      FindChatIsFirst(chats[1..], id, i - 1);
    }
  }

  /** After the filter the id is not found any more. */
  lemma RemovedNotFound(chats: seq<Chat>, id: real)
    ensures FindChat(Without(chats, id), id).None?
  {
    var r := Without(chats, id);
    forall i | 0 <= i < |r|
      ensures r[i].id != id
    {
      assert r[i] in r;
    }
  }

  // ---------------------------------------------------------------------
  // `for (const file of files) await processZipFile(file)`, which stops at
  // the first archive that fails

  /** The result of `processZipFile` (app.js:190-256) for one archive, which
      `Assembly.ProcessArchive` computes; `id` and `now` are the clock and
      random readings made while processing it. */
  function Outcome(entries: seq<ArchiveEntry>, dashes: set<char>, epoch: Civil -> int, urlOf: string -> string,
                   id: real, now: int): (r: Result<Chat>)
    requires DashesOk(dashes)
    ensures r.Failure? <==> forall j :: 0 <= j < |entries| ==> !EndsWith(entries[j].name, ".txt")
    ensures r.Failure? ==> r.error == "No chat text file found in ZIP"
    ensures r.Success? ==> r.value.id == id && r.value.mediaFiles == MediaTableOf(entries, urlOf)
  {
    match FindTranscript(entries)
    case None => Failure("No chat text file found in ZIP")
    case Some(i) => Success(ChatOf(entries, i, dashes, epoch, urlOf, id, now))
  }

  /** The outcomes of a batch of archives, processed one after another. */
  function Outcomes(archives: seq<seq<ArchiveEntry>>, dashes: set<char>, epoch: Civil -> int, urlOf: string -> string,
                    ids: seq<real>, nows: seq<int>): (r: seq<Result<Chat>>)
    requires |ids| == |archives| == |nows| && DashesOk(dashes)
    ensures |r| == |archives|
    ensures forall k :: 0 <= k < |archives| ==> r[k] == Outcome(archives[k], dashes, epoch, urlOf, ids[k], nows[k])
  {
    seq(|archives|, k requires 0 <= k < |archives| => Outcome(archives[k], dashes, epoch, urlOf, ids[k], nows[k]))
  }

  /** The chats pushed by a batch with these outcomes: those before the
      first failure, in order. */
  function Pushed(results: seq<Result<Chat>>): (r: seq<Chat>)
    ensures |r| <= |results|
  {
    if results == [] || results[0].Failure? then []
    else [results[0].value] + Pushed(results[1..])
  }

  /** The chats pushed are the values of the leading successes, and the
      batch stops at a failure. */
  lemma {:induction false} PushedSpec(results: seq<Result<Chat>>)
    ensures var r := Pushed(results);
      (forall k :: 0 <= k < |r| ==> results[k] == Success(r[k]))
      && (|r| < |results| ==> results[|r|].Failure?)
  {
    if results != [] && results[0].Success? {
      PushedSpec(results[1..]);
    }
  }

  /** One turn of the batch loop: `done` are the chats pushed so far. */
  lemma PushedFrom(done: seq<Chat>, results: seq<Result<Chat>>, i: nat)
    requires i < |results|
    ensures results[i].Failure? ==> done + Pushed(results[i..]) == done
    ensures results[i].Success? ==> done + Pushed(results[i..]) == (done + [results[i].value]) + Pushed(results[i + 1..])
  {
    assert results[i..][0] == results[i] && results[i..][1..] == results[i + 1..];
    assert done + [] == done;
  }

  /** A batch without failures pushes every chat. */
  lemma PushedAll(results: seq<Result<Chat>>)
    requires forall k :: 0 <= k < |results| ==> results[k].Success?
    ensures |Pushed(results)| == |results|
  {
    PushedSpec(results);
  }

  // ---------------------------------------------------------------------
  // Restoring a backup file (app.js:522-546)

  /** What `JSON.parse` makes of the file, as far as the restore looks at
      it. `Unreadable` is text that is not JSON, or the JSON `null`, on which
      reading `.chats` throws. */
  datatype Backup = Unreadable | Parsed(chats: ChatsField)
  datatype ChatsField = Missing | NotArray | ArrayOf(items: seq<Chat>)

  class ChatStore {
    var chats: seq<Chat>
    var currentChatId: Option<real>

    constructor()
      ensures chats == [] && currentChatId == None
    {
      chats := [];
      currentChatId := None;
    }

    /** `processZipFile`: the chat is pushed only when the archive holds a
        transcript. */
    method ImportArchive(entries: seq<ArchiveEntry>, dashes: set<char>, epoch: Civil -> int, urlOf: string -> string,
                         id: real, now: int) returns (r: Result<Chat>)
      requires DashesOk(dashes)
      modifies this
      ensures r == Outcome(entries, dashes, epoch, urlOf, id, now)
      ensures chats == old(chats) + (if r.Success? then [r.value] else [])
      ensures currentChatId == old(currentChatId)
    {
      r := ProcessArchive(entries, dashes, epoch, urlOf, id, now);
      if r.Success? {
        chats := chats + [r.value];
      }
    }

    /** `handleFileUpload`: the archives are processed in turn; the first
        one without a transcript ends the batch, and the chats pushed before
        it stay. */
    method UploadArchives(archives: seq<seq<ArchiveEntry>>, dashes: set<char>, epoch: Civil -> int, urlOf: string -> string,
                          ids: seq<real>, nows: seq<int>) returns (failed: bool)
      requires |ids| == |archives| == |nows| && DashesOk(dashes)
      modifies this
      ensures var pushed := Pushed(Outcomes(archives, dashes, epoch, urlOf, ids, nows));
        chats == old(chats) + pushed && (failed <==> |pushed| < |archives|)
      ensures currentChatId == old(currentChatId)
    {
      ghost var results := Outcomes(archives, dashes, epoch, urlOf, ids, nows);
      failed := false;
      var i := 0;
      while i < |archives|
        invariant 0 <= i <= |archives|
        invariant chats + Pushed(results[i..]) == old(chats) + Pushed(results)
        invariant |chats| == |old(chats)| + i
        invariant currentChatId == old(currentChatId)
      {
        ghost var before := chats;
        var r := ImportArchive(archives[i], dashes, epoch, urlOf, ids[i], nows[i]);
        PushedFrom(before, results, i);
        if r.Failure? {
          return true;
        }
        i := i + 1;
      }
      assert chats + [] == chats;
    }

    /** `openChat`: the id is taken even when no chat has it. */
    method OpenChat(id: real) returns (chat: Option<Chat>)
      modifies this
      ensures currentChatId == Some(id) && chats == old(chats)
      ensures chat == FindChat(chats, id)
    {
      currentChatId := Some(id);
      chat := FindChat(chats, id);
    }

    /** `removeChat`: the chats with that id go, and the open chat is closed
        only when it was that one. */
    method RemoveChat(id: real)
      modifies this
      ensures chats == Without(old(chats), id)
      ensures currentChatId == if old(currentChatId) == Some(id) then None else old(currentChatId)
    {
      chats := Without(chats, id);
      if currentChatId == Some(id) {
        currentChatId := None;
      }
    }

    /** `clearAllChats`: `confirmed` is the user's answer to the dialog. */
    method ClearAllChats(confirmed: bool)
      modifies this
      ensures confirmed ==> chats == [] && currentChatId == None
      ensures !confirmed ==> chats == old(chats) && currentChatId == old(currentChatId)
    {
      if confirmed {
        chats := [];
        currentChatId := None;
      }
    }

    /** `handleRestore`: the backup's `chats` array replaces the list, even
        when it is empty; anything else leaves the list alone. The open
        chat's id is kept either way. Returns the count the success message
        shows. */
    method Restore(backup: Backup) returns (restored: Option<nat>)
      modifies this
      ensures backup.Parsed? && backup.chats.ArrayOf? ==>
        chats == backup.chats.items && restored == Some(|backup.chats.items|)
      ensures !(backup.Parsed? && backup.chats.ArrayOf?) ==> chats == old(chats) && restored == None
      ensures currentChatId == old(currentChatId)
    {
      if backup.Parsed? && backup.chats.ArrayOf? {
        chats := backup.chats.items;
        restored := Some(|chats|);
      } else {
        restored := None;
      }
    }
  }
}
