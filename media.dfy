/**
  * The media classifier (`isMediaFile`, `getMediaType`, app.js:259-271) and
  * the `mediaFiles` table that `processZipFile` fills from the archive
  * entries (app.js:204-217).
  */
module Media {
  import opened Text

  datatype MediaKind = Image | Video | Audio | Unknown

  /** `{url, name, type}` as app.js:211-215 stores it. */
  datatype MediaFile = MediaFile(url: string, name: string, kind: MediaKind)

  /** The suffixes `isMediaFile` accepts. */
  const MediaExtensions: seq<string> :=
    [".jpg", ".jpeg", ".png", ".gif", ".mp4", ".mov", ".avi", ".mp3", ".ogg", ".wav", ".opus"]

  const ImageExtensions: seq<string> := ["jpg", "jpeg", "png", "gif"]
  const VideoExtensions: seq<string> := ["mp4", "mov", "avi"]
  const AudioExtensions: seq<string> := ["mp3", "ogg", "wav", "opus"]

  /** The kind the three tables of `getMediaType` give an extension. */
  function ExtensionKind(ext: string): MediaKind {
    if ext in ImageExtensions then Image
    else if ext in VideoExtensions then Video
    else if ext in AudioExtensions then Audio
    else Unknown
  }

  /** `isMediaFile`: the lower-cased name ends with one of the suffixes,
      so a media file's name always has a `.`. */
  predicate IsMediaFile(fileName: string)
    ensures IsMediaFile(fileName) ==> '.' in fileName
  {
    LowerKeepsDot(fileName);
    ExtensionShape();
    exists ext :: ext in MediaExtensions && EndsWith(Lower(fileName), ext)
  }

  /** `getMediaType`: the kind of the lower-cased text after the last `.`
      (the whole lower-cased name when it has no `.`). On names with a `.`
      it agrees with `IsMediaFile`. */
  function GetMediaType(fileName: string): (r: MediaKind)
    ensures IsMediaFile(fileName) ==> r != Unknown
    ensures '.' in fileName && r != Unknown ==> IsMediaFile(fileName)
  {
    var kind := ExtensionKind(LastPart(Lower(fileName), '.'));
    if IsMediaFile(fileName) then
      MediaSuffixKnown(fileName);
      kind
    else if '.' in fileName && kind != Unknown then
      KnownSuffixIsMedia(fileName);
      kind
    else
      kind
  }

  /** The suffixes of `isMediaFile` are exactly the extensions of the three
      tables of `getMediaType`, each after a `.`. */
  lemma TablesAgree()
    ensures |MediaExtensions| == |ImageExtensions + VideoExtensions + AudioExtensions|
    ensures forall i :: 0 <= i < |MediaExtensions| ==>
      MediaExtensions[i] == "." + (ImageExtensions + VideoExtensions + AudioExtensions)[i]
  {
  }

  /** Every suffix starts with a `.` and holds no `/`. */
  lemma ExtensionShape()
    ensures forall ext :: ext in MediaExtensions ==> |ext| >= 4 && ext[0] == '.' && '/' !in ext
  {
  }

  lemma KnownExtensions()
    ensures forall e :: e in ImageExtensions ==> ExtensionKind(e) == Image && '.' !in e
    ensures forall e :: e in VideoExtensions ==> ExtensionKind(e) == Video && '.' !in e
    ensures forall e :: e in AudioExtensions ==> ExtensionKind(e) == Audio && '.' !in e
  {
  }

  lemma LowerKeepsDot(s: string)
    ensures ('.' in s) <==> ('.' in Lower(s))
  {
    if '.' in s {
      var i :| 0 <= i < |s| && s[i] == '.';
      assert Lower(s)[i] == '.';
    }
    if '.' in Lower(s) {
      var i :| 0 <= i < |s| && Lower(s)[i] == '.';
      assert s[i] == '.';
    }
  }

  lemma {:induction false} LowerAppend(a: string, b: string)
    ensures Lower(a + b) == Lower(a) + Lower(b)
  {
  }

  /** The text after the last `.` of a string that ends with `.` and `e`,
      `e` free of dots, is `e`. */
  lemma LastPartOfSuffix(s: string, e: string)
    requires '.' !in e && EndsWith(s, "." + e)
    ensures LastPart(s, '.') == e
  {
    var a := s[..|s| - |e| - 1];
    assert s == a + ['.'] + e;
    LastPartOf(a, '.', e);
  }

  /** A media file's last extension has a known kind. */
  lemma MediaSuffixKnown(fileName: string)
    requires IsMediaFile(fileName)
    ensures ExtensionKind(LastPart(Lower(fileName), '.')) != Unknown
  {
    var ext :| ext in MediaExtensions && EndsWith(Lower(fileName), ext);
    TablesAgree();
    KnownExtensions();
    var i :| 0 <= i < |MediaExtensions| && MediaExtensions[i] == ext;
    var e := (ImageExtensions + VideoExtensions + AudioExtensions)[i];
    assert e in ImageExtensions || e in VideoExtensions || e in AudioExtensions;
    LastPartOfSuffix(Lower(fileName), e);
  }

  /** A name with a `.` whose last extension has a known kind is a media
      file. */
  lemma KnownSuffixIsMedia(fileName: string)
    requires '.' in fileName && ExtensionKind(LastPart(Lower(fileName), '.')) != Unknown
    ensures IsMediaFile(fileName)
  {
    var low := Lower(fileName);
    var e := LastPart(low, '.');
    KnownIsListed(e);
    var i :| 0 <= i < |MediaExtensions| && MediaExtensions[i] == "." + e;
    LowerKeepsDot(fileName);
    DotSuffix(low, e);
  }

  /** An extension with a known kind is listed among the suffixes. */
  lemma KnownIsListed(e: string)
    requires ExtensionKind(e) != Unknown
    ensures exists i :: 0 <= i < |MediaExtensions| && MediaExtensions[i] == "." + e
  {
    var all := ImageExtensions + VideoExtensions + AudioExtensions;
    assert e in all;
    var i :| 0 <= i < |all| && all[i] == e;
    TablesAgree();
  }

  lemma DotSuffix(s: string, e: string)
    requires '.' in s && e == LastPart(s, '.')
    ensures EndsWith(s, "." + e)
  {
    var k := |s| - |e| - 1;
    assert s[k..] == [s[k]] + s[k + 1..];
  }

  /** Without a `.`, `getMediaType` takes the whole name for the extension
      (so `JPG` counts as an image), but such a name is never a media file. */
  lemma NoDotNoMedia(fileName: string)
    requires '.' !in fileName
    ensures GetMediaType(fileName) == ExtensionKind(Lower(fileName))
    ensures !IsMediaFile(fileName)
  {
    LowerKeepsDot(fileName);
    var low := Lower(fileName);
    ExtensionShape();
  }

  /** The kind depends only on the text after the last `.`, in any letter
      case. */
  lemma KindOfLastExtension(prefix: string, ext: string)
    requires '.' !in ext
    ensures GetMediaType(prefix + "." + ext) == ExtensionKind(Lower(ext))
  {
    LowerAppend(prefix + ".", ext);
    LowerAppend(prefix, ".");
    LowerKeepsDot(ext);
    assert Lower(".") == ".";
    LastPartOf(Lower(prefix), '.', Lower(ext));
  }

  // ---------------------------------------------------------------------
  // The `mediaFiles` table

  /** `fileName.split('/').pop()` */
  function BaseName(path: string): (r: string)
    ensures '/' !in r && EndsWith(path, r)
    ensures '/' in path ==> |r| < |path| && path[|path| - |r| - 1] == '/'
  {
    LastPart(path, '/')
  }

  lemma BaseNameOf(dir: string, name: string)
    requires '/' !in name
    ensures BaseName(dir + "/" + name) == name
  {
    LastPartOf(dir, '/', name);
  }

  lemma LowerSuffix(s: string, k: nat)
    requires k <= |s|
    ensures Lower(s[k..]) == Lower(s)[k..]
  {
  }

  lemma SuffixOfSuffix(s: string, t: string, e: string)
    requires EndsWith(s, t) && EndsWith(s, e) && |e| <= |t|
    ensures EndsWith(t, e)
  {
    assert t[|t| - |e|..] == s[|s| - |e|..];
  }

  lemma LowerEndsWith(s: string, t: string)
    requires EndsWith(s, t)
    ensures EndsWith(Lower(s), Lower(t))
  {
    var k := |s| - |t|;
    assert s[k..] == t;
    LowerSuffix(s, k);
    var ls, lt := Lower(s), Lower(t);
    assert |ls| == |s| && |lt| == |t| && lt == ls[k..];
  }

  /** A suffix without `/` of the lowered path is no longer than the base name. */
  lemma BaseNameLength(path: string, ext: string)
    requires EndsWith(Lower(path), ext) && '/' !in ext
    ensures |ext| <= |BaseName(path)|
  {
    var low, n, k := Lower(path), |ext|, |path| - |BaseName(path)|;
    forall i | |path| - n <= i < |path|
      ensures low[i] != '/'
    {
      assert low[i] == ext[i - (|path| - n)];
    }
    if '/' in path {
      assert low[k - 1] == '/';
    }
  }

  /** A lower-case suffix of a path without `/` is a suffix of its base name. */
  lemma BaseNameKeepsSuffix(path: string, ext: string)
    requires EndsWith(Lower(path), ext) && '/' !in ext
    ensures EndsWith(Lower(BaseName(path)), ext)
  {
    BaseNameLength(path, ext);
    LowerEndsWith(path, BaseName(path));
    SuffixOfSuffix(Lower(path), Lower(BaseName(path)), ext);
  }

  /** An entry of the archive, with its contents already decoded as text. */
  datatype ArchiveEntry = ArchiveEntry(name: string, dir: bool, text: string)

  /** The keys of a JavaScript object in enumeration order, with their values.
      Every key of `mediaFiles` contains a `.` and so is never an array
      index, which JavaScript would enumerate first: insertion order is the
      order. */
  type MediaTable = seq<(string, MediaFile)>

  function Keys(t: MediaTable): (ks: seq<string>)
    ensures |ks| == |t| && forall i :: 0 <= i < |t| ==> ks[i] == t[i].0
  {
    seq(|t|, i requires 0 <= i < |t| => t[i].0)
  }

  predicate DistinctKeys(t: MediaTable) {
    forall i, j :: 0 <= i < j < |t| ==> t[i].0 != t[j].0
  }

  /** Where `key` sits in the table, if anywhere. */
  function KeyIndex(t: MediaTable, key: string): (r: Option<nat>)
    ensures r.Some? ==> r.value < |t| && t[r.value].0 == key
    ensures r.Some? ==> forall j :: 0 <= j < r.value ==> t[j].0 != key
    ensures r.None? ==> forall j :: 0 <= j < |t| ==> t[j].0 != key
  {
    if t == [] then None
    else if t[0].0 == key then Some(0)
    else
      match KeyIndex(t[1..], key)
      case None => None
      case Some(i) => Some(i + 1)
  }

  lemma {:induction false} KeyIndexIs(t: MediaTable, key: string, i: nat)
    requires i < |t| && t[i].0 == key
    requires forall j :: 0 <= j < i ==> t[j].0 != key
    ensures KeyIndex(t, key) == Some(i)
  {
    if i > 0 {
      KeyIndexIs(t[1..], key, i - 1);
    }
  }

  /** `mediaFiles[key]` */
  function Lookup(t: MediaTable, key: string): (r: Option<MediaFile>)
    ensures r.None? <==> key !in Keys(t)
    ensures r.Some? ==> exists i :: 0 <= i < |t| && t[i] == (key, r.value)
  {
    match KeyIndex(t, key)
    case None => None
    case Some(i) => assert Keys(t)[i] == key; Some(t[i].1)
  }

  /** `mediaFiles[key] = value` */
  function Put(t: MediaTable, key: string, value: MediaFile): (r: MediaTable)
    ensures Lookup(r, key) == Some(value)
  {
    match KeyIndex(t, key)
    case Some(i) =>
      PutAt(t, key, value, i);
      t[i := (key, value)]
    case None =>
      PutLast(t, key, value);
      t + [(key, value)]
  }

  /** An existing key keeps its place and takes the new value, a new key
      goes last; no other key's value changes. */
  lemma PutSpec(t: MediaTable, key: string, value: MediaFile)
    ensures var r := Put(t, key, value);
      Keys(r) == (if key in Keys(t) then Keys(t) else Keys(t) + [key])
      && (DistinctKeys(t) ==> DistinctKeys(r))
      && forall k :: k != key ==> Lookup(r, k) == Lookup(t, k)
  {
    match KeyIndex(t, key)
    case Some(i) => PutAt(t, key, value, i);
    case None => PutLast(t, key, value);
  }

  lemma PutAt(t: MediaTable, key: string, value: MediaFile, i: nat)
    requires KeyIndex(t, key) == Some(i)
    ensures var r := t[i := (key, value)];
      Keys(r) == Keys(t) && key in Keys(t)
      && (DistinctKeys(t) ==> DistinctKeys(r))
      && Lookup(r, key) == Some(value)
      && forall k :: k != key ==> Lookup(r, k) == Lookup(t, k)
  {
    var r := t[i := (key, value)];
    assert Keys(t)[i] == key;
    KeyIndexIs(r, key, i);
    forall k | k != key
      ensures Lookup(r, k) == Lookup(t, k)
    {
      if KeyIndex(t, k).Some? {
        KeyIndexIs(r, k, KeyIndex(t, k).value);
      }
    }
  }

  lemma PutLast(t: MediaTable, key: string, value: MediaFile)
    requires KeyIndex(t, key).None?
    ensures var r := t + [(key, value)];
      Keys(r) == Keys(t) + [key] && key !in Keys(t)
      && (DistinctKeys(t) ==> DistinctKeys(r))
      && Lookup(r, key) == Some(value)
      && forall k :: k != key ==> Lookup(r, k) == Lookup(t, k)
  {
    var r := t + [(key, value)];
    KeyIndexIs(r, key, |t|);
    forall k | k != key
      ensures Lookup(r, k) == Lookup(t, k)
    {
      if KeyIndex(t, k).Some? {
        KeyIndexIs(r, k, KeyIndex(t, k).value);
      }
    }
  }

  /** What app.js:207-215 stores for an entry it keeps. */
  function MediaOf(e: ArchiveEntry, url: string): MediaFile {
    var base := BaseName(e.name);
    MediaFile(url, base, GetMediaType(base))
  }

  predicate KeepsEntry(e: ArchiveEntry) {
    !e.dir && IsMediaFile(e.name)
  }

  /** One step of the loop. */
  function AddEntry(t: MediaTable, e: ArchiveEntry, urlOf: string -> string): MediaTable {
    if KeepsEntry(e) then Put(t, BaseName(e.name), MediaOf(e, urlOf(e.name))) else t
  }

  /** The table after the entries in order; `urlOf` stands for the object URL
      of each entry's blob. */
  function MediaTableOf(entries: seq<ArchiveEntry>, urlOf: string -> string): MediaTable
  {
    if entries == [] then []
    else AddEntry(MediaTableOf(entries[..|entries| - 1], urlOf), entries[|entries| - 1], urlOf)
  }

  /** The loop of app.js:205-217. */
  method CollectMedia(entries: seq<ArchiveEntry>, urlOf: string -> string) returns (table: MediaTable)
    ensures table == MediaTableOf(entries, urlOf)
  {
    table := [];
    var i := 0;
    while i < |entries|
      invariant 0 <= i <= |entries|
      invariant table == MediaTableOf(entries[..i], urlOf)
    {
      MediaTableSnoc(entries, i, urlOf);
      table := AddFile(table, entries[i], urlOf);
      i := i + 1;
    }
    assert entries[..i] == entries;
  }

  /** The body of the loop: a file that is not a folder and has a media
      extension is stored under its base name. */
  method AddFile(table: MediaTable, e: ArchiveEntry, urlOf: string -> string) returns (t: MediaTable)
    ensures t == AddEntry(table, e, urlOf)
  {
    t := table;
    if !e.dir && IsMediaFile(e.name) {
      var base := BaseName(e.name);
      t := Put(t, base, MediaFile(urlOf(e.name), base, GetMediaType(base)));
    }
  }

  lemma MediaTableSnoc(entries: seq<ArchiveEntry>, i: nat, urlOf: string -> string)
    requires i < |entries|
    ensures MediaTableOf(entries[..i + 1], urlOf) == AddEntry(MediaTableOf(entries[..i], urlOf), entries[i], urlOf)
  {
    assert entries[..i + 1][..i] == entries[..i];
  }

  predicate NamedAndKnown(t: MediaTable) {
    forall i :: 0 <= i < |t| ==> t[i].1.name == t[i].0 && t[i].1.kind != Unknown
  }

  /** What an entry the loop keeps stores is named by its key and has a
      known kind. */
  lemma KeptEntryKnown(e: ArchiveEntry, url: string)
    requires KeepsEntry(e)
    ensures MediaOf(e, url).name == BaseName(e.name) && MediaOf(e, url).kind != Unknown
  {
    var ext :| ext in MediaExtensions && EndsWith(Lower(e.name), ext);
    ExtensionShape();
    BaseNameKeepsSuffix(e.name, ext);
    assert GetMediaType(BaseName(e.name)) != Unknown;
  }

  lemma PutKeepsNamed(t: MediaTable, key: string, value: MediaFile)
    requires NamedAndKnown(t) && value.name == key && value.kind != Unknown
    ensures NamedAndKnown(Put(t, key, value))
  {
    match KeyIndex(t, key)
    case Some(i) =>
    case None =>
  }

  /** The table has distinct keys; each value is named by its key and has
      a known kind. */
  lemma {:induction false} MediaTableWellformed(entries: seq<ArchiveEntry>, urlOf: string -> string)
    ensures DistinctKeys(MediaTableOf(entries, urlOf))
    ensures NamedAndKnown(MediaTableOf(entries, urlOf))
  {
    if entries != [] {
      var pre := entries[..|entries| - 1];
      MediaTableWellformed(pre, urlOf);
      var e := entries[|entries| - 1];
      if KeepsEntry(e) {
        KeptEntryKnown(e, urlOf(e.name));
        PutSpec(MediaTableOf(pre, urlOf), BaseName(e.name), MediaOf(e, urlOf(e.name)));
        PutKeepsNamed(MediaTableOf(pre, urlOf), BaseName(e.name), MediaOf(e, urlOf(e.name)));
      }
    }
  }

  /** Entry `i` is kept under `key` and no later entry is. */
  predicate LastKeptAs(entries: seq<ArchiveEntry>, i: int, key: string) {
    0 <= i < |entries| && KeepsEntry(entries[i]) && BaseName(entries[i].name) == key
    && forall j :: i < j < |entries| ==> !(KeepsEntry(entries[j]) && BaseName(entries[j].name) == key)
  }

  /** No entry is kept under `key`. */
  predicate NoneKeptAs(entries: seq<ArchiveEntry>, key: string) {
    forall i :: 0 <= i < |entries| ==> !(KeepsEntry(entries[i]) && BaseName(entries[i].name) == key)
  }

  /** A name is in the table exactly when some kept entry has it for its
      base name. */
  lemma {:induction false} MediaTableHas(entries: seq<ArchiveEntry>, urlOf: string -> string, key: string)
    ensures Lookup(MediaTableOf(entries, urlOf), key).None? <==> NoneKeptAs(entries, key)
  {
    if entries != [] {
      var n := |entries| - 1;
      var e := entries[n];
      if KeepsEntry(e) && BaseName(e.name) == key {
        LookupAfterKept(entries, urlOf);
      } else {
        MediaTableHas(entries[..n], urlOf, key);
        LookupAfterOther(entries, urlOf, key);
        NoneKeptAsSnoc(entries, key);
      }
    }
  }

  lemma NoneKeptAsSnoc(entries: seq<ArchiveEntry>, key: string)
    requires entries != []
    requires !(KeepsEntry(entries[|entries| - 1]) && BaseName(entries[|entries| - 1].name) == key)
    ensures NoneKeptAs(entries, key) <==> NoneKeptAs(entries[..|entries| - 1], key)
  {
    var pre := entries[..|entries| - 1];
    if NoneKeptAs(pre, key) {
      forall i | 0 <= i < |entries|
        ensures !(KeepsEntry(entries[i]) && BaseName(entries[i].name) == key)
      {
        if i < |pre| {
          assert entries[i] == pre[i];
        } else {
          assert i == |entries| - 1;
        }
      }
    }
    if NoneKeptAs(entries, key) {
      forall i | 0 <= i < |pre|
        ensures !(KeepsEntry(pre[i]) && BaseName(pre[i].name) == key)
      {
        assert pre[i] == entries[i];
      }
    }
  }

  /** The value stored under a name is what the LAST entry kept under it
      stored: a later file with the same base name, in another folder,
      overwrites an earlier one. */
  lemma {:induction false} MediaTableLast(entries: seq<ArchiveEntry>, urlOf: string -> string, i: int, key: string)
    requires LastKeptAs(entries, i, key)
    ensures Lookup(MediaTableOf(entries, urlOf), key) == Some(MediaOf(entries[i], urlOf(entries[i].name)))
  {
    var n := |entries| - 1;
    if i == n {
      LookupAfterKept(entries, urlOf);
    } else {
      var pre := entries[..n];
      assert LastKeptAs(pre, i, key) by {
        assert forall j :: 0 <= j < n ==> pre[j] == entries[j];
      }
      MediaTableLast(pre, urlOf, i, key);
      LookupAfterOther(entries, urlOf, key);
    }
  }

  /** After a kept entry, its base name maps to the file it stored. */
  lemma LookupAfterKept(entries: seq<ArchiveEntry>, urlOf: string -> string)
    requires entries != [] && KeepsEntry(entries[|entries| - 1])
    ensures var e := entries[|entries| - 1];
      Lookup(MediaTableOf(entries, urlOf), BaseName(e.name)) == Some(MediaOf(e, urlOf(e.name)))
  {
  }

  /** An entry that is skipped, or kept under another name, leaves the lookup
      of `key` as it was before it. */
  lemma LookupAfterOther(entries: seq<ArchiveEntry>, urlOf: string -> string, key: string)
    requires entries != []
    requires !(KeepsEntry(entries[|entries| - 1]) && BaseName(entries[|entries| - 1].name) == key)
    ensures Lookup(MediaTableOf(entries, urlOf), key) == Lookup(MediaTableOf(entries[..|entries| - 1], urlOf), key)
  {
    var e := entries[|entries| - 1];
    if KeepsEntry(e) {
      PutSpec(MediaTableOf(entries[..|entries| - 1], urlOf), BaseName(e.name), MediaOf(e, urlOf(e.name)));
    }
  }
}
