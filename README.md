# WhatsApp chat viewer — a Dafny model of its core

The viewer (`app.js`) takes the ZIP archives WhatsApp produces when a
chat is exported. For each archive it:

- finds the transcript;
- splits the transcript into messages at the header lines (`date, time - Sender: text` or `[date, time] Sender: text`);
- normalises each header's date and time;
- sorts the messages by time;
- files the archive's media under their base names;
- links every message that mentions a media file to that file;
- derives the chat's display name, last message and timestamp.

It keeps the chats in a list together with the id of the chat on screen.
Chats can be opened, removed, cleared, and replaced from a JSON backup.

This project models that core in Dafny and proves its properties.

| file | module | what |
|---|---|---|
| `text.dfy` | `Text` | the JavaScript string operations the core relies on |
| `timestamp.dfy` | `Timestamp` | `parseTimestamp`, up to the civil date and time it hands to `new Date` |
| `header.dfy` | `Header` | a recogniser for the two header regular expressions, and the round trip of header layouts |
| `transcript.dfy` | `Transcript` | `parseWhatsAppChat`, written as a method with a loop and proved against a fold over the classified lines; its stable sort |
| `media.dfy` | `Media` | `isMediaFile`, `getMediaType`, base names, and the media table with its collecting loop |
| `linker.dfy` | `Linker` | the media-token scanner and the linking loops |
| `assembly.dfy` | `Assembly` | `processZipFile`: transcript lookup, name, last message, timestamp, and the chat record |
| `session.dfy` | `Session` | the global state as the class `ChatStore`: upload batches, open, remove, clear, restore |

## Model

| member | source | states |
|---|---|---|
| Text.Lower | app.js:261 | The result has the same length, and each character is lowered on its own (ASCII letters only). |
| Text.Trim | app.js:54 | The result is the slice of the input between its leading and trailing whitespace runs; it neither starts nor ends with whitespace. |
| Text.TrimEmptyIffBlank | app.js:54 | A line trims to the empty string exactly when it is blank, which is the skip test of the parse loop. |
| Text.TrimIdentity | app.js:68-69 | Trimming a string that neither starts nor ends with whitespace returns it unchanged. |
| Text.IndexOf | app.js:227 | A found index is an occurrence of the needle. |
| Text.IndexOfIsFirst | app.js:227 | No occurrence lies before the found index, and "not found" means there is no occurrence at all. |
| Text.ContainsEmpty | app.js:227 | Every string includes the empty string. |
| Text.ReplaceFirst | app.js:227 | Without an occurrence the string is unchanged; with one, the length changes by the length difference of needle and replacement. |
| Text.ReplaceFirstAt | app.js:227 | When the first occurrence of the needle is at `i`, the result is the text before `i`, then the replacement, then the text after the occurrence. |
| Text.ReplaceFirstAbsent | app.js:227 | A string without an occurrence of the needle is returned unchanged. |
| Text.Split | app.js:43 | There is at least one part, and no part contains the separator. |
| Text.JoinSplit | app.js:43 | Joining the parts of a split with the separator gives back the original text. |
| Text.SplitJoin | app.js:241 | Splitting a join of separator-free parts gives back the parts. |
| Text.Join | app.js:241 | A single part joins to itself. |
| Text.LastPart | app.js:210 | The result is the suffix after the last separator (the whole string when there is none) and contains no separator. |
| Text.LastPartOf | app.js:210 | The last part of `a + sep + b` is `b` when `b` has no separator. |
| Timestamp.ParseDecimal | app.js:97-119 | The value of a digit string is below 10 to the power of its length. |
| Timestamp.ParseNumeral | app.js:97-119 | Reading back the decimal numeral of `n` gives `n`. |
| Timestamp.StripMeridiem | app.js:117 | Removing the am/pm suffix leaves a prefix of the time text. |
| Timestamp.HourField | app.js:118 | The hour field is a number of at most two digits. |
| Timestamp.MinuteField | app.js:119 | The minute field is a number of at most two digits. |
| Timestamp.ClockHour | app.js:121-125 | The converted hour is at most 99: a two-digit hour field, plus 12 for a PM time before noon. |
| Timestamp.MeridiemTests | app.js:121-125 | The PM test holds exactly when the time ends in `P`/`p` `M`/`m`, and the same goes for AM with `A`/`a`. No digit, colon or space can satisfy either test. |
| Timestamp.ResolveDate | app.js:94-115 | The year, the 0-based month and the day fall within the ranges the date pattern allows. |
| Timestamp.ParseTimestamp | app.js:92-127 | Every field of the civil time it produces is in range. |
| Timestamp.DayFirstRoundTrip | app.js:103-115 | A date written day first, with fields of one or two digits (zero-padded or not) and any year field the pattern allows, is a date, and its day and month are read back as written. This holds in both the unambiguous and the ambiguous case. |
| Timestamp.MonthFirstRoundTrip | app.js:107-110 | A month-first date whose day field is above 12, padded or not, is read back as written. |
| Timestamp.MonthFirstAmbiguous | app.js:111-115 | A month-first date whose day field is at most 12, padded or not, has its day and month swapped. |
| Timestamp.YearExpansion | app.js:97-101 | A digit string is a year field exactly when it has two to four characters. A two-character year YY (`00` to `99`) means 2000 + YY; three or four characters are kept as written. |
| Timestamp.YearOfDate | app.js:97-101 | For well-formed date fields, the year `parseTimestamp` resolves is 2000 + YY for a two-digit field and the field's value otherwise. |
| Timestamp.TwelveHourRoundTrip | app.js:117-125 | Every 12-hour clock time is read back as its 24-hour hour and minute; noon is 12 and midnight 0. |
| Timestamp.ClockHourOfTwelveHour | app.js:121-125 | With hour field `Hour12(h)` and the matching suffix, the converted hour is `h`. |
| Timestamp.TwentyFourHourRoundTrip | app.js:117-125 | A 24-hour time keeps its hour and minute. |
| Timestamp.MeridiemHour | app.js:117-125 | With a suffix and an hour field of 1 to 12, the hour lies in 0..23 and is in the morning exactly for `am`; without a suffix the hour field is kept. |
| Header.DashSetsOk | app.js:47 | Both dash classes avoid whitespace, `:` and the meridiem letters. The en dash is missing from the class as written and present in the intended one. |
| Header.ScanDate | app.js:47-48 | A scanned date is well formed and, printed in front of the rest, gives the input back. |
| Header.ScanDateOf | app.js:47-48 | Scanning a printed date gives back the same fields and the same rest. |
| Header.ScanClock | app.js:47-48 | A scanned time is well formed, gives the input back when printed, and ends where the pattern demands. |
| Header.ClockOf | app.js:47-48 | Scanning a printed time gives back the same fields. |
| Header.ScanStamp | app.js:47-48 | A scanned date-and-time is well formed and gives the input back when printed. |
| Header.ScanStampOf | app.js:47-48 | Scanning a printed date-and-time gives back the same stamp. |
| Header.SenderStart | app.js:47-48 | The whitespace before the sender is all blank, and the sender keeps at least one character. |
| Header.ScanTail | app.js:47-48 | The sender/text tail it scans is well formed and prints back to the input. |
| Header.ScanTailOf | app.js:47-48 | Scanning a printed tail gives the same tail back. |
| Header.MatchDashed | app.js:47 | A match is a well-formed dashed layout whose dash is in the class and which prints back to the line. |
| Header.MatchDashedOf | app.js:47 | A printed dashed layout is matched exactly when its dash is in the class, and then as itself. |
| Header.MatchBracketed | app.js:48 | A match is a well-formed bracketed layout that prints back to the line. |
| Header.MatchBracketedOf | app.js:48 | A printed bracketed layout is matched as itself. |
| Header.Recognise | app.js:58-77 | A recognised line is a well-formed layout that the dash class admits and that prints back to the line. |
| Header.RecogniseComplete | app.js:58-77 | A printed well-formed layout is recognised as itself exactly when its dash is admitted. |
| Header.FormsDisjoint | app.js:47-48 | A line starting with a digit never matches the bracketed form, and one starting with `[` never matches the dashed form. |
| Header.AssembleInjective | app.js:47-48 | Two well-formed layouts that print the same are equal, so each capture group is determined by the line. |
| Header.MatchHeader | app.js:58-72 | It matches exactly when the line is recognised. The captured date and time are then in the shape `parseTimestamp` expects, and the sender is non-empty and free of `:`. |
| Header.EnDashRejectedAsWritten | app.js:47 | With the class as written, no header whose dash is an en dash is recognised. |
| Header.EnDashAcceptedIntended | app.js:47 | With a hyphen and an en dash in the class, every such header is recognised as itself. |
| Header.EnDashExample | app.js:47 | `1/2/20, 9:05 – Ann: hi` is rejected as written and recognised with the intended class. |
| Media.IsMediaFile | app.js:259-261 | A name accepted as a media file always contains a `.`. |
| Media.GetMediaType | app.js:263-271 | A media file always gets a known kind. A name with a `.` and a known kind is a media file. |
| Media.TablesAgree | app.js:259-271 | The extension list of `isMediaFile` is, in order, the three kind tables each with a dot in front. |
| Media.ExtensionShape | app.js:260 | Every media extension starts with a dot, has at least four characters and contains no `/`. |
| Media.KnownExtensions | app.js:267-269 | Each extension of a kind table maps to that kind and contains no dot. |
| Media.MediaSuffixKnown | app.js:259-271 | The last extension of a media file has a known kind in the tables of `getMediaType`. |
| Media.KnownSuffixIsMedia | app.js:259-271 | A name with a `.` whose last extension has a known kind is a media file. |
| Media.NoDotNoMedia | app.js:259-271 | A name without a dot is never a media file, although `getMediaType` still classifies the whole name. |
| Media.KindOfLastExtension | app.js:266 | The kind of `prefix.ext` is the kind of the lower-cased `ext`. |
| Media.BaseName | app.js:210 | The base name contains no `/`, ends the path, and follows the last `/` when there is one. |
| Media.BaseNameOf | app.js:210 | The base name of `dir/name` is `name`. |
| Media.BaseNameKeepsSuffix | app.js:207-210 | A media suffix of the path is kept by its base name, so `getMediaType` of the base name sees the same extension. |
| Media.KeyIndex | app.js:211 | A found key is at the first position that holds it; "not found" means no position holds it. |
| Media.Lookup | app.js:211 | The lookup fails exactly when the key is absent, and otherwise returns a stored pair's value. |
| Media.Put | app.js:211 | Looking up the key just stored gives the stored value. |
| Media.PutSpec | app.js:211 | Storing under a key keeps the keys distinct and leaves every other key's lookup unchanged. |
| Media.CollectMedia | app.js:204-217 | The loop builds exactly the table the fold over the entries describes. |
| Media.AddFile | app.js:206-216 | One turn of the loop: an entry that is not a folder and is a media file is stored under its base name, and any other entry changes nothing. |
| Media.MediaTableWellformed | app.js:204-217 | The table has distinct keys, and every stored file is named by its key and has a known kind. |
| Media.MediaTableHas | app.js:204-217 | A base name is in the table exactly when some kept entry (not a directory, a media file) has that base name. |
| Media.MediaTableLast | app.js:211-215 | Under a base name shared by several entries, the table holds the file of the last such entry. |
| Media.LookupAfterKept | app.js:211-215 | After a kept entry, its base name maps to that entry's file. |
| Media.LookupAfterOther | app.js:207 | An entry that is skipped, or has another base name, leaves the lookup of a key unchanged. |
| Transcript.Open | app.js:65-72 | A header opens a message with the captured date and time, trimmed sender and text, the timestamp of the date and time, and no media. |
| Transcript.Continue | app.js:79-81 | A continuation line is appended after a line feed, untrimmed, and nothing else changes. |
| Transcript.Classify | app.js:54-77 | A line is skipped exactly when blank, opens a message exactly when it is not blank and matches a header, and is otherwise continuation text. |
| Transcript.ParseChat | app.js:41-89 | The loop returns the sorted fold of the classified lines: sorted by timestamp, and a permutation of the collected messages. |
| Transcript.BlankLineIgnored | app.js:54 | Removing a blank line anywhere leaves the messages unchanged. |
| Transcript.StaysInitial | app.js:79 | Lines that precede every header leave the parser in its initial state. |
| Transcript.LeadingLinesDropped | app.js:79-81 | Lines before the first header belong to no message. |
| Transcript.RunContinuations | app.js:79-81 | Non-header lines after an open message append their non-blank texts to it, in order. |
| Transcript.StepNotHeader | app.js:54-81 | A non-header line adds to the open message and pushes nothing. |
| Transcript.HeaderBlock | app.js:58-86 | A header and the lines up to the next header make exactly one message: the header's fields and its text followed by the continuation lines. |
| Transcript.CollectConcat | app.js:58-86 | Messages are collected block by block: for a second part that starts with a header, the messages of the whole are those of the first part followed by those of the second. |
| Transcript.MessagesFollowHeaders | app.js:58-86 | There is one message per header line, in line order. Each message has that header's date, time, sender and timestamp and no media. |
| Transcript.Insert | app.js:88 | Insertion adds exactly that one message (as a multiset) and loses none. The new first element is the message or the old first element. |
| Transcript.InsertSorted | app.js:88 | Insertion keeps a sorted list sorted. |
| Transcript.SortByTimestamp | app.js:88 | The result is sorted by timestamp and is a permutation of the input. |
| Transcript.InsertStable | app.js:88 | Among the messages with a given timestamp, the inserted one comes first and the others keep their order. No sortedness is needed. |
| Transcript.SortIsStable | app.js:88 | Messages with equal timestamps keep their original relative order, as the stable `Array.prototype.sort` does. |
| Linker.AlternativesAreKnownExtensions | app.js:221 | The extensions of the pattern's third alternative are, in order, those of the kind tables. |
| Linker.WordRun | app.js:221 | It measures the longest run of word characters. |
| Linker.WordDashRun | app.js:221 | It measures the longest run of word characters and dashes. |
| Linker.FileTokenAt | app.js:221 | An `IMG-`/`VID-`/`AUD-` token is at least seven characters long and lies inside the text. |
| Linker.FileTokenSound | app.js:221 | A token of the first alternative starts with `IMG-`, `VID-` or `AUD-` in any letter case, then has a run of word characters and dashes, a `.`, and one or more word characters. |
| Linker.FirstExtension | app.js:221 | A found extension is one of the alternatives, and it appears case-insensitively at that position. |
| Linker.ExtensionTokenAt | app.js:221 | A `.ext` token is at least two characters long and lies inside the text. |
| Linker.ExtensionTokenSound | app.js:221 | A token of the third alternative is a `.` followed by one of the listed extensions, in any letter case. |
| Linker.TokenAt | app.js:221-222 | A token found by the global match is non-empty and lies inside the text. |
| Linker.TokenAtSound | app.js:221 | Every match has the shape of one of the three alternatives. |
| Linker.TokensSound | app.js:221-222 | Every token the global match returns has the shape of one of the three alternatives. |
| Linker.NoTokenAt | app.js:221 | In a text without `.`, no match starts at a character other than `<`. |
| Linker.OnlyPlaceholderToken | app.js:221-222 | A body whose only `<` is that of `<Media omitted>`, and which has no `.`, yields exactly one token: the placeholder. |
| Linker.PlaceholderBodyTakesFirstFile | app.js:221-231 | Such a body, in a chat whose table is not empty, gets the table's first file as its media. |
| Linker.NoTokensWithoutDotOrAngle | app.js:221-222 | A text with neither `.` nor `<` has no media tokens. |
| Linker.FirstLinkIsFirst | app.js:225-230 | The file found for a token belongs to the first table entry that links to it. No file is found only when no entry links. |
| Linker.FindFile | app.js:225-230 | The inner loop with its `break` returns the first linking file. |
| Linker.FirstLinkAt | app.js:225-230 | Where the scan stops decides what is found. |
| Linker.LinkOne | app.js:222-232 | The loop over one message's tokens yields the media of the fold over its tokens. |
| Linker.LinkedMedia | app.js:222-232 | The media after the tokens is the initial media or one of the table's files. |
| Linker.LinkMessage | app.js:220-234 | Linking changes only the media, which stays as it was or becomes one of the table's files. |
| Linker.LinkAll | app.js:220-234 | Each message is linked on its own, and the number of messages does not change. |
| Linker.LinkMedia | app.js:220-234 | The `forEach` loop produces exactly the linked messages. |
| Linker.NoLinkKeepsMedia | app.js:225-230 | When no token links to any file, the media is left as it was. |
| Linker.LastLinkWins | app.js:224-231 | The media is the file of the last token that links, because `break` leaves only the inner loop. |
| Linker.LinkedFromTable | app.js:227-228 | Linked media is always a file of the table whose name and some token link. |
| Linker.LinkTouchesOnlyMedia | app.js:220-234 | Linking changes only the media. A body without tokens, or an empty table, leaves the message unchanged. |
| Linker.OmittedTakesFirstFile | app.js:227 | When the last token is `<Media omitted>`, the message gets the first file of the table, because the empty needle is in every name. |
| Assembly.Distinct | app.js:240 | The distinct values contain no duplicates and are the same set of values as the input. |
| Assembly.DistinctOfOne | app.js:240 | A list holding one value only reduces to that value. |
| Assembly.FirstIndex | app.js:240 | It returns the position of the first occurrence. |
| Assembly.DistinctInOrder | app.js:240 | The distinct values come in the order of their first appearance. |
| Assembly.Senders | app.js:240 | Each message's sender, in order. |
| Assembly.Shorten | app.js:242-244 | Names of at most 50 characters are kept. Longer ones become their first 47 characters followed by `...`, 50 in all. |
| Assembly.ChatName | app.js:237-245 | The name never exceeds 50 characters. |
| Assembly.ChatNameEmpty | app.js:238 | A chat without messages is `Unknown Chat`. |
| Assembly.ChatNameOneSender | app.js:241 | When one sender wrote everything, the name is that sender, shortened. |
| Assembly.ChatNameSenders | app.js:241 | With two different senders, the name is the distinct senders joined with `, `, shortened. |
| Assembly.LastMessage | app.js:251 | The result is the last message's text when that text is not empty. It is `No messages` when there are no messages or the last text is empty. It is never empty. |
| Assembly.LastTimestamp | app.js:252 | The result is the last message's timestamp when it is not 0. It is the clock reading when there are no messages or that timestamp is 0. |
| Assembly.FindTranscript | app.js:195 | It gives the first entry whose name ends in `.txt`; none means no name does. |
| Assembly.ChatSuffixIsTextSuffix | app.js:195 | `_chat.txt` names end in `.txt`, so the first test of the search never decides anything. |
| Assembly.ProcessArchive | app.js:190-256 | Without a transcript it fails with the message of app.js:197. Otherwise it returns the chat built from the first transcript, parsed with the given dash class (as written or intended). |
| Assembly.ChatOf | app.js:200-253 | The chat has the given id and the archive's media table. Its name, last message and timestamp are `ChatName`, `LastMessage` and `LastTimestamp` of its messages. |
| Assembly.NameChat | app.js:237-245 | The statements that name the chat compute `ChatName`: `Unknown Chat`, the single sender, or the distinct senders joined, shortened to 50 characters. |
| Assembly.ChatMessages | app.js:200-253 | For either dash class, the chat's messages are sorted by time, one per header line. Its name has at most 50 characters, and its last message is never empty. |
| Session.Without | app.js:467 | The filter keeps exactly the chats with another id, and never grows the list. |
| Session.WithoutConcat | app.js:467 | The filter works chat by chat, so the kept chats keep their order. |
| Session.WithoutAbsent | app.js:467 | Removing an id no chat has changes nothing. |
| Session.WithoutIdempotent | app.js:467 | Removing twice is removing once. |
| Session.WithoutCommutes | app.js:467 | Two removals commute. |
| Session.FindChat | app.js:313 | The lookup fails exactly when no chat has the id; a found chat is in the list and has the id. |
| Session.FindChatIsFirst | app.js:313 | The found chat is the first one with the id. |
| Session.RemovedNotFound | app.js:467 | After a removal, the id is not found any more. |
| Session.Pushed | app.js:170-172 | A batch never pushes more chats than it has archives. |
| Session.PushedSpec | app.js:170-182 | The pushed chats are the values of the leading successes, and the batch stops at a failure. |
| Session.Outcome | app.js:190-256 | An archive fails exactly when no entry name ends in `.txt`, and then with the message of app.js:197. A success carries the given id and the archive's media table. |
| Session.PushedFrom | app.js:170-172 | One turn of the batch loop either ends the batch or pushes the archive's chat. |
| Session.PushedAll | app.js:170-172 | A batch without failures pushes one chat per archive. |
| Session.ChatStore.constructor | app.js:2-3 | The viewer starts with no chats and no open chat. |
| Session.ChatStore.ImportArchive | app.js:190-256 | The result is the archive's outcome under the given dash class. On success the chat is appended to the list, otherwise the list is unchanged. The open chat is kept. |
| Session.ChatStore.UploadArchives | app.js:163-187 | The list grows by the chats of the leading successful archives, each parsed with the given dash class. The batch fails exactly when an archive lacked a transcript. |
| Session.ChatStore.OpenChat | app.js:311-313 | The id becomes current even when no chat has it, and the chat found for it is returned. |
| Session.ChatStore.RemoveChat | app.js:466-470 | The chats with the id are filtered out, and the open chat is closed only when it was that one. |
| Session.ChatStore.ClearAllChats | app.js:485-488 | On confirmation both the list and the open chat are cleared; otherwise nothing changes. |
| Session.ChatStore.Restore | app.js:522-546 | A backup whose `chats` is an array replaces the list, even when the array is empty, and reports its length. Anything else changes nothing. The open chat is kept either way. |

## Left out

- Rendering, modals, the media gallery, `formatDate`/`formatTime`, `escapeHtml`, `renderChatList`, alerts and loading indicators are user interface, not logic over the chat data.
- The sent/received guess made while rendering is left out because it is display logic.
- ZIP decompression (JSZip) is left out. An archive is the list of its entries (`ArchiveEntry`: name, directory flag, text) in the order of `Object.keys(zip.files)`. Integer-like names, which JavaScript would order first, are not reordered.
- `URL.createObjectURL` is the parameter `urlOf`, and blobs are not modelled.
- `JSON.parse` and `file.text()` are left out. A backup is given already parsed as `Backup`, and restored items are taken as chat records without validation.
- `downloadBackup` and its `setTimeout` are left out, because they only produce a file and touch no state.
- The asynchronous control flow is left out; archives are processed one after another, as the `await` in the loop forces.
- `Date.now()` and `Math.random()` are inputs: `id` and `now` for one archive, `ids` and `nows` for a batch.
- `new Date(y, m, d, h, min).getTime()` is the parameter `epoch`. Its calendar arithmetic, time zone and overflowing fields (such as month -1 or hour 99, or the 1900 offset for years below 100) are not modelled.
- Timestamp.ParseTimestamp: the `catch` fallback to `Date.now()` is not modelled, because it cannot be reached from a recognised header. The date and time always have three `/` fields and a `:` field.
- Text.Lower: lower-cases ASCII letters only. JavaScript's Unicode case mapping is not modelled.
- JavaScript strings are sequences of UTF-16 code units; here they are sequences of characters, so characters outside the Basic Multilingual Plane count once.
- A header line ending in `\r` with a non-empty text does not match, because `.` excludes line terminators. A CRLF transcript therefore loses its headers, and the model keeps that behaviour.
- Relinking media after a restore does not exist in the code, which only replaces the list and keeps blob URLs as they are.

In three places the code does not do what one might expect; the model follows the code:

- Linking: the last token that links to a file decides a message's media, not the first (`Linker.LastLinkWins`).
- Upload: a batch stops at the first archive without a transcript, and the chats pushed before it remain (`Session.ChatStore.UploadArchives`).
- Restore: the open chat's id is kept (`Session.ChatStore.Restore`).

## Findings

| source | as written | input that shows it | evidently intended | confidence | as-written member | corrected member |
|---|---|---|---|---|---|---|
| app.js:47 | The dash class `[-â€“]` is the UTF-8 encoding of an en dash read as Windows-1252. It accepts `-`, `â`, `€` and `“`, but not the en dash. | `1/2/20, 9:05 – Ann: hi` is not a header, so it is appended to the previous message (`Header.EnDashExample`) | `[-–]`: a hyphen or an en dash | not executed | Header.EnDashRejectedAsWritten | Header.EnDashAcceptedIntended |

The assembly and session operations (`Assembly.ChatOf`, `Assembly.ProcessArchive`, `Session.Outcome`, `Session.ChatStore.ImportArchive`, `Session.ChatStore.UploadArchives`) take the dash class as a parameter. With `Header.AsWrittenDashes` they describe the program as written; with `Header.IntendedDashes` they describe the corrected one.
