# Verified model of the nbs chat tools

This project models the file-based chat store of `nbs-chat`, and some self-contained algorithms beside it, and proves
what they keep. Check it with `dafny verify dfyconfig.toml`.

- **The chat store.** `Base64`, `Decimal`, `TextFile`, `Participants`, `Wire` and `ChatFile` say what the bytes of a
  chat file mean (`Numerals`, `MessageText`, `ChatReading` and `TableText` for texts of any kind, `Base64Bits` and
  `Layout` letter by letter); `ChatState` holds the loops and the in-place state of the C code, each proved equal to
  its specification on every input. `ChatStore` is a step machine over these bytes: any number of `chat_send` calls,
  one lock, one shared temporary file, archives, and a failure or a death between any two steps; `ChatArchives` is
  about its archives and about runs that archive (`HeaderRoom` about their header), `ChatFull` about chats that take
  no more messages, `ChatUnfit` about messages that are too long for the reader, `ChatCut` and `CutTable` about
  chat_truncate. `Cursors` is the read-cursor file, `Delivery` the window of one read, and `DeliveryRuns` follows one
  reader over whole runs (`DeliverySteps` ties its archive step to `ChatStore`).
- **The event bus.** `BusDedup` is the scan-then-publish protocol with acknowledgements in between, `BusPublish` says
  what it publishes, `BusPrune` is the oldest-first pruning.
- **Line lexers.** `JsLexer` and `PyLexer` prove the per-line tokenisers equal to a byte-at-a-time automaton over the
  whole document; `JsText` and `PyText` (with `SourceText`) tie these to documents written piece by piece, `Numbers`
  is the grammar of numbers, `Highlight` holds what they share, `KeywordTables` the tables of the program, `SpanLimit`
  a line that is too much for the renderer.
- **Smaller cores.** `ShellQuote` (quoting against POSIX word splitting), `Mentions` and `Terminal` (extraction,
  filter and highlighting of @mentions, and what a terminal shows of it), `Undo` (the two stacks of the editor),
  `KeyValue`, `Hub`, `HubAudit` and `HubRuns` (the state file and the audit gate).

A *legal handle* is 1 to 63 bytes without NUL, CR, LF, `(`, `,`, `|`, `=` and without `": "`, does not begin or end
with a blank and does not begin with `#`. A message *fits* when it has no NUL and its encoded line fits one fgets
call. Clocks, the results of other programs, the order of readdir and of qsort, and the local time as text are
parameters. Stamps are 64-bit; other integers are unbounded where the C code cannot reach its limits, and the places
where it can are in the contracts.

Where the code does less than its comments say, the model follows the code:

- an archive step leaves a cursor below 1000 at 0, which means "message 0 read" and not "none read"
  (src/nbs-chat/chat_file.c:495-497; `DeliveryRuns.OpMoves` says what a reader misses);
- `chat_auto_archive` can report failure after the archive exists and even after the live file is trimmed
  (src/nbs-chat/chat_file.c:437-471 and 511-520). No message is lost, but in the first case the next send archives the
  same thousand messages again (`ChatArchives.SameSliceTwice`, `ChatArchives.ArchivedTwice`); in the second the
  cursors stay unshifted and other readers miss the next thousand (`DeliveryRuns.StepMisses`). Its header check
  (404-407) never fails (`HeaderRoom.HeaderAlwaysFits`);
- the cursor that `chat_send` writes after giving the lock back is not always "at our message or later, which is
  correct either way" (src/nbs-chat/chat_file.c:1193-1205): it can be a thousand too high for each archive step in
  between, and it can go back (`DeliveryRuns.LateCursor`);
- `cmd_delete` and `cursor-set` leave cursors beyond the file, which make readers miss what comes next
  (`DeliveryRuns.StaysInRange`, `DeliveryRuns.BeyondMisses`, `DeliveryRuns.EmptiedMisses`), and `cmd_read` prints the
  same messages again when its cursor write fails (src/nbs-chat/main.c:420-423; `DeliveryRuns.ReadShows`);
- a phase name may have line feeds or be too long to be read back (src/nbs-hub/main.c:28-36): then it can lift the
  refusal of spawns, and no gate passes with it (`HubRuns.NameTaken`, `HubRuns.SpawnNotRefused`,
  `HubRuns.GateNeverPasses`);
- `bus_prune` sees at most 256 files (src/nbs-bus/bus.c:964), so a larger directory can stay above the limit
  (`BusPrune.DirectoryLimit`, `BusPrune.CrowdStaysAbove`);
- `bus_publish_dedup` publishes without a look at the other events when it gets no lock or cannot open the directory
  (src/nbs-bus/bus.c:1200-1233; `BusDedup.UncheckedTwins`);
- `chat_send` stores messages whose lines no reader can hold (`ChatUnfit.ReadBackIff`, `ChatUnfit.UnfitReads`), and
  `chat_cursor_write` stores entries under handles cut to 63 characters, which a reader with the full handle never
  finds (`Cursors.UnreadableNeverRead`, `Cursors.LongWritesPileUp`);
- `base64_decode` lets through one length of input whose result is above INT_MAX, and then an assertion ends the
  process (src/nbs-chat/base64.c:215 and 345; `Base64.LimitLetsThrough`);
- `chat_truncate` has no guard on the participants header; chats that were only sent to do not need it
  (`ChatCut.SentChatShortens`), a file with more authors than its header names does (`ChatCut.ManyAuthors`);
- the 10001st line of a chat file is kept but never shown (src/nbs-chat/chat_file.c:699 and 968), so a send then adds
  a message that no reader sees (`ChatFile.SendThenRead` has the exact condition); unless an archive step is still
  under way, every later send then ends in an assertion (`ChatFull.FrozenForGood`);
- a gate counts as passed once its checks succeed, even when archiving its files then fails
  (src/nbs-hub/hub.c:873-906).

## Model

| member | source | states |
|---|---|---|
| ChatStore.StepKeepsInv | src/nbs-chat/chat_file.c:250-542 | every step of every call (acquire, two reads, write temp, rename, archive, trim, release, failure, death) keeps: live file = rendering of history from the cut on, archives = 1000-message slices, every index below the cut in some archive, one lock holder |
| ChatStore.RunKeepsInv | src/nbs-chat/chat_file.c:844-1212 | the same over every run of any number of calls, and the history only grows |
| ChatStore.InitInv | src/nbs-chat/chat_file.c:577-634 | a file as chat_create leaves it satisfies the invariant |
| ChatStore.NothingLost | src/nbs-chat/chat_file.c:250-542 | in every reachable state chat_read finds each committed message in an archive file, or in the live file iff it is among the first 10000 there |
| ChatStore.ReaderSees | src/nbs-chat/chat_file.c:636-842 | a reader without the lock sees a contiguous piece of history to its end, a true length header, the last writer, and participants that count all messages ever sent |
| ChatStore.SendExactlyOnce | src/nbs-chat/chat_file.c:852-860 | a returned call gave 0 iff its message is in the history, then once; the history is in lock order |
| ChatStore.RenameInstalls | src/nbs-chat/chat_file.c:1055-1150 | with one shared temp path the rename still installs exactly what the lock holder computed from the file it replaces |
| ChatStore.OneHolder | src/nbs-chat/chat_file.c:844-1212 | given that the lock is exclusive, at most one call is in the steps between acquiring and releasing it, deaths and failures included |
| ChatStore.StepKeepsOrder | src/nbs-chat/chat_file.c:1087-1150 | the commits stay a subsequence of the lock grants |
| ChatStore.ComputePrepares | src/nbs-chat/chat_file.c:855-1053 | what a holder computes from two separate looks at the live file is the chat with its message appended, or it dies by an assertion |
| ChatStore.RenameKeeps | src/nbs-chat/chat_file.c:1139-1150 | installing the new file moves the history by exactly the sender's message |
| ChatStore.RenameArchiveKeeps | src/nbs-chat/chat_file.c:298-388 | a renamed archive adds a slice and loses none |
| ChatStore.RenameTrimKeeps | src/nbs-chat/chat_file.c:466-471 | the trimmed file may replace the live one because the cut-off thousand is already archived |
| ChatStore.OpenTrimPrepares | src/nbs-chat/chat_file.c:390-437 | the trimmed contents are the legal file of the remaining messages |
| ChatStore.QuietKeeps | src/nbs-chat/chat_file.c:1064-1121 | failures, deaths, lock and temp-file steps leave chat and archives alone |
| ChatStore.ArchivedFound | src/nbs-chat/chat_file.c:321-388 | a covered index is readable in the archive that covers it |
| ChatStore.SendCompletes | src/nbs-chat/chat_file.c:844-1212 | whatever failed before: with the lock free and room left, a new send has a run that stores its message and returns 0 |
| ChatFull.SendPossible | src/nbs-chat/chat_file.c:844-1212 | with the lock free a new call can return 0 in some run, of it and of any others, iff the chat is not too full for it |
| ChatFull.FrozenForGood | src/nbs-chat/chat_file.c:967-969 | with 10001 lines and no archive step under way no run of any calls changes the live file or the history again |
| ChatFull.BarredForGood | src/nbs-chat/chat_file.c:893-911 | an author for whom the participants buffer has no room never gets a message in, whatever the others send |
| ChatArchives.SendArchives | src/nbs-chat/chat_file.c:1152-1176 | above the threshold such a send also has a run that archives the oldest thousand, trims the live file, frees the lock and returns 0; at most 2000 messages stay iff fewer than 3000 were there |
| HeaderRoom.HeaderAlwaysFits | src/nbs-chat/chat_file.c:390-407 | with fewer than 2^31 messages the header of the trimmed file fits its buffer, whoever wrote how many of them |
| ChatArchives.StepKeepsStarts | src/nbs-chat/chat_file.c:298-471 | every step keeps: archives begin at multiples of 1000 up to the cut, and one begins at the cut iff no trim has followed it |
| ChatArchives.SlicesApart | src/nbs-chat/chat_file.c:321-388 | two archive files hold the same thousand messages or have none in common |
| ChatArchives.ArchivedTwice | src/nbs-chat/chat_file.c:383-471 | two hold the same iff one was made while another still waited for its trim |
| ChatArchives.SameSliceTwice | src/nbs-chat/chat_file.c:400-471 | a reachable state with two archives of the first thousand messages |
| ChatArchives.UnreadableReached | src/nbs-chat/chat_file.c:699-699 | a reachable state with a message that is in no archive and that no reader of the live file finds: the last of 10001 lines |
| ChatFile.ReadRender | src/nbs-chat/chat_file.c:661-821 | chat_read of a legal file gives its header fields, the true byte count as file-length, its participants and its messages, up to 10000 of them |
| ChatReading.ReadIs | src/nbs-chat/chat_file.c:636-842 | for any file at all: reading ends the process iff a looked-at line carries a message with a NUL; otherwise each field has the value of the last header line that sets it, the messages are those of the body up to 10000, and the skipped count that of the corrupt lines looked at |
| ChatReading.LineRead | src/nbs-chat/chat_file.c:699-821 | below that limit a body line adds the message it carries, counts as skipped iff it is no base64 text, or is ignored |
| ChatReading.CollectIs | src/nbs-chat/chat_file.c:937-994 | the second pass of chat_send copies what is behind the first delimiter behind the first marker, blank lines left out |
| MessageText.ParsedIff | src/nbs-chat/chat_file.c:742-812 | a decoded line is a message iff it splits at its first ": " into a front with a handle of 1 to 63 characters, and a stamp or none, and a text without NUL; with a NUL the process ends; everything else is ignored |
| Layout.ChatLayout | src/nbs-chat/chat_file.c:1019-1097 | the text of a legal chat written out, with its own length in it |
| Layout.CharacterClasses | src/nbs-common/nbs_mention.h:18-35 | the character classes of the scanners for mentions and source text, letter by letter |
| ChatFile.SendAppends | src/nbs-chat/chat_file.c:844-1053 | chat_send on a legal file aborts iff participants or lines exceed its limits, and otherwise writes the legal file with one message more |
| ChatFile.SendThenRead | src/nbs-chat/chat_file.c:862-1053 | after a send the reader sees the old messages plus exactly the new one iff fewer than 10000 were stored |
| ChatArchives.FullChatHidesNext | src/nbs-chat/chat_file.c:699-699 | a legal chat of 10000 messages, to which a send succeeds and changes nothing that is read |
| ChatUnfit.UnfitReads | src/nbs-chat/chat_file.c:661-812 | a message whose line is longer than the reader's buffer is stored with success; a reader never aborts on it and has the old messages and, if the last of the pieces of the line starts with a block, what that piece decodes to |
| ChatUnfit.UnfitNotReadBack | src/nbs-chat/chat_file.c:661-812 | it is never read back itself |
| ChatUnfit.OtherAuthorSeen | src/nbs-chat/chat_file.c:661-812 | a message after which readers see one of another author instead |
| ChatUnfit.ReadBackIff | src/nbs-chat/chat_file.c:661-727 | a message that chat_send accepts is read back iff its line fits the buffer and fewer than 10000 messages were there |
| ChatFile.LengthHeaderTrue | src/nbs-chat/chat_file.c:1123-1135 | the file-length header equals the size of the file that contains it |
| ChatFile.CollectRender | src/nbs-chat/chat_file.c:937-994 | the raw line scan finds exactly the message lines |
| ChatFile.EncodedLineClean | src/nbs-chat/chat_file.c:661-727 | no encoded message looks like padding or is split by fgets |
| ChatFile.FitsExactly | src/nbs-chat/chat_file.c:661-667 | 786429 wire bytes are exactly what one fgets call can hold once encoded |
| ChatFile.NotHeaderLine | src/nbs-chat/chat_file.c:669-678 | no encoded message looks like the marker or the delimiter |
| ChatFile.ArchiveSplits | src/nbs-chat/chat_file.c:321-427 | archive and trimmed file hold the first thousand messages and the rest, header fields unchanged |
| ChatFile.ShortenKeeps | src/nbs-chat/chat_file.c:1214-1394 | with few enough authors chat_truncate leaves the legal file of the kept messages with their histogram |
| ChatFile.ShortenReads | src/nbs-chat/chat_file.c:1319-1394 | with any number of authors readers then see exactly the kept messages, the author of the last of them as last writer, and their histogram iff its text has at most 4096 characters |
| ChatCut.SentChatShortens | src/nbs-chat/chat_file.c:1214-1394 | on every chat that sends made, with any failures and deaths, chat_truncate leaves the legal file of the kept messages |
| ChatCut.ManyAuthors | src/nbs-chat/chat_file.c:1319-1394 | a file whose header names fewer authors than it has, where the new header loses some |
| CutTable.CutFormat | src/nbs-chat/chat_file.c:102-190 | the front of a printed table parses as the whole table iff nothing but its last parenthesis is missing |
| ChatFile.AppendLegal | src/nbs-chat/chat_file.c:893-911 | a chat that passes the guards stays legal |
| ChatFile.RenderSize | src/nbs-chat/chat_file.c:1019-1026 | a file of at most 10001 lines has a size that fits in 64 bits |
| ChatState.State.Read | src/nbs-chat/chat_file.c:636-842 | the reading loop on the in-place state computes the reader's fold, aborts included |
| ChatState.State.ReadHeaderField | src/nbs-chat/chat_file.c:680-697 | one header line |
| ChatState.State.ReadMessage | src/nbs-chat/chat_file.c:699-821 | one message line: skip, count as corrupt, ignore, abort or append |
| ChatState.CollectLines | src/nbs-chat/chat_file.c:937-994 | the loop collects the raw lines and aborts above 10000 |
| ChatState.WriteFile | src/nbs-chat/chat_file.c:1019-1097 | the two passes write the text whose length header is its length |
| ChatState.ChatSend | src/nbs-chat/chat_file.c:844-1097 | the whole computation of chat_send equals its specification on every input |
| ChatState.AutoArchive | src/nbs-chat/chat_file.c:298-464 | the two files of an archive step, and when the header buffer makes it give up half way |
| ChatState.ChatTruncate | src/nbs-chat/chat_file.c:1214-1432 | the whole computation of chat_truncate equals its specification |
| ChatState.Recount | src/nbs-chat/chat_file.c:1319-1325 | the recount loop is the tally of the kept authors |
| Wire.WireRoundTrip | src/nbs-chat/chat_file.c:742-812 | parsing "handle\|EPOCH: content" gives back handle, content and max(epoch, 0): the first ": " and the bar split right |
| Wire.SignedRoundTrip | src/nbs-chat/chat_file.c:756-773 | the signed form gives the same message iff the signature has no ": " in it |
| Wire.UnstampedRoundTrip | src/nbs-chat/chat_file.c:787-790 | the form without a stamp reads with stamp 0 |
| Wire.EncodedLineIsBase64 | src/nbs-chat/chat_file.c:862-891 | the encoded line is base64 text and decodes and parses to the message |
| Wire.EpochRoundTrip | src/nbs-chat/chat_file.c:774-785 | every 64-bit stamp reads back, non-positive ones as none |
| TextFile.LinesUnlines | src/nbs-chat/chat_file.c:661-667 | the fgets loop recovers the lines that were written |
| Participants.FormatParticipants | src/nbs-chat/chat_file.c:155-190 | the two-snprintf loop yields the list, or its front that fits the buffer |
| Participants.GuardPreventsTruncation | src/nbs-chat/chat_file.c:905-911 | count * 78 < 4096 keeps the formatter from truncating |
| Participants.ParseParticipants | src/nbs-chat/chat_file.c:102-153 | the pointer loop equals the entry-by-entry parser |
| Participants.ParseFormat | src/nbs-chat/chat_file.c:102-190 | parsing inverts formatting for legal handles and counts |
| Participants.ReadChatParticipants | src/nbs-chat/bus_bridge.c:143-179 | the bridge's pointer loop equals its entry-by-entry parser |
| Participants.BridgeAgrees | src/nbs-chat/bus_bridge.c:110-186 | the bridge finds the same handles on the same line |
| TableText.CountedEntry | src/nbs-chat/chat_file.c:102-153 | on any line, what is read of "handle(count)" behind separators and where the reading goes on; a count is a number of up to 15 characters that fits an int, else 0 |
| TableText.BareEntry | src/nbs-chat/chat_file.c:102-153 | a handle without a count has 0 |
| TableText.ListEnds | src/nbs-chat/chat_file.c:102-153 | and where the list ends |
| TableText.BridgeCounted | src/nbs-chat/bus_bridge.c:143-179 | the same for the bridge, which leaves out handles that are empty or too long and goes on |
| TableText.BridgeLast | src/nbs-chat/bus_bridge.c:143-179 | and where its list ends |
| Participants.UpdateParticipants | src/nbs-chat/chat_file.c:192-212 | the table after one more message, the rest of the array untouched |
| Participants.UpdateKeepsHistogram | src/nbs-chat/chat_file.c:192-212 | one update keeps: distinct authors in first-appearance order, each with its number of messages |
| Participants.TallyIsHistogram | src/nbs-chat/chat_file.c:1319-1325 | counting a list from scratch gives its histogram |
| Participants.HistogramUnique | src/nbs-chat/chat_file.c:192-212 | the histogram determines the table |
| Decimal.ComputeFileLength | src/nbs-chat/chat_file.c:67-100 | one correction step gives a self-consistent size, and the least one |
| Decimal.CorrectionSuffices | src/nbs-chat/chat_file.c:73-85 | after one correction the digit count is stable |
| Decimal.ParsePrint | src/nbs-chat/chat_file.c:24-48 | strtol reads back printf, alone or before a line end, iff in range |
| Numerals.ParseIff | src/nbs-chat/chat_file.c:24-48 | the checked reader takes exactly the texts of blanks, at most one sign and digits before the end or a line end, whose number is in the range |
| Cursors.CursorRead | src/nbs-chat/chat_file.c:1543-1583 | the loop returns the first entry of the handle, -1 or -2 |
| Cursors.CursorWrite | src/nbs-chat/chat_file.c:1585-1663 | for any handle the loop writes the table with every entry of the handle updated, or one added under its first 63 characters |
| Cursors.UnreadableNeverRead | src/nbs-chat/chat_file.c:1543-1583 | a handle of 64 or more characters, with "=" or a line feed, or with "#" in front, reads back from no file |
| Cursors.LongWritesPileUp | src/nbs-chat/chat_file.c:1628-1645 | so each of n writes for it adds one more entry, until the table is full |
| Cursors.ArchiveCursors | src/nbs-chat/chat_file.c:477-524 | the loop writes the table with every index shifted |
| Cursors.ReadAfterWrite | src/nbs-chat/chat_file.c:1543-1680 | for every other handle reading after writing gives the new index and leaves the others alone, unless the table is full and lacks the handle |
| Cursors.ReadBackIff | src/nbs-chat/chat_file.c:1543-1680 | an index reads back iff the handle is readable and the table knows it or has room |
| Cursors.ReadAfterArchive | src/nbs-chat/chat_file.c:494-499 | after an archive step an index is max(index - 1000, 0), a missing one stays missing |
| TableText.LookupIs | src/nbs-chat/chat_file.c:1543-1583 | for any file the index is that of the first entry of the handle, -2 if that is no number in the range of int, -1 without an entry |
| Delivery.Window | src/nbs-chat/main.c:363-391 | size and place of the window that the time, offset and last filters leave |
| Delivery.UnreadFrom | src/nbs-chat/main.c:326-348 | the part shown is exactly what lies above the cursor; a cursor beyond the file is set back so that only messages to come are above it |
| Delivery.UnreadStart | src/nbs-chat/main.c:326-348 | the statements compute that |
| DeliveryRuns.OpMoves | src/nbs-chat/main.c:326-424 | where each step leaves a reader: archive steps with and without their cursor shift, own and other messages, reads, truncations and cursor settings |
| DeliveryRuns.StepMisses | src/nbs-chat/chat_file.c:473-536 | so a step makes a reader miss exactly the messages up to there, or shows it again those back to there |
| DeliveryRuns.ReadShows | src/nbs-chat/main.c:398-424 | a read shows exactly the messages behind the cursor, and the next one shows them again iff the cursor write failed |
| DeliveryRuns.RunBalances | src/nbs-chat/main.c:326-424 | over every run of all these steps each message was shown or missed once, and once more for each time the cursor went back over it |
| DeliveryRuns.RunDelivers | src/nbs-chat/main.c:326-424 | over every run of sends and reads whose cursor writes follow at once, nothing is shown twice, all in order, and shown and missed together are what the cursor passed |
| DeliveryRuns.LateCursor | src/nbs-chat/chat_file.c:1186-1205 | a send whose cursor is written late puts it behind its message plus all that was archived in between, also back over what its author has read since |
| DeliveryRuns.StaysInRange | src/nbs-chat/chat_file.c:473-536 | a cursor gets beyond the file only by a trim without shift, a truncation below it or a setting beyond the file, the late ones included; the last two always do it |
| DeliveryRuns.BeyondMisses | src/nbs-chat/main.c:338-348 | with a cursor beyond the file the next message is missed, unless a read of a chat that is not empty comes before |
| DeliveryRuns.EmptiedMisses | src/nbs-chat/main.c:1093-1118 | after everything was deleted not even that read helps |
| DeliveryRuns.FullTableRepeats | src/nbs-chat/chat_file.c:1635-1640 | a reader without an entry in a full table is shown everything again |
| DeliverySteps.ArchiveDue | src/nbs-chat/chat_file.c:1152-1176 | a new archive file can be put in place iff the live file has more than 2000 messages, which are the sends that `DeliveryRuns` takes as archiving |
| DeliverySteps.TrimIsArchiveStep | src/nbs-chat/chat_file.c:466-471 | the rename of the trimmed file leaves the chat that its archive step leaves |
| Base64.DecodeEncode | src/nbs-chat/base64.c:141-170 | decoding an encoding gives the bytes back, for all byte strings |
| Base64.EncodeDecode | src/nbs-chat/base64.c:304-339 | encoding a decoding gives the text with the unused bits of its last sextet cleared |
| Base64.CanonicalIff | src/nbs-chat/base64.c:304-339 | so the text comes back iff those bits are zero |
| Base64.GrammarIsValidated | src/nbs-chat/base64.c:243-291 | the position-by-position checks accept exactly (A{4})*(A{4}, A{3}= or A{2}==) |
| Base64.EncodedLengthIs | src/nbs-chat/base64.c:133-139 | the size formula counts four characters for every started group of three bytes |
| Base64Bits.TablesAreAlphabet | src/nbs-chat/base64.c:24-105 | the encoding table is the alphabet of RFC 4648 letter by letter, the decoding table the place in it, 64 for padding and 255 for all else |
| Base64Bits.CharacterOf | src/nbs-chat/base64.c:141-170 | character k of an encoding is the letter at the number that the bits 6k to 6k+5 of the input make, or padding where no bit is left |
| Base64.EncodeBuffer | src/nbs-chat/base64.c:107-195 | -1 iff the buffer is too small, else the encoding, a NUL and the rest untouched |
| Base64.DecodeBuffer | src/nbs-chat/base64.c:197-349 | the process ends iff an assertion on the input, the buffer or the result length fails; -1 iff not in the grammar after stripping or too long for the buffer; else the bytes, the rest untouched |
| Base64.LimitLetsThrough | src/nbs-chat/base64.c:206-218 | the limit on the input leaves exactly one length whose result an int cannot count, unless it is padded twice |
| Base64.Validate | src/nbs-chat/base64.c:252-291 | the validation loop decides the grammar |
| Highlight.KwLookup | src/nbs-md-viewer/md_lang_js.c:21-37 | the prefix-comparing binary search finds a word iff it is in the strictly sorted table, and terminates |
| Highlight.StrncmpOrders | src/nbs-md-viewer/md_lang_js.c:28-34 | what the sign of strncmp says about the order, entries that extend the word included |
| KeywordTables.TablesSorted | src/nbs-md-viewer/md_lang_js.c:213-270 | the keyword and type tables of JavaScript, TypeScript and Python are strictly sorted |
| KeywordTables.HighlightJs | src/nbs-md-viewer/md_lang_js.c:233-276 | so a JavaScript or TypeScript fence is highlighted right with these tables iff no line needs more than 128 spans |
| KeywordTables.HighlightPy | src/nbs-md-viewer/md_lang_py.c:47-65 | the same for a Python fence |
| SpanLimit.OperatorsOverflow | src/nbs-md-viewer/md_render.c:563-565 | a line of 129 operators needs more spans, in each of the languages |
| Highlight.TileCovers | src/nbs-md-viewer/md_lang_js.c:39-47 | in a tiling every column lies in exactly one span |
| JsLexer.Tokenise | src/nbs-md-viewer/md_lang_js.c:51-209 | the spans tile the line up to the end iff the line needs no more spans than there is room for, each byte has the automaton's class, tokens are right and the carried context is the automaton's |
| JsLexer.SpansDetermined | src/nbs-md-viewer/md_lang_js.c:51-209 | only one list of spans is right for a line |
| JsLexer.HighlightFence | src/nbs-md-viewer/md_render.c:531-590 | line by line with carried context every byte of the document gets the class of a byte-at-a-time automaton over the whole text iff no line needs more spans than the array has |
| JsLexer.ReachesEnd | src/nbs-md-viewer/md_lang_js.c:39-47 | a tokeniser that stops only when its array is full gets to the end of a line iff the line needs no more spans |
| JsLexer.LineInText | src/nbs-md-viewer/md_render.c:544-565 | the automaton on a line is the automaton on the text at its place |
| JsLexer.CodeSpanMeans | src/nbs-md-viewer/md_lang_js.c:97-205 | a span of code is a number iff one starts there, and then the longest front of the rest of the line that is one; a whole word, keyword or type iff it is in that table; white space in one piece; or one operator |
| JsLexer.NumberLongest | src/nbs-md-viewer/md_lang_js.c:166-189 | the end of a number is at least the end of every front that the grammar allows: digits, fraction, exponent or 0x with hexadecimal digits, and a last n |
| JsText.ClassesFollowPieces | src/nbs-md-viewer/md_lang_js.c:51-164 | for every text written as a row of comments, strings, templates and code in between the automaton gives each character the class of its piece |
| PyLexer.Tokeniser.Tokenise | src/nbs-md-viewer/md_lang_py.c:75-220 | the same for Python, with the remembered triple-quote delimiter as state |
| PyLexer.Tokeniser.HighlightFence | src/nbs-md-viewer/md_render.c:531-590 | whole documents, whatever delimiter an earlier fence left behind |
| PyLexer.LineInText | src/nbs-md-viewer/md_render.c:544-565 | the automaton on a line is the automaton on the text at its place |
| PyLexer.CodeSpanMeans | src/nbs-md-viewer/md_lang_py.c:107-216 | the same for Python, with decorators |
| PyLexer.NumberLongest | src/nbs-md-viewer/md_lang_py.c:162-191 | the same for its numbers: underscores, 0x, 0b and 0o forms, and a last j |
| PyText.ClassesFollowPieces | src/nbs-md-viewer/md_lang_py.c:75-160 | the same for rows of comments, quoted and triple-quoted strings |
| Numbers.DecimalLongest | src/nbs-md-viewer/md_lang_js.c:174-183 | no front of the rest that is made of digits, an optional fraction and an optional exponent ends later than the scan |
| BusDedup.StepKeepsInv | src/nbs-bus/bus.c:1193-1286 | every publisher step, those without lock or directory included, keeps: equal keys are apart if the later publisher saw the earlier event, and the scan has excluded what it visited |
| BusDedup.AckKeepsInv | src/nbs-bus/bus.c:851-895 | an acknowledgement at any moment keeps it |
| BusDedup.PendingApart | src/nbs-bus/bus.c:1193-1286 | in every reachable state two pending events with one key are further apart than the later publisher's window if that publisher scanned with the earlier one present, which is so whenever both scanned |
| BusDedup.UncheckedTwins | src/nbs-bus/bus.c:1199-1219 | a run without the lock that leaves two events with one key and one stamp |
| BusDedup.DroppedForReason | src/nbs-bus/bus.c:1266-1275 | in every reachable state a dropped event names an event with its key inside its window |
| BusPublish.PublishesIff | src/nbs-bus/bus.c:1193-1286 | an event that is offered while the lock is free and nothing else happens is published iff no pending event has its key and a stamp of at least max(time - window, 0) |
| BusPublish.Publishes | src/nbs-bus/bus.c:1275-1286 | then it is pending under the next name, with its key, the time and its window, and the lock is free again |
| BusPublish.Drops | src/nbs-bus/bus.c:1236-1273 | otherwise the scan ends at the first duplicate that it meets, the lock is free again and the directory as it was |
| BusPublish.NoEventOnlyByFailure | src/nbs-bus/bus.c:1193-1286 | in every run, with any others in between, a publisher returns without an event and without a duplicate only after a failure |
| BusPublish.PublishedAfterAck | src/nbs-bus/bus.c:851-895 | right after an acknowledgement an event is published iff the acknowledged one was its only duplicate |
| BusPrune.Bus.Prune | src/nbs-bus/bus.c:931-1027 | deletes the shortest oldest-first prefix that meets the limit, as far as unlink works, and touches nothing else; with at most 256 events and working unlinks the whole directory is then within the limit |
| BusPrune.Bus.ScanProcessed | src/nbs-bus/bus.c:964-995 | the first 256 event files of the listing and their total size |
| BusPrune.DirectoryTotal | src/nbs-bus/bus.c:959-1027 | what is left in the directory is the rest of the scanned entries, what was stuck and what was never scanned |
| BusPrune.DirectoryLimit | src/nbs-bus/bus.c:959-1027 | when every unlink works the directory ends within the limit iff the unscanned and the unvisited events fit in it, and always with at most 256 events |
| BusPrune.NewerKept | src/nbs-bus/bus.c:580-589 | whatever is kept is still there and not older than what went |
| BusPrune.ScanIsFront | src/nbs-bus/bus.c:959-964 | for any listing the scan finds the first 256 events, all of them if there are no more |
| BusPrune.EventsAre | src/nbs-bus/bus.c:964-987 | the events of a directory are its regular files with a name that ends in ".event" and begins with a time stamp, each with its stamp and size |
| BusPrune.CrowdStaysAbove | src/nbs-bus/bus.c:959-964 | a directory of 257 events that stays above the limit |
| ShellQuote.CommandRoundTrip | src/nbs-chat/remote.c:275-301 | POSIX word splitting of the command gives exactly the list of words, whatever they contain |
| ShellQuote.LexEscape | src/nbs-chat/remote.c:116-159 | an escaped argument is one word, and that word is the argument |
| ShellQuote.ShellEscape | src/nbs-chat/remote.c:116-159 | -1 iff the escaped text and its NUL do not fit (or exceed INT_MAX), else the escaped text |
| ShellQuote.CommandFits | src/nbs-chat/remote.c:231-259 | the command never outgrows its reservation |
| ShellQuote.BuildCommand | src/nbs-chat/remote.c:224-301 | with the reserved buffers it fails only on oversized words |
| Mentions.ExtractMentions | src/nbs-chat/bus_bridge.c:188-282 | the scan collects the mentions in order until the table is full |
| Mentions.ExtractionComplete | src/nbs-chat/bus_bridge.c:188-282 | below the limit: the distinct handles in first-occurrence order, each with its highest flag |
| Mentions.NoteSummary | src/nbs-chat/bus_bridge.c:251-271 | one more mention keeps that summary |
| Mentions.ContentMentions | src/nbs-chat/terminal.c:615-632 | true iff "@h" occurs somewhere |
| Mentions.OccursIsMention | src/nbs-chat/terminal.c:619-628 | for a proper handle an occurrence for the filter is a mention for the bridge |
| Mentions.ExtractedNames | src/nbs-chat/bus_bridge.c:188-282 | in general: the first distinct handles, as many as the table holds |
| Mentions.OccursNamed | src/nbs-chat/terminal.c:615-632 | the filter passes a message iff one of its mentions has the handle |
| Mentions.FilterAgrees | src/nbs-chat/terminal.c:615-632 | so it agrees with the extraction on all handles iff there are no more distinct ones than the table holds |
| Mentions.WriteHighlighted | src/nbs-chat/render.c:32-79 | the output is the content in pieces with the marked ones in inverse video |
| Mentions.PiecesKeepText | src/nbs-chat/render.c:41-78 | the pieces together are the content |
| Mentions.MarkedExactly | src/nbs-chat/render.c:59-72 | the marked pieces are exactly the occurrences of "@h" |
| Terminal.ScreenShows | src/nbs-chat/render.c:32-79 | a terminal that knows the two escape sequences shows a content without escapes letter by letter, inverse exactly in the occurrences of "@h" |
| Mentions.MentionIff | src/nbs-chat/bus_bridge.c:210-243 | a handle is mentioned exactly where an "@" that does not end an e-mail address stands before it and it is whole, of 1 to 63 characters |
| Mentions.MentionOfText | src/nbs-chat/bus_bridge.c:236-249 | a mark, a handle and what follows, written out: an interrupt iff "!" or a backslash and "!" follows, a query iff the same with "?", else neither |
| Mentions.UrgencyComplete | src/nbs-chat/bus_bridge.c:244-271 | a listed handle is a query iff some mention of it is followed by "?", an interrupt iff some is followed by "!" and none by "?" |
| Undo.UndoRestores | src/nbs-chat-edit/editor.c:171-250 | after any run of keys undoing everything restores exactly the marks of the messages that are not in `lost`; the stacks hold at most 256 entries together |
| Undo.MarksStay | src/nbs-chat-edit/editor.c:182-195 | t in a chat of more than 256 messages marks some that undoing everything leaves marked |
| Undo.QuitLosesNothing | src/nbs-chat-edit/editor.c:252-258 | after any run of keys q quits only with nothing marked |
| Undo.FalseAlarm | src/nbs-chat-edit/editor.c:171-258 | q begins to refuse with nothing marked exactly when d takes the last mark off |
| Undo.RedoAfterUndo | src/nbs-chat-edit/editor.c:197-246 | Ctrl-R after u restores marks and both stacks |
| Undo.UndoAfterRedo | src/nbs-chat-edit/editor.c:197-246 | u after Ctrl-R does too |
| Undo.RefusedPush | src/nbs-chat-edit/editor.c:62-69 | a change that the full stack refuses to record puts its message into `lost`, or out of it, iff the stack has no older entry for it |
| Undo.TogglesOne | src/nbs-chat-edit/editor.c:171-180 | d changes the mark under the cursor and no other, and moves down one message if there is one |
| Undo.MarksRest | src/nbs-chat-edit/editor.c:182-195 | t marks the message under the cursor and all below it, leaves those above as they are, and the cursor |
| Undo.PutsBack | src/nbs-chat-edit/editor.c:197-246 | u and Ctrl-R put back the mark of the entry that they take, change no other, and go there |
| Undo.Editor.KeyD | src/nbs-chat-edit/editor.c:171-180 | the toggle in place |
| Undo.Editor.KeyT | src/nbs-chat-edit/editor.c:182-195 | the truncating loop in place |
| Undo.Editor.KeyU | src/nbs-chat-edit/editor.c:197-221 | undo in place |
| Undo.Editor.KeyCtrlR | src/nbs-chat-edit/editor.c:223-246 | redo in place |
| KeyValue.StateRead | src/nbs-hub/hub.c:283-314 | the loop returns the first matching value, cut to the buffer |
| KeyValue.StateWrite | src/nbs-hub/hub.c:316-354 | the loop replaces every matching line or adds one |
| KeyValue.ReadAfterWrite | src/nbs-hub/hub.c:283-354 | the written key reads as the new value, every other key as before |
| KeyValue.ReadBack | src/nbs-hub/hub.c:283-354 | for any value: what reads back is its first line as far as both buffers hold it, and when that is the value |
| Hub.HubDir.constructor | src/nbs-hub/hub.c:488-499 | the first state file |
| Hub.HubDir.CmdSpawn | src/nbs-hub/hub.c:602-670 | the state file and exit code of a spawn, for any state file before |
| Hub.HubDir.CmdResult | src/nbs-hub/hub.c:686-727 | those of a result |
| Hub.HubDir.CmdAudit | src/nbs-hub/hub.c:759-831 | those of an audit |
| Hub.HubDir.CmdGate | src/nbs-hub/hub.c:833-920 | those of a gate |
| Hub.HubDir.CmdPhaseName | src/nbs-hub/main.c:28-36 | those of a phase name |
| Hub.PerformApplies | src/nbs-hub/hub.c:602-920 | on the file of a hub each command leaves the file of the hub with its fields changed as the command means |
| HubAudit.AuditAccepted | src/nbs-hub/hub.c:759-831 | for an audit text without NUL whose lines fit the buffer: exit code 0 and a reset counter and flag iff the copy works and each of the three sections has one of its words; else exit code 1 and the file as it was |
| HubAudit.ContainsIffHas | src/nbs-hub/hub.c:223-240 | in such a text the line-by-line search finds exactly the words that stand in it |
| HubAudit.NoAudit | src/nbs-hub/hub.c:764-769 | a missing or empty audit is refused |
| HubAudit.CutWordMissed | src/nbs-hub/hub.c:231-237 | a text with all three sections that is refused because the buffer cuts its one goal word |
| HubRuns.CommandReads | src/nbs-hub/hub.c:602-920 | the values of all five keys and the exit code after each command on the file of a hub |
| HubRuns.IntOf | src/nbs-hub/hub.c:700-712 | a number in the state file that an int cannot hold is taken modulo 2^32 |
| Layout.StateLayout | src/nbs-hub/hub.c:488-499 | the text of a state file written out |
| HubRuns.RunTracks | src/nbs-hub/hub.c:686-920 | over every run from a new file, with names that are one line of fewer than 256 characters, the counter in the file is the number of results since the last accepted audit, an audit is required iff that is at least 3, the phase counts the passed gates |
| HubRuns.SpawnRefused | src/nbs-hub/hub.c:613-624 | a spawn is refused exactly then |
| HubRuns.NameTaken | src/nbs-hub/main.c:28-36 | after a phase name the file reads as the hub with that name iff it has no line feed and fewer than 256 characters |
| HubRuns.NameCut | src/nbs-hub/main.c:28-36 | otherwise the name that reads back is its first line, up to 255 characters |
| HubRuns.GateNeverPasses | src/nbs-hub/hub.c:845-856 | and no gate passes with the whole name, whatever the file |
| HubRuns.SpawnNotRefused | src/nbs-hub/hub.c:613-624 | three results and a name of two lines after which a spawn is not refused |

## Left out

- ChatStore.NothingLost: takes archive names as fresh; two archive steps in the same second would share a name (src/nbs-chat/chat_file.c:265-296).
- ChatStore.ReaderSees: takes fewer than 2^31 messages; beyond that a participant count overflows in C.
- ChatStore.OneHolder: takes the exclusion of the fcntl lock (src/nbs-chat/lock.c:14-66) as given: acquiring it is one step that needs it free.
- DeliveryRuns.RunDelivers: takes each send, archive step and read with its cursor write as one step that succeeds, and a reader whose cursor entry exists; `DeliveryRuns.RunBalances` has no such assumption.
- DeliveryRuns.OpMoves: takes a live file of at most 10000 messages, which only archive steps that keep failing can exceed, and is about the table of cursors, which the file holds for readable handles (`Cursors.ReadAfterWrite`).
- BusPublish.PublishesIff: takes a run in which no other publisher, acknowledgement or tick comes in between; with them `BusDedup.PendingApart` and `BusPublish.NoEventOnlyByFailure` hold.
- HubAudit.AuditAccepted: takes a text without NUL and with lines of at most 4095 characters; `Hub.HubDir.CmdAudit` has the rest piece by piece.
- Terminal.ScreenShows: takes a content without escape characters and a proper handle.
- BusDedup.PendingApart: takes a clock that does not go back, and event files whose key can be read.
- HubRuns.RunTracks: takes one command at a time, fewer than 2^31 of them, and state writes that succeed; there is no lock in the source.
- Failing allocations are failing steps of `ChatStore`; in the sequential models they do not happen.
- The archive's own temporary file: writing and renaming it are one step of `ChatStore`, since its name is as fresh as the archive's.
- Cursor files inside `ChatStore`: its calls take the lock for them but their contents are in `Cursors` and `Delivery` only.
- `chat_truncate` as a step of `ChatStore`: it removes history on purpose; its result on a file is in `ChatFile.ShortenReads`, on a chat of `ChatStore` in `ChatCut.SentChatShortens`.
- `write_changes` of the editor and the reload behind it.
- The C and Pascal lexers and their tables, the style tables and the display widths of the markdown viewer.
- `chat_poll`, `cmd_export`, the ssh options and everything that draws or reads keys.
- Reading single events from their files, bus configuration and status.
- The locale: letters and digits are those of ASCII.
