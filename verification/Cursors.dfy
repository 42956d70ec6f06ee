/** The read-cursor file of a chat: chat_cursor_read, chat_cursor_write and the shift in chat_auto_archive. */
module Cursors {
  import opened Bytes
  import opened Limits
  import opened TextFile
  import opened Participants
  import Decimal

  const LINE_BUFFER: nat := 256

  /** The comment line, with its dash as the three bytes of UTF-8. */
  const HEADER: string := "# Read cursors " + [0xE2 as char, 0x80 as char, 0x94 as char]
    + " last-read message index per handle"

  datatype Cursor = Cursor(handle: string, index: int)

  /** The key and the value text of a "key=value" line; None for comments, blank and other lines. */
  function KeyValue(chunk: string): Option<(string, string)> {
    if chunk == "" || chunk[0] == '#' || chunk[0] == LF then None
    else
      var eq := Index(chunk, '=');
      if eq == |chunk| || eq >= MAX_HANDLE_LEN then None else Some((chunk[..eq], chunk[eq + 1..]))
  }

  function IndexOr(value: string, default: int): int {
    match Decimal.Parse(value, INT_MIN, INT_MAX)
    case Some(n) => n
    case None => default
  }

  /** chat_cursor_read: the first entry of the handle, -1 without one and -2 when it is no number. */
  function Lookup(chunks: seq<string>, handle: string): int {
    if chunks == [] then -1
    else
      match KeyValue(chunks[0])
      case Some(kv) => if kv.0 == handle then IndexOr(kv.1, -2) else Lookup(chunks[1..], handle)
      case None => Lookup(chunks[1..], handle)
  }

  /** The entries that the two rewriting loops load, at most `max` of them. */
  function Load(chunks: seq<string>, max: nat): seq<Cursor> {
    if chunks == [] || max == 0 then []
    else
      match KeyValue(chunks[0])
      case Some(kv) => [Cursor(kv.0, IndexOr(kv.1, 0))] + Load(chunks[1..], max - 1)
      case None => Load(chunks[1..], max)
  }

  function Text(c: Cursor): string { c.handle + "=" + Decimal.Print(c.index) }

  function Texts(cs: seq<Cursor>): (ls: seq<string>)
    ensures |ls| == |cs|
  {
    seq(|cs|, i requires 0 <= i < |cs| => Text(cs[i]))
  }

  function Render(cs: seq<Cursor>): string { Unlines([HEADER] + Texts(cs)) }

  /** Every entry of the handle gets the index; without one a new entry is added if there is room. */
  function Put(cs: seq<Cursor>, handle: string, index: int): (r: seq<Cursor>)
    ensures |cs| <= |r| <= |cs| + 1
  {
    if exists i :: 0 <= i < |cs| && cs[i].handle == handle then
      seq(|cs|, i requires 0 <= i < |cs| => if cs[i].handle == handle then Cursor(handle, index) else cs[i])
    else if |cs| < MAX_PARTICIPANTS then cs + [Cursor(Truncate(handle, MAX_HANDLE_LEN - 1), index)]
    else cs
  }

  function Shifted(index: int): int { if index < ARCHIVE_CLEAVE then 0 else index - ARCHIVE_CLEAVE }

  function Shift(cs: seq<Cursor>): (r: seq<Cursor>)
    ensures |r| == |cs| && forall i | 0 <= i < |cs| :: r[i] == Cursor(cs[i].handle, Shifted(cs[i].index))
  {
    seq(|cs|, i requires 0 <= i < |cs| => Cursor(cs[i].handle, Shifted(cs[i].index)))
  }

  /** The contents after chat_cursor_write; without a file there are no entries. */
  function Write(file: string, handle: string, index: int): string {
    Render(Put(Load(Chunks(file, LINE_BUFFER), MAX_PARTICIPANTS), handle, index))
  }

  /** The contents after an archive step. */
  function Archive(file: string): string {
    Render(Shift(Load(Chunks(file, LINE_BUFFER), MAX_PARTICIPANTS)))
  }

  // ---------- the loops ----------

  method CursorRead(file: string, handle: string) returns (result: int)
    ensures result == Lookup(Chunks(file, LINE_BUFFER), handle)
  {
    hide Chunks, KeyValue, IndexOr;
    var pos := 0;
    assert file[pos..] == file;
    while pos < |file|
      invariant pos <= |file| && Lookup(Chunks(file[pos..], LINE_BUFFER), handle)
                == Lookup(Chunks(file, LINE_BUFFER), handle)
    {
      var chunk;
      chunk, pos := NextChunk(file, pos, LINE_BUFFER);
      var kv := KeyValue(chunk);
      if kv.Some? && kv.value.0 == handle { return IndexOr(kv.value.1, -2); }
    }
    NoChunks(file[pos..], LINE_BUFFER);
    result := -1;
  }

  lemma LoadCons(chunk: string, rest: seq<string>, room: nat)
    requires room > 0
    ensures Load([chunk] + rest, room)
         == match KeyValue(chunk)
            case Some(kv) => [Cursor(kv.0, IndexOr(kv.1, 0))] + Load(rest, room - 1)
            case None => Load(rest, room)
  {
    hide KeyValue, IndexOr;
    assert ([chunk] + rest)[1..] == rest;
  }

  lemma LoadStep(loaded: seq<Cursor>, chunk: string, rest: seq<string>)
    requires |loaded| < MAX_PARTICIPANTS
    ensures loaded + Load([chunk] + rest, MAX_PARTICIPANTS - |loaded|)
         == match KeyValue(chunk)
            case Some(kv) => (loaded + [Cursor(kv.0, IndexOr(kv.1, 0))]) + Load(rest, MAX_PARTICIPANTS - |loaded| - 1)
            case None => loaded + Load(rest, MAX_PARTICIPANTS - |loaded|)
  {
    hide KeyValue, IndexOr, Load;
    LoadCons(chunk, rest, MAX_PARTICIPANTS - |loaded|);
  }

  lemma LoadDone(rest: seq<string>, room: nat)
    requires rest == [] || room == 0
    ensures Load(rest, room) == []
  {
  }

  /** `entries` is `loaded` with the index of the handle replaced. */
  ghost predicate Replaced(loaded: seq<Cursor>, entries: seq<Cursor>, handle: string, index: int) {
    |entries| == |loaded|
    && forall i | 0 <= i < |loaded| :: entries[i] == if loaded[i].handle == handle then Cursor(handle, index)
       else loaded[i]
  }

  lemma PutIs(loaded: seq<Cursor>, entries: seq<Cursor>, handle: string, index: int)
    requires Replaced(loaded, entries, handle, index)
    ensures Put(loaded, handle, index)
         == if Missing(loaded, handle) && |loaded| < MAX_PARTICIPANTS
           then entries + [Cursor(Truncate(handle, MAX_HANDLE_LEN - 1), index)] else entries
  {
    if Missing(loaded, handle) {
      assert entries == loaded;
    }
  }

  /**
   * The loading loop of chat_cursor_write: an entry of the handle gets its new index on the way; a new entry is
   * cut to the buffer.
   */
  method CursorWrite(file: string, handle: string, index: int) returns (text: string)
    ensures text == Write(file, handle, index)
  {
    hide Chunks, KeyValue, IndexOr, Render, Load, Put, Missing, Replaced;
    NothingLoaded(handle, index);
    var pos, found := 0, false;
    var entries: seq<Cursor> := [];
    ghost var loaded: seq<Cursor> := [];
    assert file[pos..] == file;
    while pos < |file| && |entries| < MAX_PARTICIPANTS
      invariant pos <= |file| && |entries| == |loaded| <= MAX_PARTICIPANTS
      invariant loaded + Load(Chunks(file[pos..], LINE_BUFFER), MAX_PARTICIPANTS - |loaded|)
                == Load(Chunks(file, LINE_BUFFER), MAX_PARTICIPANTS)
      invariant Replaced(loaded, entries, handle, index) && found == !Missing(loaded, handle)
      decreases |file| - pos
    {
      var chunk;
      chunk, pos := NextChunk(file, pos, LINE_BUFFER);
      LoadStep(loaded, chunk, Chunks(file[pos..], LINE_BUFFER));
      var kv := KeyValue(chunk);
      if kv.Some? {
        var entry := Cursor(kv.value.0, IndexOr(kv.value.1, 0));
        MissingSnoc(loaded, entry, handle);
        ReplacedSnoc(loaded, entries, entry, handle, index);
        loaded := loaded + [entry];
        if entry.handle == handle {
          entry, found := entry.(index := index), true;
        }
        entries := entries + [entry];
      }
    }
    if pos == |file| { NoChunks(file[pos..], LINE_BUFFER); }
    LoadDone(Chunks(file[pos..], LINE_BUFFER), MAX_PARTICIPANTS - |loaded|);
    assert loaded + [] == loaded;
    PutIs(loaded, entries, handle, index);
    if !found && |entries| < MAX_PARTICIPANTS {
      entries := entries + [Cursor(Truncate(handle, MAX_HANDLE_LEN - 1), index)];
    }
    text := Render(entries);
  }

  lemma MissingSnoc(cs: seq<Cursor>, c: Cursor, handle: string)
    ensures Missing(cs + [c], handle) == (Missing(cs, handle) && c.handle != handle)
  {
    assert (cs + [c])[|cs|] == c;
    assert forall i | 0 <= i < |cs| :: (cs + [c])[i] == cs[i];
  }

  lemma ReplacedSnoc(loaded: seq<Cursor>, entries: seq<Cursor>, c: Cursor, handle: string, index: int)
    requires Replaced(loaded, entries, handle, index)
    ensures Replaced(loaded + [c], entries + [if c.handle == handle then c.(index := index) else c], handle, index)
  {
  }

  lemma NothingLoaded(handle: string, index: int)
    ensures Replaced([], [], handle, index) && Missing([], handle)
  {
  }

  /** The cursor part of chat_auto_archive. */
  method ArchiveCursors(file: string) returns (text: string)
    ensures text == Archive(file)
  {
    hide Chunks, KeyValue, IndexOr, Render, Load;
    var pos := 0;
    var entries: seq<Cursor> := [];
    ghost var loaded: seq<Cursor> := [];
    assert file[pos..] == file;
    while pos < |file| && |entries| < MAX_PARTICIPANTS
      invariant pos <= |file| && |entries| == |loaded| <= MAX_PARTICIPANTS && entries == Shift(loaded)
      invariant loaded + Load(Chunks(file[pos..], LINE_BUFFER), MAX_PARTICIPANTS - |loaded|)
                == Load(Chunks(file, LINE_BUFFER), MAX_PARTICIPANTS)
      decreases |file| - pos
    {
      var chunk;
      chunk, pos := NextChunk(file, pos, LINE_BUFFER);
      LoadStep(loaded, chunk, Chunks(file[pos..], LINE_BUFFER));
      var kv := KeyValue(chunk);
      if kv.Some? {
        var index := IndexOr(kv.value.1, 0);
        loaded := loaded + [Cursor(kv.value.0, index)];
        index := index - ARCHIVE_CLEAVE;
        if index < 0 { index := 0; }
        entries := entries + [Cursor(kv.value.0, index)];
      }
    }
    if pos == |file| { NoChunks(file[pos..], LINE_BUFFER); }
    LoadDone(Chunks(file[pos..], LINE_BUFFER), MAX_PARTICIPANTS - |loaded|);
    assert loaded + [] == loaded;
    text := Render(entries);
  }

  // ---------- the file is a map ----------

  /** The handles under which an entry can be found again. */
  predicate Readable(handle: string) {
    && 0 < |handle| < MAX_HANDLE_LEN && handle[0] != '#'
    && '=' !in handle && LF !in handle && NUL !in handle
  }

  predicate LegalCursor(c: Cursor) {
    Readable(c.handle) && 0 <= c.index <= INT_MAX
  }

  predicate LegalCursors(cs: seq<Cursor>) {
    |cs| <= MAX_PARTICIPANTS && forall i | 0 <= i < |cs| :: LegalCursor(cs[i])
  }

  /** The index of the first entry of the handle, or -1. */
  function Get(cs: seq<Cursor>, handle: string): int {
    if cs == [] then -1 else if cs[0].handle == handle then cs[0].index else Get(cs[1..], handle)
  }

  lemma EntryRead(c: Cursor)
    requires LegalCursor(c)
    ensures KeyValue(Text(c) + "\n") == Some((c.handle, Decimal.Print(c.index) + "\n"))
    ensures Decimal.Parse(Decimal.Print(c.index) + "\n", INT_MIN, INT_MAX) == Some(c.index)
    ensures Whole(Text(c), LINE_BUFFER) && |Text(c)| <= 80
  {
    hide Decimal.Parse;
    var numeral, chunk := Decimal.Print(c.index), Text(c) + "\n";
    CountLength(c.index);
    assert forall k | 0 <= k < |numeral| :: IsDigit(numeral[k]);
    IndexAt(chunk, '=', |c.handle|);
    assert chunk[..|c.handle|] == c.handle && chunk[|c.handle| + 1..] == numeral + "\n";
    Decimal.ParsePrint(c.index, INT_MIN, INT_MAX, "\n");
  }

  lemma {:induction false} LoadTexts(cs: seq<Cursor>, max: nat, handle: string)
    requires (forall i | 0 <= i < |cs| :: LegalCursor(cs[i])) && |cs| <= max
    ensures Load(Chunks(Unlines(Texts(cs)), LINE_BUFFER), max) == cs
            && Lookup(Chunks(Unlines(Texts(cs)), LINE_BUFFER), handle) == Get(cs, handle)
  {
    hide Chunks, KeyValue, LegalCursor, Text, Decimal.Parse, Decimal.Print, Whole;
    if cs != [] {
      assert Texts(cs) == [Text(cs[0])] + Texts(cs[1..]);
      EntryRead(cs[0]);
      ChunkRead(Text(cs[0]), Unlines(Texts(cs[1..])), LINE_BUFFER);
      LoadTexts(cs[1..], max - 1, handle);
    } else {
      NoChunks(Unlines(Texts(cs)), LINE_BUFFER);
    }
  }

  lemma HeaderSkipped()
    ensures Whole(HEADER, LINE_BUFFER) && KeyValue(HEADER + "\n") == None
  {
    hide Index, IndexOr, KeyValue;
    assert HEADER[0] == '#' && (HEADER + "\n")[0] == '#';
    CommentSkipped(HEADER + "\n");
  }

  lemma CommentSkipped(chunk: string)
    requires chunk != "" && chunk[0] == '#'
    ensures KeyValue(chunk) == None
  {
  }

  /** Reading back a rendered table: every entry, and the index of every handle. */
  lemma ReadRender(cs: seq<Cursor>, handle: string)
    requires LegalCursors(cs)
    ensures Load(Chunks(Render(cs), LINE_BUFFER), MAX_PARTICIPANTS) == cs
            && Lookup(Chunks(Render(cs), LINE_BUFFER), handle) == Get(cs, handle)
  {
    hide Chunks, KeyValue, LegalCursor, Texts;
    HeaderSkipped();
    assert ([HEADER] + Texts(cs))[1..] == Texts(cs);
    ChunkRead(HEADER, Unlines(Texts(cs)), LINE_BUFFER);
    LoadTexts(cs, MAX_PARTICIPANTS, handle);
  }

  /**
   * An update in place, or a new entry under the handle cut to 63 characters, which only a reader without an
   * entry sees.
   */
  lemma {:induction false} GetPut(cs: seq<Cursor>, handle: string, index: int, other: string)
    ensures Get(Put(cs, handle, index), other)
         == if !Missing(cs, handle) then (if other == handle then index else Get(cs, other))
            else if |cs| < MAX_PARTICIPANTS && Missing(cs, other) && other == Truncate(handle, MAX_HANDLE_LEN - 1)
              then index
            else Get(cs, other)
  {
    if Missing(cs, handle) {
      if |cs| < MAX_PARTICIPANTS {
        GetSnoc(cs, Cursor(Truncate(handle, MAX_HANDLE_LEN - 1), index), other);
      }
    } else {
      GetUpdated(cs, Put(cs, handle, index), handle, index, other);
    }
  }

  predicate Missing(cs: seq<Cursor>, handle: string) {
    forall i | 0 <= i < |cs| :: cs[i].handle != handle
  }

  lemma {:induction false} GetMissing(cs: seq<Cursor>, handle: string)
    requires Missing(cs, handle)
    ensures Get(cs, handle) == -1
  {
    if cs != [] {
      GetMissing(cs[1..], handle);
    }
  }

  lemma {:induction false} GetSnoc(cs: seq<Cursor>, c: Cursor, other: string)
    ensures Get(cs + [c], other) == if Missing(cs, other) && other == c.handle then c.index else Get(cs, other)
  {
    if cs != [] {
      assert (cs + [c])[1..] == cs[1..] + [c];
      GetSnoc(cs[1..], c, other);
      if Missing(cs[1..], other) && cs[0].handle != other {
        assert Missing(cs, other);
      }
    }
  }

  lemma {:induction false} GetUpdated(cs: seq<Cursor>, ds: seq<Cursor>, handle: string, index: int, other: string)
    requires |ds| == |cs|
    requires forall i | 0 <= i < |cs| :: ds[i] == if cs[i].handle == handle then Cursor(handle, index) else cs[i]
    ensures Get(ds, other) == if other == handle && !Missing(cs, handle) then index else Get(cs, other)
  {
    if cs != [] {
      GetUpdated(cs[1..], ds[1..], handle, index, other);
      if Missing(cs[1..], handle) && cs[0].handle != handle {
        assert Missing(cs, handle);
      }
    }
  }

  lemma {:induction false} GetShift(cs: seq<Cursor>, handle: string)
    ensures Get(Shift(cs), handle) == if Missing(cs, handle) then -1 else Shifted(Get(cs, handle))
  {
    if cs != [] {
      assert Shift(cs)[1..] == Shift(cs[1..]);
      GetShift(cs[1..], handle);
      if Missing(cs[1..], handle) && cs[0].handle != handle {
        assert Missing(cs, handle);
      }
    }
  }

  /**
   * chat_cursor_write is a map update: the handle reads back as the new index and every other handle as
   * before, unless the table is full and does not know the handle; then nothing changes.
   */
  lemma ReadAfterWrite(cs: seq<Cursor>, handle: string, index: int, other: string)
    requires LegalCursors(cs) && LegalCursor(Cursor(handle, index))
    ensures LegalCursors(Put(cs, handle, index))
    ensures Lookup(Chunks(Write(Render(cs), handle, index), LINE_BUFFER), other)
         == if other == handle && (|cs| < MAX_PARTICIPANTS || !Missing(cs, handle)) then index
            else Lookup(Chunks(Render(cs), LINE_BUFFER), other)
  {
    hide Chunks, Lookup, Render, Load;
    assert |handle| < MAX_HANDLE_LEN;
    hide Readable;
    ReadRender(cs, other);
    ReadRender(Put(cs, handle, index), other);
    GetPut(cs, handle, index, other);
  }

  /** An archive step takes 1000 from every index but leaves those below 1000 at zero, not at "none read". */
  lemma ReadAfterArchive(cs: seq<Cursor>, other: string)
    requires LegalCursors(cs)
    ensures LegalCursors(Shift(cs))
    ensures var before := Lookup(Chunks(Render(cs), LINE_BUFFER), other);
            Lookup(Chunks(Archive(Render(cs)), LINE_BUFFER), other)
            == if before == -1 then -1 else if before < 1000 then 0 else before - 1000
  {
    hide Chunks, Lookup, Render, Load, Readable;
    ReadRender(cs, other);
    ReadRender(Shift(cs), other);
    GetShift(cs, other);
    GetLegal(cs, other);
  }

  lemma {:induction false} GetLegal(cs: seq<Cursor>, other: string)
    requires forall i | 0 <= i < |cs| :: LegalCursor(cs[i])
    ensures Get(cs, other) == -1 <==> Missing(cs, other)
  {
    hide Readable;
    if cs != [] {
      GetLegal(cs[1..], other);
      if Missing(cs[1..], other) && cs[0].handle != other {
        assert Missing(cs, other);
      }
    }
  }

  lemma KeysReadable(chunk: string)
    requires LineEndLast(chunk) && KeyValue(chunk).Some? && KeyValue(chunk).value.0 != "" && NUL !in chunk
    ensures Readable(KeyValue(chunk).value.0)
  {
    var eq := Index(chunk, '=');
    var key := chunk[..eq];
    forall k | 0 <= k < |key| ensures key[k] != '=' && key[k] != LF && key[k] != NUL {
      assert key[k] == chunk[k] && chunk[k] in chunk;
    }
  }

  lemma {:induction false} NeverFound(chunks: seq<string>, handle: string)
    requires handle != "" && !Readable(handle)
    requires forall i | 0 <= i < |chunks| :: LineEndLast(chunks[i]) && NUL !in chunks[i]
    ensures Lookup(chunks, handle) == -1
  {
    hide IndexOr, KeyValue, Readable;
    if chunks != [] {
      if KeyValue(chunks[0]).Some? && KeyValue(chunks[0]).value.0 != "" {
        KeysReadable(chunks[0]);
      }
      NeverFound(chunks[1..], handle);
    }
  }

  lemma {:induction false} ChunksAreStrings(s: string, size: nat)
    requires size >= 2
    ensures forall i | 0 <= i < |Chunks(s, size)| :: NUL !in Chunks(s, size)[i]
  {
    hide FgetsLength;
    if s != "" {
      ChunksAreStrings(s[FgetsLength(s, size)..], size);
    }
  }

  /** A handle that is too long, has "=" or a line feed in it or begins with "#" reads back from no file whatever. */
  lemma UnreadableNeverRead(file: string, handle: string)
    requires handle != "" && !Readable(handle)
    ensures Lookup(Chunks(file, LINE_BUFFER), handle) == -1
  {
    hide Chunks, Lookup, Readable, LineEndLast;
    ChunksEndLast(file, LINE_BUFFER);
    ChunksAreStrings(file, LINE_BUFFER);
    NeverFound(Chunks(file, LINE_BUFFER), handle);
  }

  /** When an index reads back: when the handle is readable and the table knows it or has room. */
  lemma ReadBackIff(cs: seq<Cursor>, handle: string, index: int)
    requires LegalCursors(cs) && handle != "" && 0 <= index <= INT_MAX
    ensures Lookup(Chunks(Write(Render(cs), handle, index), LINE_BUFFER), handle) == index
        <==> Readable(handle) && (|cs| < MAX_PARTICIPANTS || !Missing(cs, handle))
  {
    hide Chunks, Lookup, Render, Load, Readable, Write;
    if Readable(handle) {
      ReadAfterWrite(cs, handle, index, handle);
      ReadRender(cs, handle);
      GetLegal(cs, handle);
    } else {
      UnreadableNeverRead(Write(Render(cs), handle, index), handle);
    }
  }

  function WriteTimes(file: string, handle: string, index: int, n: nat): string
    decreases n
  {
    if n == 0 then file else WriteTimes(Write(file, handle, index), handle, index, n - 1)
  }

  function Copies(c: Cursor, n: nat): (r: seq<Cursor>)
    ensures |r| == n
  {
    seq(n, _ => c)
  }

  /** So each write of such a handle adds an entry under its first 63 characters, until the table is full. */
  lemma {:induction false} LongWritesPileUp(cs: seq<Cursor>, handle: string, index: int, n: nat)
    requires LegalCursors(cs) && |handle| >= MAX_HANDLE_LEN
             && LegalCursor(Cursor(Truncate(handle, MAX_HANDLE_LEN - 1), index))
    ensures var added := if n <= MAX_PARTICIPANTS - |cs| then n else MAX_PARTICIPANTS - |cs|;
            Load(Chunks(WriteTimes(Render(cs), handle, index, n), LINE_BUFFER), MAX_PARTICIPANTS)
              == cs + Copies(Cursor(Truncate(handle, MAX_HANDLE_LEN - 1), index), added)
    decreases n
  {
    hide Chunks, Render, Load, LegalCursor;
    ReadRender(cs, handle);
    var entry := Cursor(Truncate(handle, MAX_HANDLE_LEN - 1), index);
    if n == 0 {
      assert cs + Copies(entry, 0) == cs;
    } else {
      LongMissing(cs, handle);
      var next := Put(cs, handle, index);
      PutIs(cs, cs, handle, index);
      LongWritesPileUp(next, handle, index, n - 1);
      if |cs| < MAX_PARTICIPANTS {
        var left := if n - 1 <= MAX_PARTICIPANTS - |next| then n - 1 else MAX_PARTICIPANTS - |next|;
        assert cs + [entry] + Copies(entry, left) == cs + Copies(entry, left + 1);
      }
    }
  }

  lemma LongMissing(cs: seq<Cursor>, handle: string)
    requires LegalCursors(cs) && |handle| >= MAX_HANDLE_LEN
    ensures Missing(cs, handle) && forall index :: Replaced(cs, cs, handle, index)
  {
  }
}
