/** What chat_read gives for any file at all, said of the file's lines. */
module ChatReading {
  import opened Bytes
  import opened Limits
  import opened TextFile
  import Participants
  import opened Wire
  import opened ChatFile
  import Base64
  import Decimal
  import MessageText

  // ---------- one line of a message ----------

  predicate OnlyTrailing(tail: string) {
    forall i | 0 <= i < |tail| :: tail[i] == '\n' || tail[i] == '\r' || tail[i] == ' '
  }

  /** Base64 of this text, perhaps with blanks or line ends behind it. */
  ghost predicate Encodes(line: string, text: string) {
    exists code, tail :: line == code + tail && OnlyTrailing(tail) && Base64.Grammar(code)
      && text == Base64.Decode(code)
  }

  predicate Spaces(line: string) {
    forall i | 0 <= i < |line| :: line[i] == ' '
  }

  ghost predicate Corrupt(line: string) {
    !Spaces(line) && (|line| % 4 != 0 || forall text :: !Encodes(line, text))
  }

  ghost predicate HasMessage(line: string, m: Message) {
    !Spaces(line) && |line| % 4 == 0 && exists text :: Encodes(line, text) && MessageText.Carries(text, m)
  }

  /** A message whose text has a NUL, over which chat_read ends the process. */
  ghost predicate Fatal(line: string) {
    !Spaces(line) && |line| % 4 == 0 && exists text :: Encodes(line, text) && MessageText.CarriesNul(text)
  }

  lemma {:induction false} GrammarEnd(code: string)
    requires Base64.Grammar(code) && code != ""
    ensures !Base64.IsTrailing(code[|code| - 1])
  {
    if !Base64.FinalBlock(code) {
      GrammarEnd(code[4..]);
    }
  }

  lemma {:induction false} StripTail(code: string, tail: string)
    requires OnlyTrailing(tail) && (code != "" ==> !Base64.IsTrailing(code[|code| - 1]))
    ensures Base64.Strip(code + tail) == code
  {
    if tail == "" {
      assert code + tail == code;
    } else {
      assert (code + tail)[..|code + tail| - 1] == code + tail[..|tail| - 1];
      StripTail(code, tail[..|tail| - 1]);
    }
  }

  lemma {:induction false} StripLeaves(line: string)
    ensures var code := Base64.Strip(line); code <= line && OnlyTrailing(line[|code|..])
  {
    if line != "" && Base64.IsTrailing(line[|line| - 1]) {
      var front := line[..|line| - 1];
      StripLeaves(front);
      var code := Base64.Strip(line);
      assert line[|code|..] == front[|code|..] + [line[|line| - 1]];
    }
  }

  /** DecodeLine takes the lines that encode a text, and that text. */
  lemma DecodesText(line: string, text: string)
    ensures Encodes(line, text) <==> Base64.Grammar(Base64.Strip(line)) && text == Base64.Decode(Base64.Strip(line))
  {
    hide Base64.Grammar, Base64.Decode, Base64.Strip;
    StripLeaves(line);
    var stripped := Base64.Strip(line);
    assert line == stripped + line[|stripped|..];
    if Encodes(line, text) {
      var code, tail :|
        line == code + tail && OnlyTrailing(tail) && Base64.Grammar(code) && text == Base64.Decode(code);
      if code != "" {
        GrammarEnd(code);
      }
      StripTail(code, tail);
    }
  }

  lemma OneMessage(line: string, m: Message, other: Message)
    requires HasMessage(line, m) && HasMessage(line, other)
    ensures m == other
  {
    hide Encodes, ParseWire, MessageText.Carries;
    var text :| Encodes(line, text) && MessageText.Carries(text, m);
    var text' :| Encodes(line, text') && MessageText.Carries(text', other);
    DecodesText(line, text);
    DecodesText(line, text');
    MessageText.ParsedIff(text, m);
    MessageText.ParsedIff(text, other);
  }

  /** The message of a line, if it has one. */
  ghost function MessageOf(line: string): (r: seq<Message>)
    ensures forall m :: HasMessage(line, m) ==> r == [m]
    ensures r == [] <==> forall m :: !HasMessage(line, m)
  {
    if m :| HasMessage(line, m) then
      assert forall other | HasMessage(line, other) :: other == m by {
        forall other | HasMessage(line, other) ensures other == m { OneMessage(line, m, other); }
      }
      [m]
    else []
  }

  /** What a message line does to the state, below the limit of messages. */
  lemma LineRead(st: Snapshot, line: string)
    requires |st.messages| < 10000
    ensures MessageLine(st, line) == None <==> Fatal(line)
    ensures !Fatal(line) ==>
              MessageLine(st, line) == Some(st.(messages := st.messages + MessageOf(line),
                                                skipped := st.skipped + if Corrupt(line) then 1 else 0))
  {
    hide Encodes, Base64.Grammar, Base64.Decode, Base64.Strip, ParseWire, MessageText.Carries, MessageText.CarriesNul;
    if !Spaces(line) && |line| % 4 == 0 {
      var code := Base64.Strip(line);
      if Base64.Grammar(code) {
        TextRead(line, Base64.Decode(code));
      } else {
        forall text ensures !Encodes(line, text) { DecodesText(line, text); }
        assert DecodeLine(line) == None && Corrupt(line) && !Fatal(line);
      }
    } else {
      assert Blank(line) <==> Spaces(line);
      assert !Fatal(line) && MessageOf(line) == [];
      assert st.messages + [] == st.messages;
      assert MessageLine(st, line).Some?;
    }
  }

  /** The only text of a line decides what the line has. */
  lemma TextRead(line: string, text: string)
    requires !Spaces(line) && |line| % 4 == 0
    requires Base64.Grammar(Base64.Strip(line)) && text == Base64.Decode(Base64.Strip(line))
    ensures !Corrupt(line) && (Fatal(line) <==> ParseWire(text) == Abort)
    ensures MessageOf(line) == match ParseWire(text) case Parsed(m) => [m] case _ => []
  {
    hide Encodes, Base64.Grammar, Base64.Decode, Base64.Strip, ParseWire, MessageText.Carries, MessageText.CarriesNul;
    DecodesText(line, text);
    forall other | Encodes(line, other) ensures other == text { DecodesText(line, other); }
    MessageText.ParsedIff(text, Message("", "", 0));
    forall m ensures HasMessage(line, m) <==> ParseWire(text) == Parsed(m) {
      MessageText.ParsedIff(text, m);
    }
  }

  // ---------- where a line stands ----------

  /** Line `k` is behind the marker, with no line of dashes in between. */
  ghost predicate InHeader(lines: seq<string>, k: nat)
    requires k <= |lines|
  {
    exists m :: 0 <= m < k && lines[m] == "=== nbs-chat ===" && forall j | m < j < k :: lines[j] != "---"
  }

  /** A line of dashes ended a header before line `k`. */
  ghost predicate HeaderEnded(lines: seq<string>, k: nat)
    requires k <= |lines|
  {
    exists d :: 0 <= d < k && lines[d] == "---" && InHeader(lines, d)
  }

  ghost predicate InBody(lines: seq<string>, k: nat)
    requires k < |lines|
  {
    HeaderEnded(lines, k) && !InHeader(lines, k) && lines[k] != "=== nbs-chat ==="
  }

  lemma HeaderStep(lines: seq<string>, k: nat)
    requires k < |lines|
    ensures InHeader(lines, k + 1) <==>
            lines[k] == "=== nbs-chat ===" || (InHeader(lines, k) && lines[k] != "---")
    ensures HeaderEnded(lines, k + 1) <==> HeaderEnded(lines, k) || (lines[k] == "---" && InHeader(lines, k))
  {
    if InHeader(lines, k) && lines[k] != "---" {
      var m :| 0 <= m < k && lines[m] == "=== nbs-chat ===" && forall j | m < j < k :: lines[j] != "---";
      assert lines[m] == "=== nbs-chat ===" && forall j | m < j < k + 1 :: lines[j] != "---";
    }
  }

  // ---------- the messages ----------

  /** The messages of the first `n` lines, without the limit. */
  ghost function Found(lines: seq<string>, n: nat): seq<Message>
    requires n <= |lines|
  {
    if n == 0 then [] else Found(lines, n - 1) + if InBody(lines, n - 1) then MessageOf(lines[n - 1]) else []
  }

  /** Line `k` is a body line that is still looked at: fewer than 10000 messages are before it. */
  ghost predicate LookedAt(lines: seq<string>, k: nat)
    requires k < |lines|
  {
    InBody(lines, k) && |Found(lines, k)| < 10000
  }

  ghost function CorruptIn(lines: seq<string>, n: nat): nat
    requires n <= |lines|
  {
    if n == 0 then 0
    else CorruptIn(lines, n - 1) + if LookedAt(lines, n - 1) && Corrupt(lines[n - 1]) then 1 else 0
  }

  ghost predicate FatalIn(lines: seq<string>, n: nat)
    requires n <= |lines|
  {
    exists k :: 0 <= k < n && LookedAt(lines, k) && Fatal(lines[k])
  }

  // ---------- the header ----------

  datatype Field = Writer | Time | Length | Table

  predicate Sets(line: string, f: Field) {
    match f
    case Writer => "last-writer: " <= line
    case Time => "last-write: " <= line
    case Length => "file-length: " <= line && Decimal.Parse(line[13..], INT64_MIN, INT64_MAX).Some?
    case Table => "participants: " <= line
  }

  /** Line `i` is the last header line among the first `n` that sets the field. */
  ghost predicate LastToSet(lines: seq<string>, n: nat, f: Field, i: nat)
    requires n <= |lines|
  {
    i < n && InHeader(lines, i) && Sets(lines[i], f)
      && forall j | i < j < n :: !(InHeader(lines, j) && Sets(lines[j], f))
  }

  ghost predicate NeverSet(lines: seq<string>, n: nat, f: Field)
    requires n <= |lines|
  {
    forall i | 0 <= i < n :: !(InHeader(lines, i) && Sets(lines[i], f))
  }

  /** Each field has the value of the last line that sets it. */
  ghost predicate FieldsOf(lines: seq<string>, n: nat, st: Snapshot)
    requires n <= |lines|
  {
    && (NeverSet(lines, n, Writer) ==> st.lastWriter == "") && (NeverSet(lines, n, Time) ==> st.lastWrite == "")
    && (NeverSet(lines, n, Length) ==> st.fileLength == 0) && (NeverSet(lines, n, Table) ==> st.participants == [])
    && (forall i: nat | LastToSet(lines, n, Writer, i) :: st.lastWriter == Truncate(lines[i][13..], 63))
    && (forall i: nat | LastToSet(lines, n, Time, i) :: st.lastWrite == Truncate(lines[i][12..], 63))
    && (forall i: nat | LastToSet(lines, n, Length, i) ::
          Decimal.Parse(lines[i][13..], INT64_MIN, INT64_MAX) == Some(st.fileLength))
    && forall i: nat | LastToSet(lines, n, Table, i) :: st.participants == Participants.Parse(lines[i][14..], 256)
  }

  lemma LastStep(lines: seq<string>, n: nat, m: nat, f: Field)
    requires n < |lines| && m == n + 1
    ensures InHeader(lines, n) && Sets(lines[n], f) ==>
              LastToSet(lines, m, f, n) && !NeverSet(lines, m, f)
                && forall i: nat | i != n :: !LastToSet(lines, m, f, i)
    ensures !(InHeader(lines, n) && Sets(lines[n], f)) ==>
              (NeverSet(lines, m, f) <==> NeverSet(lines, n, f))
              && forall i: nat :: LastToSet(lines, m, f, i) <==> LastToSet(lines, n, f, i)
  {
    hide Sets, InHeader;
  }

  /** A line sets one field at most. */
  lemma SetsOne(line: string, f: Field, g: Field)
    requires Sets(line, f) && Sets(line, g)
    ensures f == g
  {
    var w, t, l, p := "last-writer: ", "last-write: ", "file-length: ", "participants: ";
    assert w[10] == 'r' && t[10] == ':';
    assert (w <= line ==> line[10] == w[10] && line[0] == w[0]) && (t <= line ==> line[10] == t[10] && line[0] == t[0]);
    assert (l <= line ==> line[0] == l[0]) && (p <= line ==> line[0] == p[0]);
  }

  lemma FieldsStep(lines: seq<string>, n: nat, st: Snapshot)
    requires n < |lines| && FieldsOf(lines, n, st)
    ensures FieldsOf(lines, n + 1, if InHeader(lines, n) then HeaderField(st, lines[n]) else st)
  {
    hide InHeader, NeverSet, LastToSet, Decimal.Parse, Participants.Parse;
    LastStep(lines, n, n + 1, Writer);
    LastStep(lines, n, n + 1, Time);
    LastStep(lines, n, n + 1, Length);
    LastStep(lines, n, n + 1, Table);
    var line := lines[n];
    forall f, g | Sets(line, f) && Sets(line, g) ensures f == g { SetsOne(line, f, g); }
  }

  lemma FieldsSame(lines: seq<string>, n: nat, a: Snapshot, b: Snapshot)
    requires n <= |lines| && FieldsOf(lines, n, a)
    requires a.lastWriter == b.lastWriter && a.lastWrite == b.lastWrite && a.fileLength == b.fileLength
             && a.participants == b.participants
    ensures FieldsOf(lines, n, b)
  {
    hide NeverSet, LastToSet;
  }

  // ---------- the whole file ----------

  /** What the reader is after the first `n` lines. */
  ghost predicate ReaderAt(lines: seq<string>, n: nat, r: Option<Reader>)
    requires n <= |lines|
  {
    match r
    case None => FatalIn(lines, n)
    case Some(q) =>
      && !FatalIn(lines, n) && (q.inHeader <==> InHeader(lines, n)) && (q.pastHeader <==> HeaderEnded(lines, n))
      && FieldsOf(lines, n, q.state) && q.state.messages == Truncate(Found(lines, n), 10000)
      && q.state.skipped == CorruptIn(lines, n)
  }

  lemma {:induction false} ReadSnoc(r: Reader, front: seq<string>, line: string)
    ensures ReadFrom(r, front + [line])
            == match ReadFrom(r, front) case None => None case Some(q) => Step(q, line)
    decreases |front|
  {
    hide Step;
    if front == [] {
      assert front + [line] == [line];
    } else {
      assert (front + [line])[1..] == front[1..] + [line];
      match Step(r, front[0])
      case Some(next) => ReadSnoc(next, front[1..], line);
      case None =>
    }
  }

  lemma NoField(st: Snapshot)
    ensures HeaderField(st, MARKER) == st && HeaderField(st, DELIMITER) == st && MARKER != DELIMITER
  {
    assert MARKER[0] == '=' && DELIMITER[0] == '-';
  }

  lemma FieldKeeps(st: Snapshot, line: string)
    ensures HeaderField(st, line).messages == st.messages && HeaderField(st, line).skipped == st.skipped
  {
  }

  lemma StepReads(lines: seq<string>, n: nat, q: Reader)
    requires n < |lines| && ReaderAt(lines, n, Some(q))
    ensures ReaderAt(lines, n + 1, Step(q, lines[n]))
  {
    hide InHeader, HeaderEnded, FieldsOf, HeaderField, MessageLine, Corrupt, Fatal, FatalIn, Found, CorruptIn;
    HeaderStep(lines, n);
    FieldsStep(lines, n, q.state);
    LooksStep(lines, n);
    NoField(q.state);
    FieldKeeps(q.state, lines[n]);
    if InBody(lines, n) {
      BodyStep(lines, n, q.state);
      match MessageLine(q.state, lines[n])
      case Some(st) => FieldsSame(lines, n + 1, q.state, st);
      case None =>
    } else {
      assert !LookedAt(lines, n) && Found(lines, n + 1) == Found(lines, n);
    }
  }

  /** What a line adds to the messages found, the corrupt lines and the fatal ones. */
  lemma LooksStep(lines: seq<string>, n: nat)
    requires n < |lines|
    ensures Found(lines, n + 1) == Found(lines, n) + if InBody(lines, n) then MessageOf(lines[n]) else []
    ensures CorruptIn(lines, n + 1)
            == CorruptIn(lines, n) + if LookedAt(lines, n) && Corrupt(lines[n]) then 1 else 0
    ensures FatalIn(lines, n + 1) <==> FatalIn(lines, n) || (LookedAt(lines, n) && Fatal(lines[n]))
  {
    hide Corrupt, Fatal, LookedAt;
  }

  lemma BodyStep(lines: seq<string>, n: nat, st: Snapshot)
    requires n < |lines| && InBody(lines, n) && st.messages == Truncate(Found(lines, n), 10000)
    ensures MessageLine(st, lines[n]) == None <==> LookedAt(lines, n) && Fatal(lines[n])
    ensures MessageLine(st, lines[n]).Some? ==>
              var t := MessageLine(st, lines[n]).value;
              && t == st.(messages := t.messages, skipped := t.skipped)
              && t.messages == Truncate(Found(lines, n) + MessageOf(lines[n]), 10000)
              && t.skipped == st.skipped + if LookedAt(lines, n) && Corrupt(lines[n]) then 1 else 0
  {
    hide Corrupt, Fatal, InBody, Found, DecodeLine;
    if |Found(lines, n)| < 10000 {
      hide MessageLine;
      LineRead(st, lines[n]);
    }
  }

  /**
   * Any file: reading it ends the process exactly if a line that is looked at is fatal. Otherwise every header field
   * has the value of the last header line that sets it, the messages are those of the body up to 10000, and the
   * count of skipped lines is that of the corrupt ones among those looked at.
   */
  lemma ReadIs(file: string)
    ensures var lines := Lines(file, MAX_MESSAGE_LEN);
            match Read(file)
            case None => FatalIn(lines, |lines|)
            case Some(st) =>
              && !FatalIn(lines, |lines|) && FieldsOf(lines, |lines|, st)
              && st.messages == Truncate(Found(lines, |lines|), 10000) && st.skipped == CorruptIn(lines, |lines|)
  {
    hide FatalIn, FieldsOf, Found, CorruptIn, ReadFrom;
    var lines := Lines(file, MAX_MESSAGE_LEN);
    PrefixReads(lines, |lines|);
    assert lines[..|lines|] == lines;
  }

  lemma NothingRead(lines: seq<string>)
    ensures ReaderAt(lines, 0, ReadPrefix(lines, 0))
  {
    assert lines[..0] == [];
    NothingYet(lines);
  }

  lemma NothingYet(lines: seq<string>)
    ensures ReaderAt(lines, 0, Some(Reader(false, false, EMPTY)))
  {
  }

  lemma FatalStays(lines: seq<string>, n: nat)
    requires n < |lines| && ReaderAt(lines, n, None)
    ensures ReaderAt(lines, n + 1, None)
  {
    hide FatalIn;
    LooksStep(lines, n);
  }

  /** The reader after `n` lines, from the start. */
  function ReadPrefix(lines: seq<string>, n: nat): Option<Reader>
    requires n <= |lines|
  {
    ReadFrom(Reader(false, false, EMPTY), lines[..n])
  }

  lemma ReadNext(lines: seq<string>, n: nat)
    requires n < |lines|
    ensures ReadPrefix(lines, n + 1)
            == match ReadPrefix(lines, n) case None => None case Some(q) => Step(q, lines[n])
  {
    hide Step, ReadFrom;
    assert lines[..n + 1] == lines[..n] + [lines[n]];
    ReadSnoc(Reader(false, false, EMPTY), lines[..n], lines[n]);
  }

  lemma {:induction false} PrefixReads(lines: seq<string>, n: nat)
    requires n <= |lines|
    ensures ReaderAt(lines, n, ReadPrefix(lines, n))
  {
    hide ReadPrefix, Step, ReaderAt;
    if n == 0 {
      NothingRead(lines);
    } else {
      PrefixReads(lines, n - 1);
      ReadNext(lines, n - 1);
      match ReadPrefix(lines, n - 1)
      case Some(q) => StepReads(lines, n - 1, q);
      case None => FatalStays(lines, n - 1);
    }
  }

  // ---------- the second pass ----------

  /** The lines that chat_send copies: those behind the first line of dashes behind a marker, blank ones left out. */
  lemma {:induction false} CollectIs(before: seq<string>, header: seq<string>, body: seq<string>)
    requires "=== nbs-chat ===" !in before && "---" !in header
    ensures Collect(before + (["=== nbs-chat ==="] + (header + (["---"] + body))), false) == NonBlank(body)
  {
    var tail := header + (["---"] + body);
    if before == [] {
      var lines := ["=== nbs-chat ==="] + tail;
      assert before + lines == lines && lines[1..] == tail;
      CollectHeader(header, body);
    } else {
      var lines := before + (["=== nbs-chat ==="] + tail);
      assert lines[0] == before[0] && before[0] in before && lines[1..] == before[1..] + (["=== nbs-chat ==="] + tail);
      CollectIs(before[1..], header, body);
    }
  }

  lemma {:induction false} CollectHeader(header: seq<string>, body: seq<string>)
    requires "---" !in header
    ensures Collect(header + (["---"] + body), true) == NonBlank(body)
  {
    var lines := header + (["---"] + body);
    assert MARKER != DELIMITER by { NoField(EMPTY); }
    if header == [] {
      assert lines[0] == "---" && lines[1..] == body;
    } else {
      assert lines[0] == header[0] && header[0] in header && lines[1..] == header[1..] + (["---"] + body);
      CollectHeader(header[1..], body);
    }
  }

  /** Without a marker, or without dashes behind it, there are none. */
  lemma {:induction false} NoMarker(before: seq<string>)
    requires "=== nbs-chat ===" !in before
    ensures Collect(before, false) == []
  {
    if before != [] {
      assert before[0] in before;
      NoMarker(before[1..]);
    }
  }

  lemma {:induction false} NoDashes(header: seq<string>, seen: bool)
    requires "---" !in header
    ensures Collect(header, seen) == []
  {
    if header != [] {
      assert header[0] in header;
      NoDashes(header[1..], seen || header[0] == MARKER);
    }
  }
}
