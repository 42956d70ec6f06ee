/** Chat files: what chat_read, chat_send, chat_auto_archive and chat_truncate make of their bytes. */
module ChatFile {
  import opened Bytes
  import opened Limits
  import opened TextFile
  import opened Participants
  import opened Wire
  import Decimal
  import CutTable

  const PARTS_BUFFER: nat := 4096

  const MARKER: string := "=== nbs-chat ==="
  const DELIMITER: string := "---"

  /** The contents of a chat_state_t. */
  datatype Snapshot = Snapshot(
    lastWriter: string, lastWrite: string, fileLength: int, participants: seq<Participant>, messages: seq<Message>,
      skipped: nat)

  const EMPTY: Snapshot := Snapshot("", "", 0, [], [], 0)

  // ---------- reading ----------

  datatype Reader = Reader(inHeader: bool, pastHeader: bool, state: Snapshot)

  predicate Blank(line: string) {
    forall i | 0 <= i < |line| :: line[i] == ' '
  }

  function HeaderField(st: Snapshot, line: string): Snapshot {
    if "last-writer: " <= line then st.(lastWriter := Truncate(line[13..], MAX_HANDLE_LEN - 1))
    else if "last-write: " <= line then st.(lastWrite := Truncate(line[12..], 63))
    else if "file-length: " <= line then
      match Decimal.Parse(line[13..], INT64_MIN, INT64_MAX)
      case Some(n) => st.(fileLength := n)
      case None => st
    else if "participants: " <= line then st.(participants := Parse(line[14..], MAX_PARTICIPANTS))
    else st
  }

  /** One line behind the header; None where an assertion of chat_read ends the process. */
  function MessageLine(st: Snapshot, line: string): Option<Snapshot> {
    if |st.messages| >= MAX_MESSAGES || Blank(line) then Some(st)
    else if |line| % 4 != 0 then Some(st.(skipped := st.skipped + 1))
    else
      match DecodeLine(line)
      case None => Some(st.(skipped := st.skipped + 1))
      case Some(Nothing) => Some(st)
      case Some(Abort) => None
      case Some(Parsed(m)) => Some(st.(messages := st.messages + [m]))
  }

  function Step(r: Reader, line: string): Option<Reader> {
    if line == MARKER then Some(r.(inHeader := true))
    else if r.inHeader && line == DELIMITER then Some(r.(inHeader := false, pastHeader := true))
    else if r.inHeader then Some(r.(state := HeaderField(r.state, line)))
    else if r.pastHeader then
      match MessageLine(r.state, line)
      case Some(st) => Some(r.(state := st))
      case None => None
    else Some(r)
  }

  function ReadFrom(r: Reader, lines: seq<string>): Option<Reader>
    decreases |lines|
  {
    if lines == [] then Some(r)
    else
      match Step(r, lines[0])
      case Some(next) => ReadFrom(next, lines[1..])
      case None => None
  }

  function Read(file: string): Option<Snapshot> {
    match ReadFrom(Reader(false, false, EMPTY), Lines(file, MAX_MESSAGE_LEN))
    case Some(r) => Some(r.state)
    case None => None
  }

  /** The message lines that chat_send copies into the next version of the file. */
  function Collect(lines: seq<string>, seenMarker: bool): seq<string> {
    if lines == [] then []
    else if lines[0] == MARKER then Collect(lines[1..], true)
    else if lines[0] == DELIMITER && seenMarker then NonBlank(lines[1..])
    else Collect(lines[1..], seenMarker)
  }

  function NonBlank(lines: seq<string>): seq<string> {
    if lines == [] then []
    else (if Blank(lines[0]) then [] else [lines[0]]) + NonBlank(lines[1..])
  }

  // ---------- writing ----------

  function BareLines(writer: string, stamp: string, parts: string, lines: seq<string>): seq<string> {
    [MARKER, "last-writer: " + writer, "last-write: " + stamp] + (["participants: " + parts, DELIMITER] + lines)
  }

  function FileLines(writer: string, stamp: string, parts: string, lines: seq<string>, length: int): seq<string> {
    [MARKER, "last-writer: " + writer, "last-write: " + stamp] + ["file-length: " + Decimal.Print(length)]
    + (["participants: " + parts, DELIMITER] + lines)
  }

  function FileText(writer: string, stamp: string, parts: string, lines: seq<string>): string {
    Unlines(FileLines(writer, stamp, parts, lines,
      Decimal.FileLength(|Unlines(BareLines(writer, stamp, parts, lines))|)))
  }

  /** The file-length header is the size of the file. */
  lemma LengthHeaderTrue(writer: string, stamp: string, parts: string, lines: seq<string>)
    ensures |FileText(writer, stamp, parts, lines)|
            == Decimal.FileLength(|Unlines(BareLines(writer, stamp, parts, lines))|)
  {
    hide Unlines;
    var n := Decimal.FileLength(|Unlines(BareLines(writer, stamp, parts, lines))|);
    UnlinesInsert([MARKER, "last-writer: " + writer, "last-write: " + stamp], "file-length: " + Decimal.Print(n),
                  ["participants: " + parts, DELIMITER] + lines);
  }

  /** base64_encode refuses an output of more than INT_MAX bytes. */
  predicate TooLong(m: Message) {
    |WireText(m)| > INT_MAX / 4 * 3
  }

  /**
   * What chat_send writes after reading the header and messages from one look at the file and the raw
   * lines from a second look, or None where one of its assertions ends the process.
   */
  function SendFrom(first: string, second: string, m: Message, stamp: string): Option<string>
    requires IsBytes(m.handle) && IsBytes(m.content)
  {
    match Read(first)
    case None => None
    case Some(st) =>
      if TooLong(m) then None
      else
        var parts := Update(st.participants, m.handle, MAX_PARTICIPANTS);
        var lines := Collect(Lines(second, MAX_MESSAGE_LEN), false);
        if |parts| * (MAX_HANDLE_LEN + 14) >= PARTS_BUFFER || |lines| > MAX_MESSAGES then None
        else Some(FileText(m.handle, stamp, Truncate(Format(parts), PARTS_BUFFER - 1), lines + [EncodedLine(m)]))
  }

  function Send(file: string, m: Message, stamp: string): Option<string>
    requires IsBytes(m.handle) && IsBytes(m.content)
  {
    SendFrom(file, file, m, stamp)
  }

  // ---------- legal files ----------

  /** A chat as its users think of it. */
  datatype Chat = Chat(lastWriter: string, lastWrite: string, participants: seq<Participant>, messages: seq<Message>)

  predicate LegalField(s: string) {
    |s| < 64 && NUL !in s && LF !in s && CR !in s
  }

  /** The most wire bytes whose base64 line one fgets call can read; FitsExactly says why. */
  const MAX_WIRE: nat := 786429

  /** A legal message whose line one fgets call can read. */
  predicate Fits(m: Message) {
    LegalMessage(m) && IsBytes(m.handle) && IsBytes(m.content) && |WireText(m)| <= MAX_WIRE
  }

  predicate AllFit(ms: seq<Message>) {
    forall i | 0 <= i < |ms| :: Fits(ms[i])
  }

  predicate LegalChat(c: Chat) {
    && LegalField(c.lastWriter) && LegalField(c.lastWrite)
    && LegalTable(c.participants) && |c.participants| * (MAX_HANDLE_LEN + 14) < PARTS_BUFFER
    && AllFit(c.messages)
  }

  function EncodedLines(ms: seq<Message>): (ls: seq<string>)
    requires AllFit(ms)
    ensures |ls| == |ms| && forall i | 0 <= i < |ls| :: ls[i] == EncodedLine(ms[i])
  {
    seq(|ms|, i requires 0 <= i < |ms| => EncodedLine(ms[i]))
  }

  function SeenAll(ms: seq<Message>): (r: seq<Message>)
    ensures |r| == |ms| && forall i | 0 <= i < |r| :: r[i] == Seen(ms[i])
  {
    seq(|ms|, i requires 0 <= i < |ms| => Seen(ms[i]))
  }

  function Render(c: Chat): string
    requires LegalChat(c)
  {
    FileText(c.lastWriter, c.lastWrite, Format(c.participants), EncodedLines(c.messages))
  }

  // ---------- every line of a legal file is one line to the reader ----------

  lemma WireLimit(n: nat)
    ensures Base64.EncodedLength(n) + 2 <= MAX_MESSAGE_LEN <==> n <= MAX_WIRE
  {
    Base64.EncodedLengthIs(n);
  }

  lemma FitsExactly(m: Message)
    requires LegalMessage(m) && IsBytes(m.handle) && IsBytes(m.content)
    ensures Fits(m) <==> |EncodedLine(m)| + 2 <= MAX_MESSAGE_LEN
  {
    hide LegalMessage, WireText, Base64.EncodedLength;
    WireLimit(|WireText(m)|);
  }

  lemma EncodedLineClean(m: Message)
    requires Fits(m)
    ensures Clean(EncodedLine(m), MAX_MESSAGE_LEN) && !Blank(EncodedLine(m)) && Base64Text(EncodedLine(m))
  {
    hide LegalMessage, EncodedLine, WireText;
    FitsExactly(m);
    EncodedLineIsBase64(m);
    assert !Base64.IsValidChar(NUL) && !Base64.IsValidChar(LF) && !Base64.IsValidChar(CR) && !Base64.IsValidChar(' ');
    assert Base64.IsValidChar(EncodedLine(m)[0]);
  }

  lemma NotHeaderLine(line: string)
    requires Base64Text(line)
    ensures line != MARKER && line != DELIMITER
  {
    assert !Base64.IsValidChar(MARKER[3]);
  }

  lemma EntryClean(p: Participant)
    requires LegalEntry(p)
    ensures NUL !in Entry(p) && LF !in Entry(p) && CR !in Entry(p)
  {
    assert forall k | 0 <= k < |p.handle| :: HandleChar(p.handle[k]);
    assert forall k | 0 <= k < |Decimal.Print(p.count)| :: IsDigit(Decimal.Print(p.count)[k]);
  }

  lemma {:induction false} FormatClean(ps: seq<Participant>)
    requires LegalTable(ps)
    ensures NUL !in Format(ps) && LF !in Format(ps) && CR !in Format(ps)
  {
    hide Entry, LegalEntry;
    if ps != [] {
      EntryClean(ps[0]);
      FormatClean(ps[1..]);
    }
  }

  lemma NumeralClean(n: nat)
    requires n <= INT64_MAX
    ensures Clean("file-length: " + Decimal.Print(n), MAX_MESSAGE_LEN)
  {
    Decimal.NineteenDigits(n);
    assert forall k | 0 <= k < |Decimal.Print(n)| :: IsDigit(Decimal.Print(n)[k]);
  }

  lemma FieldClean(name: string, s: string)
    requires |name| + |s| + 2 <= MAX_MESSAGE_LEN && NUL !in name && LF !in name && CR !in name
    requires NUL !in s && LF !in s && CR !in s
    ensures Clean(name + s, MAX_MESSAGE_LEN)
  {
  }

  /** A participants header that one fgets call reads whole. */
  predicate LegalParts(parts: string) {
    |parts| < PARTS_BUFFER && NUL !in parts && LF !in parts && CR !in parts
  }

  lemma AllLinesClean(w: string, t: string, parts: string, ms: seq<Message>, length: nat)
    requires LegalField(w) && LegalField(t) && LegalParts(parts) && AllFit(ms) && length <= INT64_MAX
    ensures AllClean(FileLines(w, t, parts, EncodedLines(ms), length), MAX_MESSAGE_LEN)
  {
    hide Clean, Fits, EncodedLine, Decimal.Print, EncodedLines;
    NumeralClean(length);
    FieldClean("last-writer: ", w);
    FieldClean("last-write: ", t);
    FieldClean("participants: ", parts);
    FieldClean(MARKER, "");
    FieldClean(DELIMITER, "");
    var lines := EncodedLines(ms);
    forall i | 0 <= i < |lines| ensures Clean(lines[i], MAX_MESSAGE_LEN) {
      EncodedLineClean(ms[i]);
    }
    assert MARKER + "" == MARKER && DELIMITER + "" == DELIMITER;
  }

  lemma TableLength(ps: seq<Participant>)
    requires LegalTable(ps) && |ps| * (MAX_HANDLE_LEN + 14) < PARTS_BUFFER
    ensures |Format(ps)| < PARTS_BUFFER - 1 && Truncate(Format(ps), PARTS_BUFFER - 1) == Format(ps)
  {
    forall i | 0 <= i < |ps| ensures |ps[i].handle| < MAX_HANDLE_LEN && 0 <= ps[i].count <= INT_MAX {
      LegalLength(ps[i].handle);
    }
    FormatLength(ps);
  }

  // ---------- reading back what was written ----------

  lemma StepWriter(st: Snapshot, w: string)
    requires |w| < 64
    ensures Step(Reader(true, false, st), "last-writer: " + w) == Some(Reader(true, false, st.(lastWriter := w)))
  {
    var line := "last-writer: " + w;
    assert line[0] == 'l' && line[13..] == w;
  }

  lemma StepWrite(st: Snapshot, t: string)
    requires |t| < 64
    ensures Step(Reader(true, false, st), "last-write: " + t) == Some(Reader(true, false, st.(lastWrite := t)))
  {
    var line := "last-write: " + t;
    assert line[0] == 'l' && line[10] == ':' && line[12..] == t;
    assert "last-writer: "[10] == 'r';
  }

  lemma StepLength(st: Snapshot, n: int)
    requires INT64_MIN <= n <= INT64_MAX
    ensures Step(Reader(true, false, st), "file-length: " + Decimal.Print(n))
            == Some(Reader(true, false, st.(fileLength := n)))
  {
    hide Decimal.Print, Decimal.Parse;
    var line := "file-length: " + Decimal.Print(n);
    assert line[0] == 'f' && line[13..] == Decimal.Print(n) == Decimal.Print(n) + "";
    Decimal.ParsePrint(n, INT64_MIN, INT64_MAX, "");
    assert "last-writer: "[0] == 'l' && "last-write: "[0] == 'l';
  }

  lemma StepParticipants(st: Snapshot, parts: string)
    ensures Step(Reader(true, false, st), "participants: " + parts)
         == Some(Reader(true, false, st.(participants := Parse(parts, MAX_PARTICIPANTS))))
  {
    hide Parse;
    var line := "participants: " + parts;
    assert line[0] == 'p' && line[14..] == parts;
    assert "last-writer: "[0] == 'l' && "last-write: "[0] == 'l' && "file-length: "[0] == 'f';
  }

  lemma StepMessage(st: Snapshot, m: Message)
    requires Fits(m)
    ensures Step(Reader(false, true, st), EncodedLine(m))
         == Some(Reader(false, true, if |st.messages| < MAX_MESSAGES then st.(messages := st.messages + [Seen(m)])
           else st))
  {
    hide EncodedLine, Blank, DecodeLine, LegalMessage;
    EncodedLineIsBase64(m);
    EncodedLineClean(m);
    NotHeaderLine(EncodedLine(m));
  }

  lemma MessageTail(ms: seq<Message>)
    requires AllFit(ms) && ms != []
    ensures AllFit(ms[1..]) && EncodedLines(ms)[0] == EncodedLine(ms[0])
            && EncodedLines(ms)[1..] == EncodedLines(ms[1..])
    ensures SeenAll(ms) == [Seen(ms[0])] + SeenAll(ms[1..])
  {
    hide Fits, EncodedLine;
  }

  lemma AppendCut(a: seq<Message>, m: Message, b: seq<Message>)
    requires |a| <= MAX_MESSAGES
    ensures a + [m] + b == a + ([m] + b)
    ensures |a| == MAX_MESSAGES ==> Truncate(a + b, MAX_MESSAGES) == a == Truncate(a + ([m] + b), MAX_MESSAGES)
  {
    assert |a| == MAX_MESSAGES ==> (a + b)[..|a|] == a == (a + ([m] + b))[..|a|];
  }

  lemma {:induction false} ReadMessages(st: Snapshot, ms: seq<Message>)
    requires AllFit(ms) && |st.messages| <= MAX_MESSAGES
    ensures ReadFrom(Reader(false, true, st), EncodedLines(ms))
         == Some(Reader(false, true, st.(messages := Truncate(st.messages + SeenAll(ms), MAX_MESSAGES))))
    decreases |ms|
  {
    hide Step, Fits, Seen, EncodedLines, SeenAll, EncodedLine;
    if ms != [] {
      var next := if |st.messages| < MAX_MESSAGES then st.(messages := st.messages + [Seen(ms[0])]) else st;
      StepMessage(st, ms[0]);
      MessageTail(ms);
      ReadStep(Reader(false, true, st), EncodedLines(ms), Reader(false, true, next));
      ReadMessages(next, ms[1..]);
      AppendCut(st.messages, Seen(ms[0]), SeenAll(ms[1..]));
    } else {
      assert st.messages + SeenAll(ms) == st.messages && EncodedLines(ms) == [];
    }
  }

  lemma ReadStep(r: Reader, lines: seq<string>, next: Reader)
    requires lines != [] && Step(r, lines[0]) == Some(next)
    ensures ReadFrom(r, lines) == ReadFrom(next, lines[1..])
  {
  }

  lemma ReadHeader(w: string, t: string, parts: string, lines: seq<string>, n: int)
    requires |w| < 64 && |t| < 64 && INT64_MIN <= n <= INT64_MAX
    ensures ReadFrom(Reader(false, false, EMPTY), FileLines(w, t, parts, lines, n))
         == ReadFrom(Reader(false, true, Snapshot(w, t, n, Parse(parts, MAX_PARTICIPANTS), [], 0)), lines)
  {
    hide Parse, Decimal.Print, HeaderField, MessageLine;
    var all := FileLines(w, t, parts, lines, n);
    var st0, st1, st2 := EMPTY, EMPTY.(lastWriter := w), EMPTY.(lastWriter := w, lastWrite := t);
    var st3 := st2.(fileLength := n);
    var st4 := st3.(participants := Parse(parts, MAX_PARTICIPANTS));
    StepWriter(st0, w);
    StepWrite(st1, t);
    StepLength(st2, n);
    StepParticipants(st3, parts);
    hide ReadFrom, FileLines, Step;
    StepsOfHeader(all, w, t, parts, lines, n);
    ReadStep(Reader(false, false, st0), all, Reader(true, false, st0));
    ReadStep(Reader(true, false, st0), all[1..], Reader(true, false, st1));
    ReadStep(Reader(true, false, st1), all[2..], Reader(true, false, st2));
    ReadStep(Reader(true, false, st2), all[3..], Reader(true, false, st3));
    ReadStep(Reader(true, false, st3), all[4..], Reader(true, false, st4));
    ReadStep(Reader(true, false, st4), all[5..], Reader(false, true, st4));
  }

  lemma StepsOfHeader(all: seq<string>, w: string, t: string, parts: string, lines: seq<string>, n: int)
    requires all == FileLines(w, t, parts, lines, n)
    ensures |all| == 6 + |lines| && all[0] == MARKER && all[1] == "last-writer: " + w && all[2] == "last-write: " + t
    ensures all[3] == "file-length: " + Decimal.Print(n) && all[4] == "participants: " + parts && all[5] == DELIMITER
    ensures all[1..][1..] == all[2..] && all[2..][1..] == all[3..] && all[3..][1..] == all[4..]
            && all[4..][1..] == all[5..]
    ensures all[5..][1..] == all[6..] == lines
    ensures forall r: Reader :: Step(r, MARKER) == Some(r.(inHeader := true))
    ensures forall st: Snapshot :: Step(Reader(true, false, st), DELIMITER) == Some(Reader(false, true, st))
  {
    assert MARKER[0] != DELIMITER[0];
  }

  lemma LinesOfText(w: string, t: string, parts: string, ms: seq<Message>, n: nat)
    requires LegalField(w) && LegalField(t) && LegalParts(parts) && AllFit(ms)
    requires n == |FileText(w, t, parts, EncodedLines(ms))| <= INT64_MAX
    ensures Lines(FileText(w, t, parts, EncodedLines(ms)), MAX_MESSAGE_LEN)
            == FileLines(w, t, parts, EncodedLines(ms), n)
  {
    hide Unlines, Lines, FileLines, BareLines, Fits;
    LengthHeaderTrue(w, t, parts, EncodedLines(ms));
    AllLinesClean(w, t, parts, ms, n);
    LinesUnlines(FileLines(w, t, parts, EncodedLines(ms), n), MAX_MESSAGE_LEN);
  }

  /** What chat_read makes of a file in the shape all the writers give it. */
  lemma ReadText(w: string, t: string, parts: string, ms: seq<Message>)
    requires LegalField(w) && LegalField(t) && LegalParts(parts) && AllFit(ms)
    requires |FileText(w, t, parts, EncodedLines(ms))| <= INT64_MAX
    ensures var text := FileText(w, t, parts, EncodedLines(ms));
            Read(text) == Some(Snapshot(w, t, |text|, Parse(parts, MAX_PARTICIPANTS),
              Truncate(SeenAll(ms), MAX_MESSAGES), 0))
  {
    hide FileText, Lines, ReadFrom, FileLines, Fits, Parse, LegalParts;
    var n := |FileText(w, t, parts, EncodedLines(ms))|;
    LinesOfText(w, t, parts, ms, n);
    ReadHeader(w, t, parts, EncodedLines(ms), n);
    ReadMessages(Snapshot(w, t, n, Parse(parts, MAX_PARTICIPANTS), [], 0), ms);
    assert [] + SeenAll(ms) == SeenAll(ms);
  }

  lemma TableParts(ps: seq<Participant>)
    requires LegalTable(ps) && |ps| * (MAX_HANDLE_LEN + 14) < PARTS_BUFFER
    ensures LegalParts(Format(ps)) && Parse(Format(ps), MAX_PARTICIPANTS) == ps
  {
    hide LegalTable, Parse, Format;
    TableLength(ps);
    FormatClean(ps);
    ParseFormat(ps, MAX_PARTICIPANTS);
  }

  /** What chat_read makes of a legal chat file whose size fits in 64 bits. */
  lemma ReadRender(c: Chat)
    requires LegalChat(c) && |Render(c)| <= INT64_MAX
    ensures Read(Render(c)) == Some(Snapshot(c.lastWriter, c.lastWrite, |Render(c)|, c.participants,
                                             Truncate(SeenAll(c.messages), MAX_MESSAGES), 0))
  {
    hide FileText, Read, Parse, Format, LegalTable, Fits, LegalParts, LegalField;
    TableParts(c.participants);
    ReadText(c.lastWriter, c.lastWrite, Format(c.participants), c.messages);
  }

  lemma {:induction false} NoneBlank(lines: seq<string>)
    requires forall i | 0 <= i < |lines| :: !Blank(lines[i])
    ensures NonBlank(lines) == lines
  {
    hide Blank;
    if lines != [] {
      NoneBlank(lines[1..]);
    }
  }

  lemma NonBlankEncoded(ms: seq<Message>)
    requires AllFit(ms)
    ensures NonBlank(EncodedLines(ms)) == EncodedLines(ms)
  {
    hide Fits, EncodedLine, Blank, NonBlank;
    forall i | 0 <= i < |ms| ensures !Blank(EncodedLines(ms)[i]) {
      EncodedLineClean(ms[i]);
    }
    NoneBlank(EncodedLines(ms));
  }

  lemma CollectStep(lines: seq<string>, seen: bool)
    requires lines != [] && lines[0] != MARKER && lines[0] != DELIMITER
    ensures Collect(lines, seen) == Collect(lines[1..], seen)
  {
  }

  lemma CollectHeader(w: string, t: string, parts: string, lines: seq<string>, n: int)
    ensures Collect(FileLines(w, t, parts, lines, n), false) == NonBlank(lines)
  {
    hide Decimal.Print, NonBlank;
    var all := FileLines(w, t, parts, lines, n);
    StepsOfHeader(all, w, t, parts, lines, n);
    assert MARKER[0] == '=' && DELIMITER[0] == '-';
    assert all[1][0] == 'l' && all[2][0] == 'l' && all[3][0] == 'f' && all[4][0] == 'p';
    assert Collect(all[5..], true) == NonBlank(lines);
    hide FileLines;
    CollectStep(all[4..], true);
    CollectStep(all[3..], true);
    CollectStep(all[2..], true);
    CollectStep(all[1..], true);
  }

  /** The raw scan of chat_send finds exactly the message lines. */
  lemma CollectRender(c: Chat)
    requires LegalChat(c) && |Render(c)| <= INT64_MAX
    ensures Collect(Lines(Render(c), MAX_MESSAGE_LEN), false) == EncodedLines(c.messages)
  {
    hide FileText, Lines, FileLines, Format, LegalTable, Fits, NonBlank, Collect, LegalParts, LegalField;
    TableParts(c.participants);
    LinesOfText(c.lastWriter, c.lastWrite, Format(c.participants), c.messages, |Render(c)|);
    CollectHeader(c.lastWriter, c.lastWrite, Format(c.participants), EncodedLines(c.messages), |Render(c)|);
    NonBlankEncoded(c.messages);
  }

  /** The chat after one more message. */
  function Append(c: Chat, m: Message, stamp: string): Chat {
    Chat(m.handle, stamp, Update(c.participants, m.handle, MAX_PARTICIPANTS), c.messages + [m])
  }

  /** chat_send aborts on this chat: the participant buffer or the line limit is exceeded. */
  predicate TooFull(c: Chat, handle: string) {
    |Update(c.participants, handle, MAX_PARTICIPANTS)| * (MAX_HANDLE_LEN + 14) >= PARTS_BUFFER
      || |c.messages| > MAX_MESSAGES
  }

  lemma UpdateLegal(ps: seq<Participant>, handle: string, max: nat)
    requires LegalTable(ps) && LegalHandle(handle)
    requires forall i | 0 <= i < |ps| :: ps[i].handle == handle ==> ps[i].count < INT_MAX
    ensures LegalTable(Update(ps, handle, max))
  {
    hide LegalHandle;
    LegalLength(handle);
  }

  lemma AppendLegal(c: Chat, m: Message, stamp: string)
    requires LegalChat(c) && Fits(m) && LegalField(stamp) && !TooFull(c, m.handle)
    requires forall i | 0 <= i < |c.participants| ::
               c.participants[i].handle == m.handle ==> c.participants[i].count < INT_MAX
    ensures LegalChat(Append(c, m, stamp))
  {
    hide Update, LegalTable, EncodedLine;
    LegalLength(m.handle);
    assert forall k | 0 <= k < |m.handle| :: HandleChar(m.handle[k]);
    UpdateLegal(c.participants, m.handle, MAX_PARTICIPANTS);
  }

  lemma FitsNotTooLong(m: Message)
    requires Fits(m)
    ensures !TooLong(m)
  {
    hide LegalMessage, WireText;
  }

  lemma EncodedSnoc(ms: seq<Message>, m: Message)
    requires AllFit(ms) && Fits(m)
    ensures AllFit(ms + [m]) && EncodedLines(ms + [m]) == EncodedLines(ms) + [EncodedLine(m)]
  {
    hide EncodedLine, LegalMessage;
  }

  /**
   * chat_send on a legal file: it aborts exactly when the chat is too full, and otherwise writes the
   * legal file of the chat with exactly one more message.
   */
  lemma SendAppends(c: Chat, m: Message, stamp: string)
    requires LegalChat(c) && |Render(c)| <= INT64_MAX && Fits(m) && LegalField(stamp)
    requires forall i | 0 <= i < |c.participants| ::
               c.participants[i].handle == m.handle ==> c.participants[i].count < INT_MAX
    ensures !TooFull(c, m.handle) ==> LegalChat(Append(c, m, stamp))
    ensures Send(Render(c), m, stamp) == if TooFull(c, m.handle) then None else Some(Render(Append(c, m, stamp)))
  {
    hide FileText, Fits, EncodedLine, LegalTable, Update, Format, Read, Collect, LegalField, EncodedLines, TooLong;
    FitsNotTooLong(m);
    ReadRender(c);
    CollectRender(c);
    if !TooFull(c, m.handle) {
      AppendLegal(c, m, stamp);
      TableLength(Append(c, m, stamp).participants);
      EncodedSnoc(c.messages, m);
    }
  }

  /** What readers see after a send: the old messages and exactly the new one, as long as they are read at all. */
  lemma SendThenRead(c: Chat, m: Message, stamp: string)
    requires LegalChat(c) && Fits(m) && LegalField(stamp) && !TooFull(c, m.handle)
    requires forall i | 0 <= i < |c.participants| ::
               c.participants[i].handle == m.handle ==> c.participants[i].count < INT_MAX
    ensures var before, text := Read(Render(c)), Send(Render(c), m, stamp);
            && before.Some? && text.Some? && Read(text.value).Some?
            && var after := Read(text.value).value;
            && after.lastWriter == m.handle && after.lastWrite == stamp && after.fileLength == |text.value|
            && after.participants == Update(before.value.participants, m.handle, MAX_PARTICIPANTS)
            && (after.messages == before.value.messages + [Seen(m)] <==> |c.messages| < MAX_MESSAGES)
  {
    hide Render, LegalChat, Fits, Update, Read, Send, LegalField;
    RenderSize(c);
    SendAppends(c, m, stamp);
    RenderSize(Append(c, m, stamp));
    ReadRender(c);
    ReadRender(Append(c, m, stamp));
    assert SeenAll(c.messages + [m]) == SeenAll(c.messages) + [Seen(m)];
  }

  // ---------- file sizes ----------

  lemma {:induction false} UnlinesSize(ls: seq<string>, size: nat)
    requires forall i | 0 <= i < |ls| :: |ls[i]| + 1 <= size
    ensures |Unlines(ls)| <= |ls| * size
  {
    if ls != [] {
      UnlinesSize(ls[1..], size);
      assert |ls| * size == size + (|ls| - 1) * size;
    }
  }

  lemma FileLengthSize(baseSize: nat)
    ensures Decimal.FileLength(baseSize) <= 3 * baseSize + 30
  {
    Decimal.DigitsAtMostValue(baseSize);
    Decimal.DigitsAtMostValue(baseSize + 14 + |Decimal.Digits(baseSize)|);
  }

  /** A file of as many lines as chat_send ever writes fits in 64 bits. */
  lemma TextSize(w: string, t: string, parts: string, ms: seq<Message>)
    requires LegalField(w) && LegalField(t) && LegalParts(parts) && AllFit(ms) && |ms| <= MAX_MESSAGES + 1
    ensures |FileText(w, t, parts, EncodedLines(ms))| <= INT64_MAX
  {
    hide Unlines, EncodedLine, Fits, EncodedLines;
    var lines := EncodedLines(ms);
    var bare := BareLines(w, t, parts, lines);
    forall i | 0 <= i < |lines| ensures |lines[i]| + 1 <= MAX_MESSAGE_LEN {
      EncodedLineClean(ms[i]);
    }
    UnlinesSize(bare, MAX_MESSAGE_LEN);
    assert |bare| <= 10006;
    FileLengthSize(|Unlines(bare)|);
    LengthHeaderTrue(w, t, parts, lines);
  }

  lemma RenderSize(c: Chat)
    requires LegalChat(c) && |c.messages| <= MAX_MESSAGES + 1
    ensures |Render(c)| <= INT64_MAX
  {
    hide FileText, Format, LegalTable, Fits, LegalParts, LegalField;
    TableParts(c.participants);
    TextSize(c.lastWriter, c.lastWrite, Format(c.participants), c.messages);
  }

  // ---------- archiving ----------

  /** The archive file that chat_auto_archive writes. */
  function ArchiveText(lines: seq<string>, stamp: string): string
    requires |lines| >= ARCHIVE_CLEAVE
  {
    FileText("system", stamp, "(archived)", lines[..ARCHIVE_CLEAVE])
  }

  /** The trimmed chat file, with the header fields of the send before it. */
  function TrimmedText(writer: string, lastWrite: string, parts: seq<Participant>, lines: seq<string>): string
    requires |lines| >= ARCHIVE_CLEAVE
  {
    FileText(writer, lastWrite, Truncate(Format(parts), PARTS_BUFFER - 1), lines[ARCHIVE_CLEAVE..])
  }

  /** The trimmed header must fit chat_auto_archive's buffer, or it gives up with the archive already in place. */
  predicate HeaderFits(writer: string, lastWrite: string, parts: string) {
    |Unlines(BareLines(writer, lastWrite, parts, []))| < 4096
  }

  function Trim(c: Chat): Chat
    requires |c.messages| >= ARCHIVE_CLEAVE
  {
    c.(messages := c.messages[ARCHIVE_CLEAVE..])
  }

  lemma EncodedSlices(ms: seq<Message>, n: nat)
    requires AllFit(ms) && n <= |ms|
    ensures AllFit(ms[..n]) && AllFit(ms[n..])
    ensures EncodedLines(ms)[..n] == EncodedLines(ms[..n]) && EncodedLines(ms)[n..] == EncodedLines(ms[n..])
  {
    hide Fits, EncodedLine;
  }

  /** The two files of an archive step hold the old messages between them: the first thousand and the rest. */
  lemma ArchiveSplits(c: Chat, stamp: string)
    requires LegalChat(c) && ARCHIVE_CLEAVE <= |c.messages| <= MAX_MESSAGES + 1 && LegalField(stamp)
    ensures LegalChat(Trim(c))
    ensures TrimmedText(c.lastWriter, c.lastWrite, c.participants, EncodedLines(c.messages)) == Render(Trim(c))
    ensures var text := ArchiveText(EncodedLines(c.messages), stamp);
            Read(text) == Some(Snapshot("system", stamp, |text|, [], SeenAll(c.messages[..ARCHIVE_CLEAVE]), 0))
  {
    hide FileText, Format, LegalTable, Fits, Read, EncodedLine, EncodedLines, LegalField, Parse;
    EncodedSlices(c.messages, ARCHIVE_CLEAVE);
    TableLength(c.participants);
    ArchiveHeader();
    var front := c.messages[..ARCHIVE_CLEAVE];
    TextSize("system", stamp, "(archived)", front);
    ReadText("system", stamp, "(archived)", front);
  }

  lemma ArchiveHeader()
    ensures LegalField("system") && LegalParts("(archived)") && Parse("(archived)", MAX_PARTICIPANTS) == []
  {
    var s := "(archived)";
    assert SkipSeparators(s) == s;
    assert Run(s, EndsHandle) == 0;
  }

  // ---------- truncating ----------

  datatype Edit = Aborted | Unchanged | Replaced(text: string)

  function Authors(ms: seq<Message>): seq<string> {
    seq(|ms|, i requires 0 <= i < |ms| => ms[i].handle)
  }

  /** The lines that chat_truncate counts: everything behind the header that is not empty. */
  function RawLines(lines: seq<string>, seenMarker: bool): seq<string> {
    if lines == [] then []
    else if lines[0] == MARKER then RawLines(lines[1..], true)
    else if lines[0] == DELIMITER && seenMarker then NonEmpty(lines[1..])
    else RawLines(lines[1..], seenMarker)
  }

  function NonEmpty(lines: seq<string>): seq<string> {
    if lines == [] then [] else (if lines[0] == "" then [] else [lines[0]]) + NonEmpty(lines[1..])
  }

  /** chat_truncate; `stamp` is the local time of the last kept message, or the present. */
  function Shorten(file: string, keep: nat, stamp: string): Edit {
    match Read(file)
    case None => Aborted
    case Some(st) =>
      if keep >= |st.messages| then Unchanged
      else
        var parts := Tally(Authors(st.messages[..keep]), MAX_PARTICIPANTS);
        var writer := if keep > 0 then Truncate(st.messages[keep - 1].handle, MAX_HANDLE_LEN - 1) else "";
        var lines := Truncate(RawLines(Lines(file, MAX_MESSAGE_LEN), false), keep);
        Replaced(FileText(writer, stamp, Truncate(Format(parts), PARTS_BUFFER - 1), lines))
  }

  /** The chat of the first `keep` messages, its participants counted afresh. */
  function Kept(c: Chat, keep: nat, stamp: string): Chat
    requires keep <= |c.messages|
  {
    Chat(if keep > 0 then c.messages[keep - 1].handle else "", stamp,
         Tally(Authors(c.messages[..keep]), MAX_PARTICIPANTS), c.messages[..keep])
  }

  lemma {:induction false} NoneEmpty(lines: seq<string>)
    requires forall i | 0 <= i < |lines| :: lines[i] != ""
    ensures NonEmpty(lines) == lines
  {
    if lines != [] {
      NoneEmpty(lines[1..]);
    }
  }

  lemma RawStep(lines: seq<string>, seen: bool)
    requires lines != [] && lines[0] != MARKER && lines[0] != DELIMITER
    ensures RawLines(lines, seen) == RawLines(lines[1..], seen)
  {
  }

  lemma RawHeader(w: string, t: string, parts: string, lines: seq<string>, n: int)
    ensures RawLines(FileLines(w, t, parts, lines, n), false) == NonEmpty(lines)
  {
    hide Decimal.Print, NonEmpty;
    var all := FileLines(w, t, parts, lines, n);
    StepsOfHeader(all, w, t, parts, lines, n);
    assert MARKER[0] == '=' && DELIMITER[0] == '-';
    assert all[1][0] == 'l' && all[2][0] == 'l' && all[3][0] == 'f' && all[4][0] == 'p';
    assert RawLines(all[5..], true) == NonEmpty(lines);
    hide FileLines;
    RawStep(all[4..], true);
    RawStep(all[3..], true);
    RawStep(all[2..], true);
    RawStep(all[1..], true);
  }

  lemma RawRender(c: Chat)
    requires LegalChat(c) && |Render(c)| <= INT64_MAX
    ensures RawLines(Lines(Render(c), MAX_MESSAGE_LEN), false) == EncodedLines(c.messages)
  {
    hide FileText, Lines, FileLines, Format, LegalTable, Fits, NonEmpty, RawLines, LegalParts, LegalField, EncodedLine;
    TableParts(c.participants);
    var lines := EncodedLines(c.messages);
    LinesOfText(c.lastWriter, c.lastWrite, Format(c.participants), c.messages, |Render(c)|);
    RawHeader(c.lastWriter, c.lastWrite, Format(c.participants), lines, |Render(c)|);
    forall i | 0 <= i < |lines| ensures lines[i] != "" {
      EncodedLineClean(c.messages[i]);
    }
    NoneEmpty(lines);
  }

  lemma {:induction false} TallyLegal(hs: seq<string>, max: nat)
    requires |hs| <= INT_MAX && forall i | 0 <= i < |hs| :: LegalHandle(hs[i])
    ensures LegalTable(Tally(hs, max)) && forall i | 0 <= i < |Tally(hs, max)| :: Tally(hs, max)[i].count <= |hs|
  {
    hide LegalHandle;
    if hs != [] {
      var front, last := hs[..|hs| - 1], hs[|hs| - 1];
      TallyLegal(front, max);
      LegalLength(last);
    }
  }

  lemma KeptLegal(c: Chat, keep: nat, stamp: string)
    requires LegalChat(c) && keep <= |c.messages| <= MAX_MESSAGES && LegalField(stamp)
    requires |Kept(c, keep, stamp).participants| * (MAX_HANDLE_LEN + 14) < PARTS_BUFFER
    ensures LegalChat(Kept(c, keep, stamp))
  {
    hide LegalTable, EncodedLine, Tally;
    var hs := Authors(c.messages[..keep]);
    forall i | 0 <= i < keep ensures LegalHandle(hs[i]) && LegalField(hs[i]) {
      LegalLength(hs[i]);
      assert forall k | 0 <= k < |hs[i]| :: HandleChar(hs[i][k]);
    }
    TallyLegal(hs, MAX_PARTICIPANTS);
  }

  lemma AuthorsSeen(ms: seq<Message>, keep: nat)
    requires keep <= |ms|
    ensures Authors(SeenAll(ms)[..keep]) == Authors(ms[..keep])
  {
  }

  /**
   * chat_truncate on a legal file leaves the legal file of the kept messages, and the participants are
   * the histogram of exactly those messages, whatever the header said before.
   */
  lemma ShortenKeeps(c: Chat, keep: nat, stamp: string)
    requires LegalChat(c) && keep < |c.messages| <= MAX_MESSAGES && LegalField(stamp)
    requires |Kept(c, keep, stamp).participants| * (MAX_HANDLE_LEN + 14) < PARTS_BUFFER
    ensures LegalChat(Kept(c, keep, stamp)) && Shorten(Render(c), keep, stamp) == Replaced(Render(Kept(c, keep, stamp)))
    ensures IsHistogram(Kept(c, keep, stamp).participants, Authors(c.messages[..keep]), MAX_PARTICIPANTS)
  {
    hide FileText, Fits, EncodedLine, LegalTable, Format, Read, RawLines, LegalField, EncodedLines, Tally, IsHistogram,
         SeenAll, Authors;
    RenderSize(c);
    ReadRender(c);
    RawRender(c);
    KeptLegal(c, keep, stamp);
    TableLength(Kept(c, keep, stamp).participants);
    EncodedSlices(c.messages, keep);
    AuthorsSeen(c.messages, keep);
    AuthorsShort(c.messages[..keep]);
    TallyIsHistogram(Authors(c.messages[..keep]), MAX_PARTICIPANTS);
  }

  lemma AuthorsShort(ms: seq<Message>)
    requires AllFit(ms)
    ensures |Authors(ms)| == |ms| && forall i | 0 <= i < |ms| ::
              |Authors(ms)[i]| < MAX_HANDLE_LEN && ms[i].handle == Authors(ms)[i]
  {
  }

  lemma {:induction false} TallyCounted(hs: seq<string>, max: nat)
    ensures CutTable.Counted(Tally(hs, max)) && |Tally(hs, max)| <= max
  {
    if hs != [] {
      TallyCounted(hs[..|hs| - 1], max);
    }
  }

  /** The header fields and lines that chat_truncate writes for any number of authors. */
  lemma ShortenWrites(c: Chat, keep: nat, stamp: string)
    requires LegalChat(c) && keep < |c.messages| <= MAX_MESSAGES + 1 && keep < MAX_MESSAGES
    ensures AllFit(c.messages[..keep])
    ensures var kept := Kept(c, keep, stamp);
            Shorten(Render(c), keep, stamp)
              == Replaced(FileText(kept.lastWriter, stamp, Truncate(Format(kept.participants), PARTS_BUFFER - 1),
                EncodedLines(kept.messages)))
  {
    hide FileText, Fits, EncodedLine, LegalTable, Format, Read, RawLines, LegalField, EncodedLines, Tally, SeenAll,
         Authors;
    RenderSize(c);
    ReadRender(c);
    RawRender(c);
    EncodedSlices(c.messages, keep);
    AuthorsSeen(c.messages, keep);
    var seen := Truncate(SeenAll(c.messages), MAX_MESSAGES);
    assert seen[..keep] == SeenAll(c.messages)[..keep];
    if keep > 0 {
      KeptHandle(c, keep);
    }
  }

  lemma KeptHandle(c: Chat, keep: nat)
    requires LegalChat(c) && 0 < keep < |c.messages|
    ensures LegalField(c.messages[keep - 1].handle)
            && Truncate(c.messages[keep - 1].handle, MAX_HANDLE_LEN - 1) == c.messages[keep - 1].handle
  {
    hide EncodedLine, WireText;
    var h := c.messages[keep - 1].handle;
    LegalLength(h);
    assert forall k | 0 <= k < |h| :: HandleChar(h[k]);
  }

  /** What chat_truncate makes of the participants: all of them, or the front of the list that its buffer holds. */
  lemma CutParticipants(hs: seq<string>)
    requires |hs| <= INT_MAX && forall i | 0 <= i < |hs| :: LegalHandle(hs[i])
    ensures var text := Format(Tally(hs, MAX_PARTICIPANTS));
            && LegalParts(Truncate(text, PARTS_BUFFER - 1))
            && (Parse(Truncate(text, PARTS_BUFFER - 1), MAX_PARTICIPANTS) == Tally(hs, MAX_PARTICIPANTS)
               <==> |text| <= PARTS_BUFFER)
  {
    hide Tally, Format, Parse, LegalTable, LegalHandle;
    var ps := Tally(hs, MAX_PARTICIPANTS);
    TallyLegal(hs, MAX_PARTICIPANTS);
    TallyCounted(hs, MAX_PARTICIPANTS);
    FormatClean(ps);
    var n := if |Format(ps)| < PARTS_BUFFER then |Format(ps)| else PARTS_BUFFER - 1;
    assert Truncate(Format(ps), PARTS_BUFFER - 1) == Format(ps)[..n];
    CutTable.CutFormat(ps, n, MAX_PARTICIPANTS);
  }

  /**
   * What readers see after chat_truncate, with any number of authors, for which it has no guard: exactly the
   * kept messages, and their histogram exactly if its text is no longer than the buffer.
   */
  lemma ShortenReads(c: Chat, keep: nat, stamp: string)
    requires LegalChat(c) && keep < |c.messages| <= MAX_MESSAGES + 1 && keep < MAX_MESSAGES && LegalField(stamp)
    ensures Shorten(Render(c), keep, stamp).Replaced? && Read(Shorten(Render(c), keep, stamp).text).Some?
    ensures var kept, st := Kept(c, keep, stamp), Read(Shorten(Render(c), keep, stamp).text).value;
            && st.lastWriter == (if keep > 0 then c.messages[keep - 1].handle else "") && st.lastWrite == stamp
               && st.fileLength == |Shorten(Render(c), keep, stamp).text|
            && st.messages == SeenAll(c.messages[..keep]) && st.skipped == 0
            && IsHistogram(kept.participants, Authors(c.messages[..keep]), MAX_PARTICIPANTS)
            && (st.participants == kept.participants <==> |Format(kept.participants)| <= PARTS_BUFFER)
  {
    hide FileText, Fits, EncodedLine, Format, Read, LegalField, EncodedLines, Tally, IsHistogram, SeenAll, Authors,
         Shorten, LegalParts, Parse, LegalTable, LegalHandle;
    var ms, writer := c.messages[..keep], Kept(c, keep, stamp).lastWriter;
    ShortenWrites(c, keep, stamp);
    AuthorsShort(ms);
    AuthorsLegal(ms);
    CutParticipants(Authors(ms));
    TallyIsHistogram(Authors(ms), MAX_PARTICIPANTS);
    KeptWriter(c, keep, stamp);
    var parts := Truncate(Format(Kept(c, keep, stamp).participants), PARTS_BUFFER - 1);
    TextSize(writer, stamp, parts, ms);
    ReadText(writer, stamp, parts, ms);
  }

  lemma KeptWriter(c: Chat, keep: nat, stamp: string)
    requires LegalChat(c) && keep < |c.messages|
    ensures LegalField(Kept(c, keep, stamp).lastWriter)
  {
    hide Tally;
    if keep > 0 {
      KeptHandle(c, keep);
    }
  }

  lemma AuthorsLegal(ms: seq<Message>)
    requires AllFit(ms)
    ensures forall i | 0 <= i < |Authors(ms)| :: LegalHandle(Authors(ms)[i])
  {
    hide EncodedLine, WireText;
  }
}
