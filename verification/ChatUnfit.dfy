/**
 * What becomes of a message whose line is longer than the reader's buffer: chat_send writes it, and no reader
 * gets it back.
 */
module ChatUnfit {
  import opened Bytes
  import opened Limits
  import opened TextFile
  import opened Participants
  import opened Wire
  import opened ChatFile
  import Base64
  import Decimal

  /** The most characters that one fgets call of the reader takes. */
  const CHUNK: nat := MAX_MESSAGE_LEN - 1

  predicate Base64Chars(s: string) {
    forall i | 0 <= i < |s| :: Base64.IsValidChar(s[i])
  }

  /** The lines that the reader sees of one line. */
  function Pieces(line: string): seq<string>
    decreases |line|
  {
    if |line| < CHUNK then [line] else [line[..CHUNK]] + Pieces(line[CHUNK..])
  }

  lemma CharsPlain(s: string)
    requires Base64Chars(s)
    ensures NUL !in s && LF !in s && CR !in s && ' ' !in s
  {
    assert !Base64.IsValidChar(NUL) && !Base64.IsValidChar(LF) && !Base64.IsValidChar(CR) && !Base64.IsValidChar(' ');
  }

  lemma FirstPiece(line: string, rest: string)
    requires |line| >= CHUNK && Base64Chars(line)
    ensures var s := line + "\n" + rest;
            FgetsLength(s, MAX_MESSAGE_LEN) == CHUNK && StripEol(CString(s[..CHUNK])) == line[..CHUNK]
              && s[CHUNK..] == line[CHUNK..] + "\n" + rest
  {
    var s := line + "\n" + rest;
    CharsPlain(line);
    assert forall k | 0 <= k < |line| :: s[k] == line[k] && line[k] in line;
    IndexAt(s, LF, |line|);
    assert s[..CHUNK] == line[..CHUNK];
    CStringWhole(line[..CHUNK]);
    assert line[..CHUNK][CHUNK - 1] in line;
  }

  lemma {:induction false} LongLine(line: string, rest: string)
    requires Base64Chars(line)
    ensures Lines(line + "\n" + rest, MAX_MESSAGE_LEN) == Pieces(line) + Lines(rest, MAX_MESSAGE_LEN)
    decreases |line|
  {
    hide FgetsLength, StripEol, CString, Base64.IsValidChar;
    if |line| < CHUNK {
      CharsPlain(line);
      LineRead(line, rest, MAX_MESSAGE_LEN);
    } else {
      FirstPiece(line, rest);
      LongLine(line[CHUNK..], rest);
    }
  }

  lemma {:induction false} LinesBefore(ls: seq<string>, rest: string)
    requires AllClean(ls, MAX_MESSAGE_LEN)
    ensures Lines(Unlines(ls) + rest, MAX_MESSAGE_LEN) == ls + Lines(rest, MAX_MESSAGE_LEN)
  {
    hide FgetsLength, StripEol, CString, Clean, Lines;
    if ls != [] {
      LineBefore(ls[0], Unlines(ls[1..]) + rest);
      LinesBefore(ls[1..], rest);
      assert Unlines(ls) + rest == ls[0] + "\n" + (Unlines(ls[1..]) + rest);
      assert ls == [ls[0]] + ls[1..];
    } else {
      assert Unlines(ls) + rest == rest;
    }
  }

  lemma LineBefore(line: string, rest: string)
    requires Clean(line, MAX_MESSAGE_LEN)
    ensures Lines(line + "\n" + rest, MAX_MESSAGE_LEN) == [line] + Lines(rest, MAX_MESSAGE_LEN)
  {
    hide FgetsLength, StripEol, CString, Clean;
    LineRead(line, rest, MAX_MESSAGE_LEN);
  }

  // ---------- what the reader makes of the pieces ----------

  /**
   * What is left of the text of a message when its line is taken in pieces: the last piece, if it starts where
   * a block of base64 starts, which is so behind every fourth piece.
   */
  function LastPart(w: string): string {
    if Base64.EncodedLength(|w|) < CHUNK then w
    else if |w| < 3 * CHUNK then ""
    else LastPart(w[3 * CHUNK..])
  }

  lemma PartLength(n: nat)
    requires n >= 3 * CHUNK
    ensures Base64.EncodedLength(n) == 4 * CHUNK + Base64.EncodedLength(n - 3 * CHUNK)
  {
    Base64.EncodedLengthIs(n);
    Base64.EncodedLengthIs(n - 3 * CHUNK);
    var blocks := (n - 3 * CHUNK + 2) / 3;
    assert 3 * (CHUNK + blocks) <= n + 2 < 3 * (CHUNK + blocks) + 3;
  }

  lemma WholeBlocks(n: nat)
    requires n < 3 * CHUNK
    ensures Base64.EncodedLength(n) <= 4 * CHUNK
  {
    Base64.EncodedLengthIs(n);
    assert (n + 2) / 3 <= CHUNK;
  }

  /** The messages that a reader then has. */
  function Gained(ms: seq<Message>, part: string): seq<Message> {
    if |ms| >= MAX_MESSAGES || part == "" then ms
    else
      match ParseWire(part)
      case Parsed(m) => ms + [m]
      case _ => ms
  }

  lemma NotHeader(piece: string)
    requires Base64Chars(piece)
    ensures piece != MARKER && piece != DELIMITER
  {
    assert !Base64.IsValidChar(MARKER[3]) && !Base64.IsValidChar(DELIMITER[0]);
  }

  /** A piece that is no whole number of blocks is counted as corrupt, or ignored. */
  lemma SkipPiece(st: Snapshot, piece: string)
    requires Base64Chars(piece) && |piece| % 4 != 0
    ensures var r := Step(Reader(false, true, st), piece);
            r.Some? && r.value == Reader(false, true, r.value.state) && r.value.state.messages == st.messages
  {
    hide DecodeLine, Blank, Base64.IsValidChar;
    NotHeader(piece);
  }

  lemma LastPiece(st: Snapshot, w: seq<octet>)
    requires NUL !in w
    ensures var r := Step(Reader(false, true, st), Base64.Encode(w));
            r.Some? && r.value == Reader(false, true, r.value.state) && r.value.state.messages == Gained(st.messages, w)
  {
    hide DecodeLine, Base64.Encode, ParseWire;
    if w == [] {
      assert Base64.Encode(w) == "" by { NothingEncoded(); }
      NotHeader("");
    } else {
      EncodedIsBase64(w);
      NotHeader(Base64.Encode(w));
      NeverAborts(w);
      assert !Blank(Base64.Encode(w)) by {
        assert !Base64.IsValidChar(' ');
        assert Base64.IsValidChar(Base64.Encode(w)[0]);
      }
    }
  }

  lemma NothingEncoded()
    ensures Base64.Encode([]) == ""
  {
  }

  lemma NeverAborts(w: string)
    requires NUL !in w
    ensures ParseWire(w) != Abort
  {
    hide ColonSpace, Index, Epoch;
  }

  lemma OnePiece(st: Snapshot, line: string, next: Reader)
    requires |line| >= CHUNK && Step(Reader(false, true, st), line[..CHUNK]) == Some(next)
    ensures ReadFrom(Reader(false, true, st), Pieces(line)) == ReadFrom(next, Pieces(line[CHUNK..]))
  {
    hide Step;
    ReadStep(Reader(false, true, st), Pieces(line), next);
  }

  lemma PieceLengths(length: nat, c: nat)
    requires c < 4 && length >= CHUNK && length % 4 == c
    ensures CHUNK % 4 == 3 && (length - CHUNK) % 4 == (c + 1) % 4
  {
    assert CHUNK == 4 * 262143 + 3;
  }

  /** A line that starts within a block and ends before the next piece could start with one. */
  lemma {:induction false} SkipPieces(st: Snapshot, line: string, c: nat)
    requires Base64Chars(line) && 0 < c < 4 && |line| % 4 == c && |line| < (4 - c) * CHUNK
    ensures var r := ReadFrom(Reader(false, true, st), Pieces(line)); r.Some? && r.value.state.messages == st.messages
    decreases |line|
  {
    hide Step, Base64.IsValidChar, Pieces;
    if |line| < CHUNK {
      SkipPiece(st, line);
      ShortPieces(line);
      ReadStep(Reader(false, true, st), [line], Step(Reader(false, true, st), line).value);
    } else {
      PieceLengths(|line|, c);
      SkipPiece(st, line[..CHUNK]);
      var next := Step(Reader(false, true, st), line[..CHUNK]).value;
      OnePiece(st, line, next);
      SkipPieces(next.state, line[CHUNK..], c + 1);
    }
  }

  lemma ShortPieces(line: string)
    requires |line| < CHUNK
    ensures Pieces(line) == [line]
  {
  }

  /** Four pieces are whole blocks together, and each alone is not. */
  lemma SkipFour(st: Snapshot, line: string)
    requires Base64Chars(line) && |line| >= 4 * CHUNK
    ensures exists next: Snapshot ::
              next.messages == st.messages
              && ReadFrom(Reader(false, true, st), Pieces(line))
                 == ReadFrom(Reader(false, true, next), Pieces(line[4 * CHUNK..]))
  {
    hide Step, Base64.IsValidChar, Pieces, ReadFrom;
    assert CHUNK % 4 == 3 by { PieceLengths(CHUNK, 3); }
    var l1, l2, l3 := line[CHUNK..], line[2 * CHUNK..], line[3 * CHUNK..];
    assert l1[CHUNK..] == l2 && l2[CHUNK..] == l3 && l3[CHUNK..] == line[4 * CHUNK..];
    SkipPiece(st, line[..CHUNK]);
    var s1 := Step(Reader(false, true, st), line[..CHUNK]).value;
    OnePiece(st, line, s1);
    SkipPiece(s1.state, l1[..CHUNK]);
    var s2 := Step(s1, l1[..CHUNK]).value;
    OnePiece(s1.state, l1, s2);
    SkipPiece(s2.state, l2[..CHUNK]);
    var s3 := Step(s2, l2[..CHUNK]).value;
    OnePiece(s2.state, l2, s3);
    SkipPiece(s3.state, l3[..CHUNK]);
    OnePiece(s3.state, l3, Step(s3, l3[..CHUNK]).value);
  }

  lemma {:induction false} EncodeDrop(x: seq<octet>, n: nat)
    requires 3 * n <= |x|
    ensures 4 * n <= |Base64.Encode(x)| && Base64.Encode(x)[4 * n..] == Base64.Encode(x[3 * n..])
    decreases n
  {
    hide Base64.Group, Base64.EncodedLength;
    if n > 0 {
      EncodeDrop(x[3..], n - 1);
      var g := Base64.Group(x[0], x[1], x[2], 4);
      assert Base64.Encode(x) == g + Base64.Encode(x[3..]);
      assert x[3..][3 * (n - 1)..] == x[3 * n..];
      assert (g + Base64.Encode(x[3..]))[4 * n..] == Base64.Encode(x[3..])[4 * (n - 1)..];
    } else {
      assert x[0..] == x;
    }
  }

  lemma EncodedChars(w: seq<octet>)
    ensures Base64Chars(Base64.Encode(w)) && |Base64.Encode(w)| % 4 == 0
  {
    hide Base64.Encode;
    if w == [] {
      NothingEncoded();
    } else {
      EncodedIsBase64(w);
    }
  }

  /**
   * What the reader makes of the line of any text without NUL: it never aborts, and exactly the last part can
   * be a message.
   */
  lemma {:induction false} ReadPieces(st: Snapshot, w: seq<octet>)
    requires NUL !in w
    ensures var r := ReadFrom(Reader(false, true, st), Pieces(Base64.Encode(w)));
            r.Some? && r.value.state.messages == Gained(st.messages, LastPart(w))
    decreases |w|
  {
    hide Step, Base64.IsValidChar, Base64.Encode, Base64.EncodedLength, Pieces, Gained, Base64Chars;
    var line := Base64.Encode(w);
    EncodedChars(w);
    if |line| < CHUNK {
      LastPiece(st, w);
      ShortPieces(line);
      ReadStep(Reader(false, true, st), [line], Step(Reader(false, true, st), line).value);
    } else if |line| < 4 * CHUNK {
      PartShort(w);
      CharsSlice(line, CHUNK);
      PieceLengths(|line|, 0);
      SkipPiece(st, line[..CHUNK]);
      var next := Step(Reader(false, true, st), line[..CHUNK]).value;
      OnePiece(st, line, next);
      SkipPieces(next.state, line[CHUNK..], 1);
      assert Gained(st.messages, "") == st.messages by { NothingGained(st.messages); }
    } else {
      SkipFour(st, line);
      var next: Snapshot :| next.messages == st.messages
                  && ReadFrom(Reader(false, true, st), Pieces(line))
                     == ReadFrom(Reader(false, true, next), Pieces(line[4 * CHUNK..]));
      if |w| < 3 * CHUNK {
        WholeBlocks(|w|);
        assert line[4 * CHUNK..] == Base64.Encode([]) by { NothingEncoded(); }
        ReadPieces(next, []);
        assert Gained(st.messages, "") == st.messages by { NothingGained(st.messages); }
      } else {
        PartLength(|w|);
        EncodeDrop(w, CHUNK);
        ReadPieces(next, w[3 * CHUNK..]);
      }
    }
  }

  lemma NothingGained(ms: seq<Message>)
    ensures Gained(ms, "") == ms
  {
  }

  lemma CharsSlice(line: string, n: nat)
    requires Base64Chars(line) && n <= |line|
    ensures Base64Chars(line[..n]) && Base64Chars(line[n..])
  {
  }

  lemma {:induction false} ReadBoth(r: Reader, a: seq<string>, b: seq<string>)
    ensures ReadFrom(r, a + b) == match ReadFrom(r, a) case Some(next) => ReadFrom(next, b) case None => None
    decreases |a|
  {
    hide Step;
    if a != [] {
      assert (a + b)[1..] == a[1..] + b && (a + b)[0] == a[0];
      if Step(r, a[0]).Some? {
        ReadBoth(Step(r, a[0]).value, a[1..], b);
      }
    } else {
      assert a + b == b;
    }
  }

  // ---------- a send of such a message ----------

  /** A legal message that chat_send takes although its line is too long for the reader. */
  predicate Unfit(m: Message) {
    LegalMessage(m) && IsBytes(m.handle) && IsBytes(m.content) && !Fits(m) && !TooLong(m)
  }

  lemma UnfitLine(m: Message)
    requires Unfit(m)
    ensures CHUNK <= |EncodedLine(m)| <= INT_MAX
    ensures |EncodedLine(m)| >= 4 * CHUNK ==> |m.content| >= CHUNK
  {
    hide Base64.EncodedLength, LegalMessage, WireText;
    FitsExactly(m);
    var n := |WireText(m)|;
    Base64.EncodedLengthIs(n);
    EncodedBounds(n);
    WireSize(m);
  }

  lemma EncodedBounds(n: nat)
    requires n <= INT_MAX / 4 * 3
    ensures (n + 2) / 3 * 4 <= INT_MAX && ((n + 2) / 3 * 4 >= 4 * CHUNK ==> n + 2 >= 3 * CHUNK)
    ensures (n + 2) / 3 * 4 + 2 > MAX_MESSAGE_LEN ==> (n + 2) / 3 * 4 >= CHUNK
  {
    var blocks := (n + 2) / 3;
    assert 3 * blocks <= n + 2 < 3 * blocks + 3;
  }

  lemma WireSize(m: Message)
    requires LegalMessage(m)
    ensures |WireText(m)| <= |m.content| + 100
  {
    hide Decimal.Digits;
    LegalLength(m.handle);
    if m.timestamp >= 0 {
      Decimal.NineteenDigits(m.timestamp);
    } else {
      TwentyDigits(-m.timestamp);
    }
  }

  lemma TwentyDigits(n: nat)
    requires n <= INT64_MAX + 1
    ensures |Decimal.Digits(n)| <= 20
  {
    Decimal.NineteenDigits(n / 10);
  }

  lemma LinesSnoc(w: string, t: string, parts: string, lines: seq<string>, line: string, n: int)
    ensures FileLines(w, t, parts, lines + [line], n) == FileLines(w, t, parts, lines, n) + [line]
    ensures BareLines(w, t, parts, lines + [line]) == BareLines(w, t, parts, lines) + [line]
  {
    hide Decimal.Print;
  }

  lemma LinesMore(w: string, t: string, parts: string, a: seq<string>, b: seq<string>, n: int)
    ensures FileLines(w, t, parts, a, n) + b == FileLines(w, t, parts, a + b, n)
  {
    hide Decimal.Print;
  }

  lemma UnlinesSnoc(ls: seq<string>, line: string)
    ensures Unlines(ls + [line]) == Unlines(ls) + (line + "\n" + "")
  {
    UnlinesConcat(ls, [line]);
    assert Unlines([line]) == line + "\n" + Unlines([]);
  }

  /** The size of a file whose last line is of any length that base64_encode can return. */
  lemma UnfitSize(w: string, t: string, parts: string, ms: seq<Message>, line: string)
    requires LegalField(w) && LegalField(t) && LegalParts(parts) && AllFit(ms) && |ms| <= MAX_MESSAGES
             && |line| <= INT_MAX
    ensures |FileText(w, t, parts, EncodedLines(ms) + [line])| <= INT64_MAX
  {
    hide Unlines, EncodedLine, Fits, EncodedLines;
    var bare := BareLines(w, t, parts, EncodedLines(ms));
    forall i | 0 <= i < |ms| ensures |EncodedLines(ms)[i]| + 1 <= MAX_MESSAGE_LEN {
      EncodedLineClean(ms[i]);
    }
    UnlinesSize(bare, MAX_MESSAGE_LEN);
    assert |bare| <= 10005;
    LinesSnoc(w, t, parts, EncodedLines(ms), line, 0);
    UnlinesSnoc(bare, line);
    FileLengthSize(|Unlines(bare + [line])|);
    LengthHeaderTrue(w, t, parts, EncodedLines(ms) + [line]);
  }

  /** Reading a file that ends in the line of a text of any length. */
  lemma ReadLong(w: string, t: string, parts: string, ms: seq<Message>, x: seq<octet>)
    requires LegalField(w) && LegalField(t) && LegalParts(parts) && AllFit(ms) && |ms| <= MAX_MESSAGES
    requires NUL !in x && |Base64.Encode(x)| <= INT_MAX
    ensures var st := Read(FileText(w, t, parts, EncodedLines(ms) + [Base64.Encode(x)]));
            st.Some? && st.value.messages == Gained(SeenAll(ms), LastPart(x))
  {
    hide Unlines, Lines, FileLines, BareLines, Fits, ReadFrom, Parse, LegalParts, LegalField, EncodedLines, EncodedLine,
         Pieces,
         SeenAll, Gained, LastPart, Base64.Encode, Base64Chars;
    var line := Base64.Encode(x);
    EncodedChars(x);
    var lines := EncodedLines(ms);
    var n := |FileText(w, t, parts, lines + [line])|;
    UnfitSize(w, t, parts, ms, line);
    LengthHeaderTrue(w, t, parts, lines + [line]);
    LinesSnoc(w, t, parts, lines, line, n);
    UnlinesSnoc(FileLines(w, t, parts, lines, n), line);
    AllLinesClean(w, t, parts, ms, n);
    LinesBefore(FileLines(w, t, parts, lines, n), line + "\n" + "");
    LongLine(line, "");
    NoLines();
    assert Pieces(line) + [] == Pieces(line);
    assert Lines(FileText(w, t, parts, lines + [line]), MAX_MESSAGE_LEN) == FileLines(w, t, parts, lines, n)
      + Pieces(line);
    LinesMore(w, t, parts, lines, Pieces(line), n);
    FieldShort(w, t);
    ReadHeader(w, t, parts, lines + Pieces(line), n);
    var st := Snapshot(w, t, n, Parse(parts, MAX_PARTICIPANTS), [], 0);
    ReadMessages(st, ms);
    NothingBefore(SeenAll(ms));
    assert ReadFrom(Reader(false, true, st), lines) == Some(Reader(false, true, st.(messages := SeenAll(ms))));
    assert ReadFrom(Reader(false, false, EMPTY), FileLines(w, t, parts, lines, n) + Pieces(line))
      == ReadFrom(Reader(false, true, st), lines + Pieces(line));
    ReadBoth(Reader(false, true, st), lines, Pieces(line));
    ReadPieces(st.(messages := SeenAll(ms)), x);
  }

  lemma NoLines()
    ensures Lines("", MAX_MESSAGE_LEN) == []
  {
  }

  lemma FieldShort(w: string, t: string)
    requires LegalField(w) && LegalField(t)
    ensures |w| < 64 && |t| < 64
  {
  }

  lemma NothingBefore(ms: seq<Message>)
    requires |ms| <= MAX_MESSAGES
    ensures Truncate([] + ms, MAX_MESSAGES) == ms
  {
  }

  lemma {:induction false} PartShort(w: string)
    ensures |LastPart(w)| < CHUNK
    ensures CHUNK <= Base64.EncodedLength(|w|) < 4 * CHUNK ==> LastPart(w) == ""
    decreases |w|
  {
    hide Base64.EncodedLength;
    if Base64.EncodedLength(|w|) < CHUNK {
      EncodedLonger(|w|);
    } else if |w| >= 3 * CHUNK {
      PartLength(|w|);
      PartShort(w[3 * CHUNK..]);
    }
  }

  lemma EncodedLonger(n: nat)
    ensures n <= Base64.EncodedLength(n)
  {
    Base64.EncodedLengthIs(n);
  }

  lemma ParsedShort(part: string)
    ensures ParseWire(part).Parsed? ==> |ParseWire(part).message.content| <= |part|
  {
    hide ColonSpace, Index, Epoch;
  }

  /** The last part of its line is too short to be the message. */
  lemma NotTheMessage(ms: seq<Message>, m: Message)
    requires Unfit(m)
    ensures Gained(ms, LastPart(WireText(m))) != ms + [Seen(m)]
  {
    hide LegalMessage, WireText, ParseWire, LastPart, Fits, Base64.EncodedLength;
    UnfitLine(m);
    PartShort(WireText(m));
    ParsedShort(LastPart(WireText(m)));
    assert (ms + [Seen(m)])[|ms|] == Seen(m);
  }

  /**
   * chat_send stores a message that does not fit like any other and returns success. A reader then has the old
   * messages and, if the last part of the line happens to be the text of a message, that one.
   */
  lemma UnfitReads(c: Chat, m: Message, stamp: string)
    requires LegalChat(c) && Unfit(m) && LegalField(stamp) && !TooFull(c, m.handle)
    requires forall i | 0 <= i < |c.participants| ::
               c.participants[i].handle == m.handle ==> c.participants[i].count < INT_MAX
    ensures var text := Send(Render(c), m, stamp);
            && text.Some? && Read(text.value).Some?
            && Read(text.value).value.messages == Gained(SeenAll(c.messages), LastPart(WireText(m)))
            && (|EncodedLine(m)| < 4 * CHUNK ==> Read(text.value).value.messages == SeenAll(c.messages))
  {
    hide FileText, Fits, EncodedLine, LegalTable, Update, Format, Read, Collect, LegalField, EncodedLines, LegalMessage,
         SeenAll,
         LegalParts, Base64Chars, TooLong, Gained, LastPart, WireText;
    RenderSize(c);
    ReadRender(c);
    CollectRender(c);
    UnfitLine(m);
    var parts := Update(c.participants, m.handle, MAX_PARTICIPANTS);
    UnfitHandle(m);
    UpdateLegal(c.participants, m.handle, MAX_PARTICIPANTS);
    TableParts(parts);
    TableLength(parts);
    LineOf(m);
    ReadLong(m.handle, stamp, Format(parts), c.messages, WireText(m));
    PartShort(WireText(m));
    NothingGained(SeenAll(c.messages));
  }

  lemma LineOf(m: Message)
    requires Unfit(m)
    ensures NUL !in WireText(m) && IsBytes(WireText(m)) && EncodedLine(m) == Base64.Encode(WireText(m))
    ensures |EncodedLine(m)| == Base64.EncodedLength(|WireText(m)|)
  {
    hide LegalMessage, WireText;
    NoNul(m);
    WireBytes(m);
  }

  /** So no reader gets the message itself back. */
  lemma UnfitNotReadBack(c: Chat, m: Message, stamp: string)
    requires LegalChat(c) && Unfit(m) && LegalField(stamp) && !TooFull(c, m.handle)
    requires forall i | 0 <= i < |c.participants| ::
               c.participants[i].handle == m.handle ==> c.participants[i].count < INT_MAX
    ensures var text := Send(Render(c), m, stamp);
            && text.Some? && Read(text.value).Some?
            && Read(text.value).value.messages != SeenAll(c.messages) + [Seen(m)]
  {
    hide Read, Send, Unfit, TooFull, LegalChat, Gained, LastPart;
    UnfitReads(c, m, stamp);
    NotTheMessage(SeenAll(c.messages), m);
  }

  lemma UnfitHandle(m: Message)
    requires Unfit(m)
    ensures LegalHandle(m.handle) && LegalField(m.handle) && !TooLong(m)
  {
    hide WireText;
    LegalLength(m.handle);
    assert forall k | 0 <= k < |m.handle| :: HandleChar(m.handle[k]);
  }

  /**
   * When a message that chat_send accepts is read back: when its line fits the buffer and the reader has room
   * for it.
   */
  lemma ReadBackIff(c: Chat, m: Message, stamp: string)
    requires LegalChat(c) && LegalMessage(m) && IsBytes(m.handle) && IsBytes(m.content) && !TooLong(m)
             && LegalField(stamp) && !TooFull(c, m.handle)
    requires forall i | 0 <= i < |c.participants| ::
               c.participants[i].handle == m.handle ==> c.participants[i].count < INT_MAX
    ensures var before, text := Read(Render(c)), Send(Render(c), m, stamp);
            && before.Some? && text.Some?
            && Read(text.value).Some?
            && (Read(text.value).value.messages == before.value.messages + [Seen(m)]
               <==> Fits(m) && |c.messages| < MAX_MESSAGES)
  {
    hide FileText, EncodedLine, Read, Send, LegalMessage, LegalChat, Update;
    if Fits(m) {
      SendThenRead(c, m, stamp);
    } else {
      UnfitNotReadBack(c, m, stamp);
      RenderSize(c);
      ReadRender(c);
    }
  }

  // ---------- a message under another name ----------

  function Filler(n: nat): (s: string)
    ensures |s| == n && forall i | 0 <= i < n :: s[i] == 'x'
  {
    seq(n, _ => 'x')
  }

  const SHORT: Message := Message("bob", "hi", 1)

  /** What the content of the message is, so that the last part of its line begins with the text of the short one. */
  const LONG: Message := Message("a", Filler(3 * CHUNK - 5) + "bob|1: hi", 1)

  lemma OneDigit()
    ensures Decimal.Print(1) == "1" && |Decimal.Print(1)| == 1
  {
    assert Decimal.DigitChar(1) == '1';
  }

  lemma Texts()
    ensures WireText(SHORT) == "bob|1: hi"
    ensures |WireText(LONG)| == 3 * CHUNK + 9 && WireText(LONG)[3 * CHUNK..] == WireText(SHORT)
  {
    OneDigit();
    var head := "a|1: " + Filler(3 * CHUNK - 5);
    assert WireText(LONG) == head + "bob|1: hi";
    assert |head| == 3 * CHUNK;
  }

  lemma LastPartOfLong()
    ensures LastPart(WireText(LONG)) == WireText(SHORT)
  {
    hide WireText, Base64.EncodedLength;
    Texts();
    Lengths();
    var w := WireText(LONG);
    assert |w| == 3 * CHUNK + 9;
    ShortWhole(WireText(SHORT));
  }

  lemma Lengths()
    ensures Base64.EncodedLength(3 * CHUNK + 9) == 4 * CHUNK + 12 && Base64.EncodedLength(9) == 12
  {
    Base64.EncodedLengthIs(3 * CHUNK + 9);
    Base64.EncodedLengthIs(9);
  }

  lemma ShortWhole(w: string)
    requires |w| == 9
    ensures LastPart(w) == w
  {
    hide Base64.EncodedLength;
    Lengths();
  }

  lemma ShortLegal()
    ensures LegalMessage(SHORT)
  {
    assert forall i | 0 <= i < 3 :: HandleChar("bob"[i]);
  }

  lemma LongUnfit()
    ensures Unfit(LONG)
  {
    hide WireText;
    Texts();
    assert HandleChar("a"[0]);
    assert MAX_WIRE < 3 * CHUNK + 9 <= INT_MAX / 4 * 3;
  }

  /** A send by "a" after which readers see a message of "bob", who never sent one. */
  lemma OtherAuthorSeen(c: Chat, stamp: string)
    requires LegalChat(c) && LegalField(stamp) && !TooFull(c, LONG.handle) && |c.messages| < MAX_MESSAGES
    requires forall i | 0 <= i < |c.participants| ::
               c.participants[i].handle == LONG.handle ==> c.participants[i].count < INT_MAX
    ensures Unfit(LONG)
    ensures var text := Send(Render(c), LONG, stamp);
            && text.Some? && Read(text.value).Some?
            && Read(text.value).value.messages == SeenAll(c.messages) + [SHORT]
  {
    hide Read, Send, TooFull, LegalChat, LastPart, WireText, LegalMessage, ParseWire, Fits;
    LongUnfit();
    UnfitReads(c, LONG, stamp);
    LastPartOfLong();
    ShortLegal();
    WireRoundTrip(SHORT);
    WireNonempty(SHORT);
  }
}
