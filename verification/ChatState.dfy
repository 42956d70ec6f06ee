/** chat_state_t and the functions of src/nbs-chat/chat_file.c that fill it and write chat files. */
module ChatState {
  import opened Bytes
  import opened Limits
  import opened TextFile
  import opened Participants
  import opened Wire
  import opened ChatFile
  import Base64
  import Decimal

  /** The strip loops behind every fgets call. */
  method StripLine(buffer: string) returns (line: string)
    ensures line == StripEol(CString(buffer))
  {
    line := CString(buffer);
    while line != "" && IsEol(line[|line| - 1])
      invariant StripEol(line) == StripEol(CString(buffer))
      decreases |line|
    {
      line := line[..|line| - 1];
    }
  }

  method AllSpaces(line: string) returns (all: bool)
    ensures all <==> Blank(line)
  {
    var i := 0;
    while i < |line|
      invariant 0 <= i <= |line| && forall k | 0 <= k < i :: line[k] == ' '
    {
      if line[i] != ' ' { return false; }
      i := i + 1;
    }
    return true;
  }

  class State {
    var lastWriter: string
    var lastWrite: string
    var fileLength: int
    const participants: array<Participant>
    var participantCount: nat
    var messages: seq<Message>
    var skippedCount: nat

    ghost predicate Valid()
      reads this
    {
      participants.Length == MAX_PARTICIPANTS && participantCount <= MAX_PARTICIPANTS
    }

    ghost function View(): Snapshot
      reads this, participants
      requires Valid()
    {
      Snapshot(lastWriter, lastWrite, fileLength, participants[..participantCount], messages, skippedCount)
    }

    constructor ()
      ensures Valid() && fresh(participants) && View() == EMPTY
    {
      participants := new Participant[MAX_PARTICIPANTS](_ => Participant("", 0));
      lastWriter, lastWrite, fileLength, participantCount, messages, skippedCount := "", "", 0, 0, [], 0;
    }

    method ReadHeaderField(line: string)
      requires Valid()
      modifies this, participants
      ensures Valid() && View() == HeaderField(old(View()), line)
    {
      hide Parse, Decimal.Parse;
      if "last-writer: " <= line {
        lastWriter := Truncate(line[13..], MAX_HANDLE_LEN - 1);
      } else if "last-write: " <= line {
        lastWrite := Truncate(line[12..], 63);
      } else if "file-length: " <= line {
        var n := Decimal.Parse(line[13..], INT64_MIN, INT64_MAX);
        if n.Some? { fileLength := n.value; }
      } else if "participants: " <= line {
        participantCount := ParseParticipants(line[14..], participants, MAX_PARTICIPANTS);
      }
    }

    /** A line as it comes out of the reader's buffer. */
    method ReadMessage(line: string) returns (aborted: bool)
      requires Valid() && |line| < MAX_MESSAGE_LEN
      modifies this
      ensures Valid() && aborted == (MessageLine(old(View()), line) == None)
      ensures !aborted ==> Some(View()) == MessageLine(old(View()), line)
    {
      hide Blank, ParseWire, Base64.Grammar, Base64.Strip;
      aborted := false;
      if |messages| >= MAX_MESSAGES { return; }
      var padding := AllSpaces(line);
      if padding { return; }
      if |line| % 4 != 0 {
        skippedCount := skippedCount + 1;
        return;
      }
      StripShorter(line);
      LineDecodes(line);
      var decoded := new octet[|line| / 4 * 3];
      var rc := Base64.DecodeBuffer(line, decoded);
      if rc == Some(-1) {
        skippedCount := skippedCount + 1;
        return;
      }
      var decodedLen := rc.value;
      assert decoded[..decodedLen] == Base64.Decode(Base64.Strip(line));
      match ParseWire(decoded[..decodedLen])
      case Nothing =>
      case Abort => aborted := true;
      case Parsed(m) => messages := messages + [m];
    }

    /** chat_read on a file that can be opened. */
    method Read(file: string) returns (aborted: bool)
      requires Valid()
      modifies this, participants
      ensures Valid() && aborted == (ChatFile.Read(file) == None)
      ensures !aborted ==> Some(View()) == ChatFile.Read(file)
    {
      hide Lines, HeaderField, MessageLine, FgetsLength, StripEol, CString;
      lastWriter, lastWrite, fileLength, participantCount, messages, skippedCount := "", "", 0, 0, [], 0;
      var pos, inHeader, pastHeader := 0, false, false;
      assert file[pos..] == file && View() == EMPTY;
      while pos < |file|
        invariant Valid() && pos <= |file|
        invariant ReadFrom(Reader(inHeader, pastHeader, View()), Lines(file[pos..], MAX_MESSAGE_LEN))
               == ReadFrom(Reader(false, false, EMPTY), Lines(file, MAX_MESSAGE_LEN))
      {
        var n := FgetsLength(file[pos..], MAX_MESSAGE_LEN);
        var line := StripLine(file[pos..][..n]);
        LinesStep(file[pos..], n, line);
        assert file[pos..][n..] == file[pos + n..];
        pos := pos + n;
        if line == MARKER {
          inHeader := true;
        } else if inHeader && line == DELIMITER {
          inHeader, pastHeader := false, true;
        } else if inHeader {
          ReadHeaderField(line);
        } else if pastHeader {
          aborted := ReadMessage(line);
          if aborted { return; }
        }
      }
      LinesOfNothing(file[pos..]);
      aborted := false;
    }
  }

  lemma StripShorter(line: string)
    requires |line| % 4 == 0
    ensures Base64.Grammar(Base64.Strip(line)) ==> |Base64.Decode(Base64.Strip(line))| <= |line| / 4 * 3
  {
    hide Base64.Grammar, Base64.Decode, Base64.Strip;
  }

  lemma LineDecodes(line: string)
    requires !Blank(line) && |line| % 4 == 0 && |line| < MAX_MESSAGE_LEN
    ensures !Base64.DecodeAborts(line, |line| / 4 * 3)
  {
    hide Base64.Grammar, Base64.Decode, Base64.Strip;
    assert |line| < INT_MAX / 3 * 4;
  }

  lemma LinesStep(s: string, n: nat, line: string)
    requires s != "" && n == FgetsLength(s, MAX_MESSAGE_LEN) && line == StripEol(CString(s[..n]))
    ensures Lines(s, MAX_MESSAGE_LEN) == [line] + Lines(s[n..], MAX_MESSAGE_LEN)
  {
  }

  lemma LinesOfNothing(s: string)
    requires s == ""
    ensures Lines(s, MAX_MESSAGE_LEN) == []
  {
  }

  /** The second pass of chat_send over the file: the raw lines of the messages. */
  method CollectLines(file: string) returns (aborted: bool, encoded: seq<string>)
    ensures aborted == (|Collect(Lines(file, MAX_MESSAGE_LEN), false)| > MAX_MESSAGES)
    ensures !aborted ==> encoded == Collect(Lines(file, MAX_MESSAGE_LEN), false)
  {
    hide Lines, FgetsLength, StripEol, CString, Blank;
    ghost var whole := Collect(Lines(file, MAX_MESSAGE_LEN), false);
    var pos, seenMarker, pastDelim := 0, false, false;
    aborted, encoded := false, [];
    assert file[pos..] == file;
    while pos < |file|
      invariant pos <= |file| && |encoded| <= MAX_MESSAGES
      invariant pastDelim ==> encoded + NonBlank(Lines(file[pos..], MAX_MESSAGE_LEN)) == whole
      invariant !pastDelim ==> encoded == [] && Collect(Lines(file[pos..], MAX_MESSAGE_LEN), seenMarker) == whole
    {
      var n := FgetsLength(file[pos..], MAX_MESSAGE_LEN);
      var line := StripLine(file[pos..][..n]);
      LinesStep(file[pos..], n, line);
      assert file[pos..][n..] == file[pos + n..];
      pos := pos + n;
      if !pastDelim {
        if line == MARKER {
          seenMarker := true;
        } else if line == DELIMITER && seenMarker {
          pastDelim := true;
        }
      } else {
        var padding := AllSpaces(line);
        if !padding {
          if |encoded| >= MAX_MESSAGES {
            aborted := true;
            return;
          }
          encoded := encoded + [line];
        }
      }
    }
    LinesOfNothing(file[pos..]);
  }

  lemma UnlinesSnoc(ls: seq<string>, line: string)
    ensures Unlines(ls + [line]) == Unlines(ls) + (line + "\n")
  {
    UnlinesConcat(ls, [line]);
    assert Unlines([line]) == line + "\n" + Unlines([]);
  }

  /** Copying lines behind one another, each with its newline. */
  method AppendLines(content: string, lines: seq<string>) returns (r: string)
    ensures r == content + Unlines(lines)
  {
    hide Unlines;
    r := content;
    var i := 0;
    assert lines[..0] == [] && Unlines([]) == "" by { EmptyUnlines(); }
    while i < |lines|
      invariant 0 <= i <= |lines| && r == content + Unlines(lines[..i])
    {
      UnlinesSnoc(lines[..i], lines[i]);
      assert lines[..i + 1] == lines[..i] + [lines[i]];
      r := r + (lines[i] + "\n");
      i := i + 1;
    }
    assert lines[..i] == lines;
  }

  lemma EmptyUnlines()
    ensures Unlines([]) == ""
  {
  }

  /** The two passes over the new contents: one to measure them, one to write them with the length header. */
  method WriteFile(writer: string, stamp: string, parts: string, lines: seq<string>) returns (text: string)
    ensures text == FileText(writer, stamp, parts, lines)
    ensures |text| == Decimal.FileLength(|Unlines(BareLines(writer, stamp, parts, lines))|)
  {
    hide Unlines;
    EmptyUnlines();
    LengthHeaderTrue(writer, stamp, parts, lines);
    ghost var bare := BareLines(writer, stamp, parts, lines);
    var head, body := [MARKER, "last-writer: " + writer, "last-write: " + stamp], ["participants: " + parts, DELIMITER];
    var content := AppendLines("", head);
    content := AppendLines(content, body);
    content := AppendLines(content, lines);
    UnlinesConcat(body, lines);
    UnlinesConcat(head, body + lines);
    assert content == Unlines(bare);
    var fileLen := Decimal.ComputeFileLength(|content|);
    text := AppendLines("", head);
    var lengthLine := "file-length: " + Decimal.Print(fileLen);
    text := AppendLines(text, [lengthLine]);
    text := AppendLines(text, body);
    text := AppendLines(text, lines);
    UnlinesConcat(head, [lengthLine]);
    UnlinesConcat(head + [lengthLine], body + lines);
  }

  method EncodeMessage(m: Message) returns (encoded: string)
    requires IsBytes(m.handle) && IsBytes(m.content) && !TooLong(m)
    ensures encoded == EncodedLine(m)
  {
    hide WireText;
    WireBytes(m);
    var raw: seq<octet> := WireText(m);
    var buffer := new char[Base64.EncodedLength(|raw|) + 1](_ => 'A');
    var len := Base64.EncodeBuffer(raw, buffer);
    encoded := buffer[..len];
    assert encoded == Base64.Encode(raw);
  }

  /** chat_send between the lock and the temporary file: the contents of the next version. */
  method ChatSend(file: string, handle: string, message: string, now: int, stamp: string) returns (text: Option<string>)
    requires IsBytes(handle) && IsBytes(message) && 0 < |handle| < MAX_HANDLE_LEN
    ensures text == Send(file, Message(handle, message, now), stamp)
  {
    hide ChatFile.Read, Lines, Format, FileText, EncodedLine, Update, Collect, TooLong, IsBytes;
    var m := Message(handle, message, now);
    var state := new State();
    var aborted := state.Read(file);
    if aborted || TooLong(m) { return None; }
    var encoded := EncodeMessage(m);
    state.participantCount := UpdateParticipants(state.participants, state.participantCount, handle, MAX_PARTICIPANTS);
    if state.participantCount * (MAX_HANDLE_LEN + 14) >= PARTS_BUFFER { return None; }
    var parts := FormatParticipants(state.participants[..state.participantCount], PARTS_BUFFER);
    var lines;
    aborted, lines := CollectLines(file);
    if aborted { return None; }
    var next := WriteFile(handle, stamp, parts, lines + [encoded]);
    return Some(next);
  }

  /** The contents of the two files that chat_auto_archive writes. */
  method AutoArchive(lines: seq<string>, archiveStamp: string, state: State)
      returns (archive: string, trimmed: Option<string>)
    requires |lines| >= ARCHIVE_CLEAVE && state.Valid()
    ensures archive == ArchiveText(lines, archiveStamp)
    ensures var st := state.View();
            trimmed == if HeaderFits(st.lastWriter, st.lastWrite, Truncate(Format(st.participants), PARTS_BUFFER - 1))
                       then Some(TrimmedText(st.lastWriter, st.lastWrite, st.participants, lines)) else None
  {
    hide FileText, Format, BareLines;
    archive := WriteFile("system", archiveStamp, "(archived)", lines[..ARCHIVE_CLEAVE]);
    var parts := FormatParticipants(state.participants[..state.participantCount], PARTS_BUFFER);
    var header := AppendLines("", BareLines(state.lastWriter, state.lastWrite, parts, []));
    assert header == Unlines(BareLines(state.lastWriter, state.lastWrite, parts, []));
    trimmed := None;
    if |header| < 4096 {
      var text := WriteFile(state.lastWriter, state.lastWrite, parts, lines[ARCHIVE_CLEAVE..]);
      trimmed := Some(text);
    }
  }

  lemma StoreLine(all: seq<string>, line: string, keep: nat)
    ensures Truncate(all + [line], keep) == if |Truncate(all, keep)| < keep then Truncate(all, keep) + [line]
            else Truncate(all, keep)
  {
  }

  /** chat_truncate's pass over the file: the first `keep` lines that are not empty. */
  method CollectFirst(file: string, keep: nat) returns (stored: seq<string>)
    ensures stored == Truncate(RawLines(Lines(file, MAX_MESSAGE_LEN), false), keep)
  {
    hide Lines, FgetsLength, StripEol, CString, Truncate;
    ghost var whole, all := RawLines(Lines(file, MAX_MESSAGE_LEN), false), [];
    var pos, seenMarker, pastDelim := 0, false, false;
    stored := [];
    assert file[pos..] == file;
    while pos < |file|
      invariant pos <= |file| && stored == Truncate(all, keep)
      invariant pastDelim ==> all + NonEmpty(Lines(file[pos..], MAX_MESSAGE_LEN)) == whole
      invariant !pastDelim ==> all == [] && RawLines(Lines(file[pos..], MAX_MESSAGE_LEN), seenMarker) == whole
    {
      var n := FgetsLength(file[pos..], MAX_MESSAGE_LEN);
      var line := StripLine(file[pos..][..n]);
      LinesStep(file[pos..], n, line);
      assert file[pos..][n..] == file[pos + n..];
      pos := pos + n;
      if !pastDelim {
        if line == MARKER {
          seenMarker := true;
        } else if line == DELIMITER && seenMarker {
          pastDelim := true;
        }
      } else if line != "" {
        StoreLine(all, line, keep);
        all := all + [line];
        if |stored| < keep {
          stored := stored + [line];
        }
      }
    }
    LinesOfNothing(file[pos..]);
  }

  /** chat_truncate's recount of the participants. */
  method Recount(messages: seq<Message>, keep: nat, parts: array<Participant>) returns (count: nat)
    requires keep <= |messages| && parts.Length == MAX_PARTICIPANTS
    modifies parts
    ensures count <= MAX_PARTICIPANTS && parts[..count] == Tally(Authors(messages[..keep]), MAX_PARTICIPANTS)
  {
    hide Update;
    count := 0;
    var i := 0;
    assert Authors(messages[..0]) == [];
    while i < keep
      invariant 0 <= i <= keep && count <= MAX_PARTICIPANTS
      invariant parts[..count] == Tally(Authors(messages[..i]), MAX_PARTICIPANTS)
    {
      TallyStep(messages, i);
      count := UpdateParticipants(parts, count, messages[i].handle, MAX_PARTICIPANTS);
      i := i + 1;
    }
  }

  lemma TallyStep(ms: seq<Message>, i: nat)
    requires i < |ms|
    ensures Tally(Authors(ms[..i + 1]), MAX_PARTICIPANTS)
         == Update(Tally(Authors(ms[..i]), MAX_PARTICIPANTS), ms[i].handle, MAX_PARTICIPANTS)
  {
    hide Update;
    var hs := Authors(ms[..i + 1]);
    assert hs[..|hs| - 1] == Authors(ms[..i]);
  }

  /** chat_truncate between the lock and the temporary file. */
  method ChatTruncate(file: string, keep: nat, stamp: string) returns (edit: Edit)
    ensures edit == Shorten(file, keep, stamp)
  {
    hide ChatFile.Read, Lines, Format, FileText, Tally, RawLines, Authors;
    var state := new State();
    var aborted := state.Read(file);
    if aborted { return Aborted; }
    if keep >= |state.messages| { return Unchanged; }
    var lines := CollectFirst(file, keep);
    var parts := new Participant[MAX_PARTICIPANTS](_ => Participant("", 0));
    var partCount := Recount(state.messages, keep, parts);
    var writer := "";
    if keep > 0 {
      writer := Truncate(state.messages[keep - 1].handle, MAX_HANDLE_LEN - 1);
    }
    var partsText := FormatParticipants(parts[..partCount], PARTS_BUFFER);
    var text := WriteFile(writer, stamp, partsText, lines);
    return Replaced(text);
  }
}
