/** What the files of this model look like, letter for letter. */
module Layout {
  import opened Bytes
  import opened TextFile
  import opened Participants
  import opened Wire
  import opened ChatFile
  import Decimal
  import opened Cursors
  import opened Hub
  import HubRuns
  import KeyValue
  import Mentions
  import Highlight
  import JsLexer
  import PyLexer

  /** The text of a legal chat, which states its own length (src/nbs-chat/chat_file.h). */
  lemma ChatLayout(c: Chat)
    requires LegalChat(c)
    ensures ChatFile.Render(c)
            == ("=== nbs-chat ===" + "\n") + ("last-writer: " + c.lastWriter + "\n")
               + ("last-write: " + c.lastWrite + "\n")
               + ("file-length: " + Decimal.Print(|ChatFile.Render(c)|) + "\n")
               + ("participants: " + Format(c.participants) + "\n") + ("---" + "\n")
               + Unlines(EncodedLines(c.messages))
  {
    var parts, lines := Format(c.participants), EncodedLines(c.messages);
    hide Format, EncodedLines, Decimal.Print, Unlines, LegalChat, Decimal.FileLength, BareLines;
    LengthHeaderTrue(c.lastWriter, c.lastWrite, parts, lines);
    var length := Decimal.Print(|ChatFile.Render(c)|);
    SixLines("=== nbs-chat ===", "last-writer: " + c.lastWriter, "last-write: " + c.lastWrite,
             "file-length: " + length, "participants: " + parts, "---", lines);
  }

  lemma SixLines(a: string, b: string, c: string, d: string, e: string, f: string, rest: seq<string>)
    ensures Unlines([a, b, c] + [d] + ([e, f] + rest))
            == (a + "\n") + (b + "\n") + (c + "\n") + (d + "\n") + (e + "\n") + (f + "\n") + Unlines(rest)
  {
    var all := [a, b, c] + [d] + ([e, f] + rest);
    assert all[6..] == rest;
    Line(all, 0);
    Line(all, 1);
    Line(all, 2);
    Line(all, 3);
    Line(all, 4);
    Line(all, 5);
  }

  lemma Line(all: seq<string>, k: nat)
    requires k < |all|
    ensures Unlines(all[k..]) == all[k] + "\n" + Unlines(all[k + 1..])
  {
    assert all[k..][1..] == all[k + 1..];
  }

  /** The state file of a hub. */
  lemma StateLayout(h: HubState)
    ensures KeyValue.Render(Pairs(h))
            == ("phase_num" + "=" + Decimal.Print(h.phase) + "\n")
               + (("phase_name" + "=" + h.name + "\n")
               + (("audit_counter" + "=" + Decimal.Print(h.counter) + "\n")
               + (("audit_required" + "=" + (if h.required then "1" else "0") + "\n")
               + (("last_spawn_time" + "=" + Decimal.Print(h.spawned) + "\n") + ""))))
  {
    hide Decimal.Print;
    var ps := Pairs(h);
    assert ps == [ps[0]] + ([ps[1]] + ([ps[2]] + ([ps[3]] + ([ps[4]] + []))));
    hide KeyValue.Render;
    HubRuns.RenderCons(ps[0], [ps[1]] + ([ps[2]] + ([ps[3]] + ([ps[4]] + []))));
    HubRuns.RenderCons(ps[1], [ps[2]] + ([ps[3]] + ([ps[4]] + [])));
    HubRuns.RenderCons(ps[2], [ps[3]] + ([ps[4]] + []));
    HubRuns.RenderCons(ps[3], [ps[4]] + []);
    HubRuns.RenderCons(ps[4], []);
    NoPairs();
  }

  lemma NoPairs()
    ensures KeyValue.Render([]) == ""
  {
  }

  /** The cursor file. */
  lemma CursorLayout(cs: seq<Cursor>, c: Cursor)
    ensures Cursors.Render([]) == HEADER + "\n"
    ensures Cursors.Render(cs + [c]) == Cursors.Render(cs) + (c.handle + "=" + Decimal.Print(c.index) + "\n")
  {
    hide Decimal.Print;
    assert Texts([]) == [];
    assert Unlines([HEADER]) == HEADER + "\n" + Unlines([]);
    hide Unlines;
    assert Texts(cs + [c]) == Texts(cs) + [Text(c)];
    assert [HEADER] + Texts(cs + [c]) == ([HEADER] + Texts(cs)) + [Text(c)];
    UnlinesConcat([HEADER] + Texts(cs), [Text(c)]);
    Line([Text(c)], 0);
    LastLine(Text(c));
  }

  lemma LastLine(line: string)
    ensures Unlines([line]) == line + "\n"
  {
  }

  /** One message on its way into the file, and one participants line. */
  lemma Examples()
    ensures Format([Participant("alice", 3), Participant("bob", 1)]) == "alice(3), bob(1)"
    ensures WireText(Message("bob", "hi", 5)) == "bob|5: hi"
  {
  }

  // ---------- characters ----------

  const LOWER: string := "abcdefghijklmnopqrstuvwxyz"
  const UPPER: string := "ABCDEFGHIJKLMNOPQRSTUVWXYZ"
  const DIGITS: string := "0123456789"

  lemma LowerAre(c: char)
    ensures 'a' <= c <= 'z' <==> c in LOWER
  {
    if 'a' <= c <= 'z' {
      assert LOWER[c as int - 'a' as int] == c;
    }
  }

  lemma UpperAre(c: char)
    ensures 'A' <= c <= 'Z' <==> c in UPPER
  {
    if 'A' <= c <= 'Z' {
      assert UPPER[c as int - 'A' as int] == c;
    }
  }

  lemma DigitsAre(c: char)
    ensures IsDigit(c) <==> c in DIGITS
  {
    if IsDigit(c) {
      assert DIGITS[c as int - '0' as int] == c;
    }
  }

  /** The characters that the scanners for mentions and for source text tell apart. */
  lemma CharacterClasses(c: char)
    ensures Mentions.IsHandleChar(c) <==> c in LOWER || c in UPPER || c in DIGITS || c in "_-"
    ensures Mentions.IsEmailPrefix(c) <==> c in LOWER || c in UPPER || c in DIGITS || c in "._-+"
    ensures JsLexer.IsIdentStart(c) <==> c in LOWER || c in UPPER || c in "_$"
    ensures JsLexer.IsIdent(c) <==> c in LOWER || c in UPPER || c in DIGITS || c in "_$"
    ensures PyLexer.IsIdentStart(c) <==> c in LOWER || c in UPPER || c in "_"
    ensures PyLexer.IsIdent(c) <==> c in LOWER || c in UPPER || c in DIGITS || c in "_"
    ensures PyLexer.IsDecorator(c) <==> c in LOWER || c in UPPER || c in DIGITS || c in "_."
    ensures Highlight.IsHexDigit(c) <==> c in DIGITS || c in "abcdef" || c in "ABCDEF"
  {
    hide LOWER, UPPER, DIGITS;
    LowerAre(c);
    UpperAre(c);
    DigitsAre(c);
    Hex(c);
  }

  lemma Hex(c: char)
    ensures Highlight.IsHexDigit(c) <==> IsDigit(c) || c in "abcdef" || c in "ABCDEF"
  {
  }
}
