/** Which audits clear the gate of a hub, said of the text alone. */
module HubAudit {
  import opened Bytes
  import opened TextFile
  import opened KeyValue
  import opened Hub

  predicate HasAt(text: string, i: int, word: string) {
    0 <= i <= |text| - |word| && text[i..i + |word|] == word
  }

  /** The word stands somewhere in the text. */
  ghost predicate Has(text: string, word: string) {
    exists i :: HasAt(text, i, word)
  }

  predicate LineEndsWithin(text: string, i: nat, n: nat)
    requires i + n <= |text|
  {
    LF in text[i..i + n]
  }

  /** No line is longer than what one fgets call takes: of 4096 characters in a row one is a line feed. */
  ghost predicate ShortLines(text: string) {
    forall i | 0 <= i <= |text| - 4096 :: LineEndsWithin(text, i, 4096)
  }

  /** One of the words of each of the three sections. */
  ghost predicate AllSections(text: string) {
    && (Has(text, "goal") || Has(text, "Goal") || Has(text, "terminal"))
    && (Has(text, "delegat") || Has(text, "Delegat"))
    && (Has(text, "3W") || Has(text, "learn") || Has(text, "Learn") || Has(text, "well") || Has(text, "Well"))
  }

  predicate IsWord(word: string) {
    word != "" && LF !in word && NUL !in word
  }

  // ---------- searching piece by piece ----------

  lemma WithinHas(text: string, word: string)
    ensures Within(text, word) <==> Has(text, word)
  {
    if Within(text, word) {
      var i :| 0 <= i <= |text| && word <= text[i..];
      assert HasAt(text, i, word);
    }
    if Has(text, word) {
      var i :| HasAt(text, i, word);
      assert word <= text[i..];
    }
  }

  /** A place at which no word can be cut. */
  predicate Seam(text: string, n: nat) {
    0 < n <= |text| && (n == |text| || text[n - 1] == LF || text[n] == LF)
  }

  lemma SplitAtSeam(text: string, word: string, n: nat)
    requires IsWord(word) && Seam(text, n)
    ensures Has(text, word) <==> Has(text[..n], word) || Has(text[n..], word)
  {
    if Has(text, word) {
      var i :| HasAt(text, i, word);
      WordAt(text, i, word);
      if i + |word| <= n {
        assert HasAt(text[..n], i, word);
      } else if n <= i {
        assert HasAt(text[n..], i - n, word);
      } else {
        assert false;
      }
    }
    if Has(text[..n], word) {
      var i :| HasAt(text[..n], i, word);
      assert HasAt(text, i, word);
    }
    if Has(text[n..], word) {
      var i :| HasAt(text[n..], i, word);
      assert text[n..][i..i + |word|] == text[n + i..n + i + |word|];
      assert HasAt(text, n + i, word);
    }
  }

  lemma WordAt(text: string, i: nat, word: string)
    requires HasAt(text, i, word)
    ensures forall k | 0 <= k < |word| :: word[k] == text[i + k]
  {
    assert word == text[i..i + |word|];
  }

  lemma PieceEndsAtSeam(text: string)
    requires text != "" && ShortLines(text)
    ensures Seam(text, FgetsLength(text, LINE_BUFFER))
  {
    var e := Index(text, LF);
    if |text| >= 4096 {
      assert LineEndsWithin(text, 0, 4096);
      assert e < 4096;
    }
  }

  lemma RestShortLines(text: string, n: nat)
    requires ShortLines(text) && n <= |text|
    ensures ShortLines(text[n..])
  {
    forall i | 0 <= i <= |text| - n - 4096 ensures LineEndsWithin(text[n..], i, 4096) {
      assert LineEndsWithin(text, n + i, 4096);
      assert text[n..][i..i + 4096] == text[n + i..n + i + 4096];
    }
  }

  lemma ContainsStep(text: string, word: string)
    requires text != ""
    ensures var n := FgetsLength(text, LINE_BUFFER);
            Contains(text, word) <==> Within(CString(text[..n]), word) || Contains(text[n..], word)
  {
    hide CString, FgetsLength, Within, Index;
    var n := FgetsLength(text, LINE_BUFFER);
    var rest := Chunks(text[n..], LINE_BUFFER);
    var all := Chunks(text, LINE_BUFFER);
    assert all == [CString(text[..n])] + rest;
    if Within(CString(text[..n]), word) {
      assert Within(all[0], word);
    }
    if Contains(text[n..], word) {
      var i :| 0 <= i < |rest| && Within(rest[i], word);
      assert Within(all[i + 1], word);
    }
  }

  /** file_contains finds the words of a text with short lines, and no others. */
  lemma {:induction false} ContainsIffHas(text: string, word: string)
    requires IsWord(word) && NUL !in text && ShortLines(text)
    ensures Contains(text, word) <==> Has(text, word)
    decreases |text|
  {
    hide Contains, Has, ShortLines, FgetsLength, CString;
    if text == "" {
      NothingInEmpty(word);
    } else {
      var n := FgetsLength(text, LINE_BUFFER);
      PieceEndsAtSeam(text);
      SplitAtSeam(text, word, n);
      ContainsStep(text, word);
      assert forall c | c in text[..n] :: c in text;
      CStringWhole(text[..n]);
      WithinHas(text[..n], word);
      RestShortLines(text, n);
      assert forall c | c in text[n..] :: c in text;
      ContainsIffHas(text[n..], word);
    }
  }

  lemma NothingInEmpty(word: string)
    requires word != ""
    ensures !Has("", word) && !Contains("", word)
  {
    assert Chunks("", LINE_BUFFER) == [];
  }

  lemma Words()
    ensures IsWord("goal") && IsWord("Goal") && IsWord("terminal")
    ensures IsWord("delegat") && IsWord("Delegat")
    ensures IsWord("3W") && IsWord("learn") && IsWord("Learn") && IsWord("well") && IsWord("Well")
  {
  }

  lemma AcceptableIff(text: string)
    requires NUL !in text && ShortLines(text)
    ensures Acceptable(text) <==> AllSections(text)
  {
    hide Contains, Has, ShortLines, IsWord;
    Words();
    ContainsIffHas(text, "goal");
    ContainsIffHas(text, "Goal");
    ContainsIffHas(text, "terminal");
    ContainsIffHas(text, "delegat");
    ContainsIffHas(text, "Delegat");
    ContainsIffHas(text, "3W");
    ContainsIffHas(text, "learn");
    ContainsIffHas(text, "Learn");
    ContainsIffHas(text, "well");
    ContainsIffHas(text, "Well");
    if text == "" {
      NothingInEmpty("goal");
      NothingInEmpty("Goal");
      NothingInEmpty("terminal");
    }
  }

  // ---------- the command ----------

  /** The exit code is 0 and the audit state is reset, or the exit code is 1 and the file is as it was. */
  lemma AuditAccepted(file: string, text: string, copied: bool)
    requires NUL !in text && ShortLines(text)
    ensures var (after, exit) := Perform(file, Audit(Some(text), copied));
            if copied && AllSections(text) then
              exit == 0 && after == Write(Write(file, "audit_counter", "0"), "audit_required", "0")
            else exit == 1 && after == file
  {
    hide Acceptable, AllSections, ShortLines, Write;
    AcceptableIff(text);
  }

  /** The audit file is missing or is no regular file, or it has no text. */
  lemma NoAudit(file: string, copied: bool)
    ensures Perform(file, Audit(None, copied)) == (file, 1) && Perform(file, Audit(Some(""), copied)) == (file, 1)
  {
  }

  // ---------- a word that the buffer cuts ----------

  function Filler(n: nat): (s: string)
    ensures |s| == n && forall i | 0 <= i < n :: s[i] == 'x'
  {
    seq(n, _ => 'x')
  }

  /** The word "goal" begins two characters before the end of the first piece of this line. */
  function CutGoal(): string { Filler(4093) + "go" + "al\n" + "delegat 3W" }

  lemma CutPieces()
    ensures Chunks(CutGoal(), LINE_BUFFER) == [Filler(4093) + "go", "al\n", "delegat 3W"]
  {
    hide Chunks, CString, Index, CutGoal;
    FirstPiece();
    NextPieces();
  }

  lemma NextPieces()
    ensures Chunks("al\n" + "delegat 3W", LINE_BUFFER) == ["al\n", "delegat 3W"]
  {
    hide Chunks, CString, Index, FgetsLength;
    ChunkRead("al", "delegat 3W", LINE_BUFFER);
    assert "al" + "\n" == "al\n";
    LastPiece("delegat 3W");
  }

  lemma LastPiece(text: string)
    requires IsWord(text) && |text| < LINE_BUFFER
    ensures Chunks(text, LINE_BUFFER) == [text]
  {
    hide Chunks, CString;
    IndexAt(text, LF, |text|);
    assert text == text + "";
    PieceStep(text, text, "");
    NoChunks("", LINE_BUFFER);
  }

  lemma FirstPiece()
    ensures Chunks(CutGoal(), LINE_BUFFER)
            == [Filler(4093) + "go"] + Chunks("al\n" + "delegat 3W", LINE_BUFFER)
  {
    hide Chunks, CString, Index;
    var one, rest := Filler(4093) + "go", "al\n" + "delegat 3W";
    assert CutGoal() == one + rest;
    assert forall k | 0 <= k < 4095 :: one[k] != LF;
    PieceStep(one + rest, one, rest);
  }

  lemma PieceStep(text: string, piece: string, rest: string)
    requires text == piece + rest && piece != "" && NUL !in piece && FgetsLength(text, LINE_BUFFER) == |piece|
    ensures Chunks(text, LINE_BUFFER) == [piece] + Chunks(rest, LINE_BUFFER)
  {
    CStringWhole(piece);
    assert text[..|piece|] == piece && text[|piece|..] == rest;
  }

  /** So an audit with all three sections is refused when its one goal word is cut. */
  lemma CutWordMissed(file: string)
    ensures AllSections(CutGoal()) && Perform(file, Audit(Some(CutGoal()), true)) == (file, 1)
  {
    var text := CutGoal();
    assert HasAt(text, 4093, "goal") && HasAt(text, 4098, "delegat") && HasAt(text, 4106, "3W");
    NoGoal();
  }

  lemma NoGoal()
    ensures var text := CutGoal(); !Contains(text, "goal") && !Contains(text, "Goal") && !Contains(text, "terminal")
  {
    hide Chunks;
    CutPieces();
    NotIn(Filler(4093) + "go");
    NotIn("al\n");
    NotIn("delegat 3W");
  }

  lemma NotIn(piece: string)
    requires 'm' !in piece && ('o' !in piece || 'a' !in piece)
    ensures !Within(piece, "goal") && !Within(piece, "Goal") && !Within(piece, "terminal")
  {
    hide Within;
    var goal, other, terminal := "goal", "Goal", "terminal";
    assert goal[1] == 'o' && goal[2] == 'a' && other[1] == 'o' && other[2] == 'a' && terminal[3] == 'm';
    if Within(piece, goal) {
      LettersIn(piece, goal);
    }
    if Within(piece, other) {
      LettersIn(piece, other);
    }
    if Within(piece, terminal) {
      LettersIn(piece, terminal);
    }
  }

  lemma LettersIn(piece: string, word: string)
    requires Within(piece, word)
    ensures forall j | 0 <= j < |word| :: word[j] in piece
  {
    var i :| 0 <= i <= |piece| && word <= piece[i..];
    forall j | 0 <= j < |word| ensures word[j] in piece {
      assert word[j] == piece[i..][j] && piece[i..][j] == piece[i + j];
    }
  }
}
