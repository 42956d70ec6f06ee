/** Quoting for the remote shell, src/nbs-chat/remote.c, against the quoting rules of the POSIX shell. */
module ShellQuote {
  import opened Bytes

  const SIZE_MAX: int := 0xFFFF_FFFF_FFFF_FFFF

  // ---------- what the shell does ----------
  // Sections 2.2.1, 2.2.2 and 2.3 of IEEE Std 1003.1-2017, Shell Command Language.

  datatype Mode = Plain | Escaped | Quoted

  /** Unquoted characters that mean more to the shell than themselves. */
  predicate Special(c: char) {
    c in "|&;<>()$`\"*?[]#~=%!{}\n"
  }

  function Finish(words: seq<string>, word: Option<string>): seq<string> {
    if word.Some? then words + [word.value] else words
  }

  function Grow(word: Option<string>, s: string): Option<string> {
    if word.Some? then Some(word.value + s) else Some(s)
  }

  /**
   * The words of the rest of a command line after quote removal, behind `words` and a word in progress.
   * None when a quote is left open or an unquoted special character would make this more than words.
   */
  function Lex(s: string, mode: Mode, words: seq<string>, word: Option<string>): Option<seq<string>> {
    if s == "" then
      if mode == Plain then Some(Finish(words, word)) else None
    else
      var c, rest := s[0], s[1..];
      match mode
      case Quoted => if c == '\'' then Lex(rest, Plain, words, word) else Lex(rest, Quoted, words, Grow(word, [c]))
      case Escaped => if c == LF then Lex(rest, Plain, words, word) else Lex(rest, Plain, words, Grow(word, [c]))
      case Plain =>
        if IsBlank(c) then Lex(rest, Plain, Finish(words, word), None)
        else if c == '\'' then Lex(rest, Quoted, words, Grow(word, ""))
        else if c == '\\' then Lex(rest, Escaped, words, word)
        else if Special(c) then None
        else Lex(rest, Plain, words, Grow(word, [c]))
  }

  function ShellWords(command: string): Option<seq<string>> {
    Lex(command, Plain, [], None)
  }

  // ---------- what the program writes ----------

  /** One character inside single quotes; a quote ends them, adds itself escaped and opens them again. */
  function Part(c: char): string {
    if c == '\'' then "'\\''" else [c]
  }

  function Body(arg: string): (s: string)
    ensures |arg| <= |s| <= 4 * |arg|
  {
    if arg == "" then "" else Body(arg[..|arg| - 1]) + Part(arg[|arg| - 1])
  }

  function Escape(arg: string): (s: string)
    ensures |s| <= 4 * |arg| + 2
  {
    "'" + Body(arg) + "'"
  }

  function Command(words: seq<string>): string {
    if words == [] then ""
    else if |words| == 1 then Escape(words[0])
    else Command(words[..|words| - 1]) + " " + Escape(words[|words| - 1])
  }

  // ---------- the shell reads back the words ----------

  lemma LexQuote(rest: string, words: seq<string>, w: string)
    ensures Lex("'\\''" + rest, Quoted, words, Some(w)) == Lex(rest, Quoted, words, Some(w + "'"))
  {
    var s0, s1, s2, s3 := "'\\''" + rest, "\\''" + rest, "''" + rest, "'" + rest;
    assert s0[1..] == s1 && s1[1..] == s2 && s2[1..] == s3 && s3[1..] == rest;
    assert Lex(s0, Quoted, words, Some(w)) == Lex(s1, Plain, words, Some(w));
    assert Lex(s1, Plain, words, Some(w)) == Lex(s2, Escaped, words, Some(w));
    assert Lex(s2, Escaped, words, Some(w)) == Lex(s3, Plain, words, Some(w + "'"));
    assert w + "'" + "" == w + "'";
    assert Lex(s3, Plain, words, Some(w + "'")) == Lex(rest, Quoted, words, Some(w + "'"));
  }

  lemma LexPart(c: char, rest: string, words: seq<string>, w: string)
    ensures Lex(Part(c) + rest, Quoted, words, Some(w)) == Lex(rest, Quoted, words, Some(w + [c]))
  {
    if c == '\'' {
      LexQuote(rest, words, w);
    } else {
      assert ([c] + rest)[1..] == rest;
    }
  }

  lemma {:induction false} LexBody(arg: string, rest: string, words: seq<string>, w: string)
    ensures Lex(Body(arg) + rest, Quoted, words, Some(w)) == Lex(rest, Quoted, words, Some(w + arg))
    decreases |arg|
  {
    hide Lex, Part;
    if arg != "" {
      var n := |arg| - 1;
      assert Body(arg) + rest == Body(arg[..n]) + (Part(arg[n]) + rest);
      LexBody(arg[..n], Part(arg[n]) + rest, words, w);
      LexPart(arg[n], rest, words, w + arg[..n]);
      assert w + arg[..n] + [arg[n]] == w + arg;
    } else {
      assert Body(arg) + rest == rest && w + arg == w;
    }
  }

  /** An escaped argument is one word for the shell, and that word is the argument. */
  lemma LexEscape(arg: string, rest: string, words: seq<string>)
    ensures Lex(Escape(arg) + rest, Plain, words, None) == Lex(rest, Plain, words, Some(arg))
  {
    hide Body;
    var s := Escape(arg) + rest;
    assert s[0] == '\'' && s[1..] == Body(arg) + ("'" + rest);
    LexBody(arg, "'" + rest, words, "");
    assert "" + arg == arg;
    assert ("'" + rest)[1..] == rest;
  }

  lemma {:induction false} LexCommand(words: seq<string>, rest: string)
    requires words != []
    ensures Lex(Command(words) + rest, Plain, [], None)
            == Lex(rest, Plain, words[..|words| - 1], Some(words[|words| - 1]))
    decreases |words|
  {
    hide Lex, Escape;
    var n := |words| - 1;
    if n > 0 {
      var front := words[..n];
      assert Command(words) + rest == Command(front) + (" " + (Escape(words[n]) + rest));
      LexCommand(front, " " + (Escape(words[n]) + rest));
      LexBlank(Escape(words[n]) + rest, front[..n - 1], front[n - 1]);
      assert front[..n - 1] + [front[n - 1]] == front;
      LexEscape(words[n], rest, front);
    } else {
      LexEscape(words[0], rest, []);
      assert words[..0] == [];
    }
  }

  lemma LexBlank(rest: string, words: seq<string>, word: string)
    ensures Lex(" " + rest, Plain, words, Some(word)) == Lex(rest, Plain, words + [word], None)
  {
    assert (" " + rest)[1..] == rest;
  }

  /** The shell splits the command into exactly the words it was made of, whatever bytes they contain. */
  lemma CommandRoundTrip(words: seq<string>)
    requires words != []
    ensures ShellWords(Command(words)) == Some(words)
  {
    hide Command;
    LexCommand(words, "");
    assert Command(words) + "" == Command(words);
    assert words[..|words| - 1] + [words[|words| - 1]] == words;
  }

  // ---------- the buffers ----------

  lemma {:induction false} BodyPrefix(arg: string, n: nat)
    requires n <= |arg|
    ensures |Body(arg[..n])| <= |Body(arg)|
    ensures n < |arg|
            ==> Body(arg[..n + 1]) == Body(arg[..n]) + Part(arg[n]) && |Body(arg[..n])| + |Part(arg[n])| <= |Body(arg)|
    decreases |arg| - n
  {
    if n < |arg| {
      assert arg[..n + 1][..n] == arg[..n];
      BodyPrefix(arg, n + 1);
    } else {
      assert arg[..n] == arg;
    }
  }

  /** Stores a string at `pos` of a buffer. */
  method Put(buf: array<char>, pos: nat, s: string) returns (next: nat)
    requires pos + |s| <= buf.Length
    modifies buf
    ensures next == pos + |s| && buf[..next] == old(buf[..pos]) + s
  {
    var i := 0;
    while i < |s|
      invariant 0 <= i <= |s|
      invariant buf[..pos + i] == old(buf[..pos]) + s[..i]
    {
      buf[pos + i] := s[i];
      i := i + 1;
    }
    next := pos + |s|;
  }

  /** shell_escape: it fails exactly when the escaped argument and its NUL do not fit, or is longer than INT_MAX. */
  method ShellEscape(arg: string, buf: array<char>) returns (rc: int)
    requires buf.Length > 0
    modifies buf
    ensures rc == if |Escape(arg)| < buf.Length && |Escape(arg)| <= INT_MAX then |Escape(arg)| else -1
    ensures rc >= 0 ==> buf[..rc] == Escape(arg) && buf[rc] == NUL
  {
    hide Body;
    if 0 >= buf.Length - 1 { return -1; }
    var pos := Put(buf, 0, "'");
    var i := 0;
    EmptyBody(arg);
    while i < |arg|
      invariant 0 <= i <= |arg| && pos == 1 + |Body(arg[..i])| < buf.Length
      invariant buf[..pos] == "'" + Body(arg[..i])
    {
      BodyPrefix(arg, i);
      if arg[i] == '\'' {
        if pos + 4 >= buf.Length - 1 { return -1; }
      } else {
        if pos >= buf.Length - 1 { return -1; }
      }
      pos := Put(buf, pos, Part(arg[i]));
      i := i + 1;
    }
    assert arg[..i] == arg;
    if pos >= buf.Length - 1 { return -1; }
    pos := Put(buf, pos, "'");
    assert buf[..pos] == Escape(arg);
    buf[pos] := NUL;
    if pos > INT_MAX { return -1; }
    rc := pos;
  }

  lemma EmptyBody(arg: string)
    ensures Body(arg[..0]) == ""
  {
  }

  /** What the program reserves for one word: four times its length, two quotes and a blank. */
  function Reserve(w: string): nat { 4 * |w| + 3 }

  function Reserved(words: seq<string>): nat {
    if words == [] then 0 else Reserved(words[..|words| - 1]) + Reserve(words[|words| - 1])
  }

  /** The command never outgrows what is reserved for it. */
  lemma {:induction false} CommandFits(words: seq<string>)
    ensures |Command(words)| <= Reserved(words)
  {
    if |words| > 1 {
      CommandFits(words[..|words| - 1]);
    }
  }

  lemma {:induction false} ReservedPrefix(words: seq<string>, n: nat)
    requires n <= |words|
    ensures Reserved(words[..n]) <= Reserved(words)
    ensures n < |words| ==> Reserved(words[..n + 1]) == Reserved(words[..n]) + Reserve(words[n])
    decreases |words| - n
  {
    if n < |words| {
      assert words[..n + 1][..n] == words[..n];
      ReservedPrefix(words, n + 1);
    } else {
      assert words[..n] == words;
    }
  }

  /** The guards of build_ssh_argv against overflow. */
  predicate Oversized(words: seq<string>) {
    (exists i :: 0 <= i < |words| && |words[i]| > SIZE_MAX / 4 - 3) || Reserved(words) > SIZE_MAX - 1
  }

  method CommandSize(words: seq<string>) returns (size: Option<nat>)
    ensures size == if Oversized(words) then None else Some(Reserved(words) + 1)
  {
    hide Reserved;
    var total, i := 0, 0;
    NothingReserved();
    assert words[..0] == [];
    while i < |words|
      invariant 0 <= i <= |words| && total == Reserved(words[..i]) <= SIZE_MAX
      invariant forall k | 0 <= k < i :: |words[k]| <= SIZE_MAX / 4 - 3
    {
      ReservedPrefix(words, i);
      ReservedPrefix(words, i + 1);
      if |words[i]| > SIZE_MAX / 4 - 3 { return None; }
      if total > SIZE_MAX - Reserve(words[i]) { return None; }
      total := total + Reserve(words[i]);
      i := i + 1;
    }
    assert words[..i] == words;
    if total > SIZE_MAX - 1 { return None; }
    size := Some(total + 1);
  }

  lemma NothingReserved()
    ensures Reserved([]) == 0 && Command([]) == ""
  {
  }

  /** The escape buffer is sized for the longest word. */
  method LongestReserve(words: seq<string>) returns (need: nat)
    requires words != []
    ensures need > 0 && forall i | 0 <= i < |words| :: Reserve(words[i]) <= need
  {
    need := Reserve(words[0]);
    var i := 1;
    while i < |words|
      invariant 1 <= i <= |words| && need > 0 && forall k | 0 <= k < i :: Reserve(words[k]) <= need
    {
      if Reserve(words[i]) > need { need := Reserve(words[i]); }
      i := i + 1;
    }
  }

  /**
   * The command-string half of build_ssh_argv. With the buffers it reserves neither the escaping nor the
   * appending runs out of room; it gives up only on words of absurd length.
   */
  method BuildCommand(words: seq<string>) returns (command: Option<string>)
    requires words != []
    ensures command == if Oversized(words) || (exists i :: 0 <= i < |words| && |Escape(words[i])| > INT_MAX) then None
                       else Some(Command(words))
  {
    hide Reserved, Oversized, Escape, Command;
    var size := CommandSize(words);
    if size == None { return None; }
    var need := LongestReserve(words);
    var escBuf := new char[need](_ => 'A');
    var remoteCmd := new char[size.value](_ => 'A');
    var pos, i := 0, 0;
    assert words[..0] == [];
    NothingReserved();
    while i < |words|
      invariant 0 <= i <= |words| && pos == |Command(words[..i])| <= Reserved(words) < remoteCmd.Length
      invariant remoteCmd[..pos] == Command(words[..i])
      invariant forall k | 0 <= k < i :: |Escape(words[k])| <= INT_MAX
    {
      CommandStep(words, i);
      if i > 0 {
        pos := Put(remoteCmd, pos, " ");
      }
      var elen := ShellEscape(words[i], escBuf);
      if elen < 0 { return None; }
      pos := Put(remoteCmd, pos, escBuf[..elen]);
      i := i + 1;
    }
    remoteCmd[pos] := NUL;
    assert words[..i] == words;
    command := Some(remoteCmd[..pos]);
  }

  lemma CommandStep(words: seq<string>, i: nat)
    requires i < |words|
    ensures Command(words[..i + 1]) == Command(words[..i]) + (if i > 0 then " " else "") + Escape(words[i])
    ensures |Command(words[..i + 1])| <= Reserved(words) && |Escape(words[i])| < Reserve(words[i])
  {
    hide Escape;
    assert words[..i + 1][..i] == words[..i];
    CommandFits(words[..i + 1]);
    ReservedPrefix(words, i + 1);
  }
}
