/** Text files as the C library reads and writes them: fgets, C strings, lines. */
module TextFile {
  import opened Bytes

  /** Position of the first `c`, or the length. */
  function Index(s: string, c: char): (i: nat)
    ensures i <= |s| && (forall k | 0 <= k < i :: s[k] != c)
    ensures i < |s| ==> s[i] == c
  {
    if s == "" || s[0] == c then 0 else 1 + Index(s[1..], c)
  }

  /** What string functions see of a buffer: everything before the first NUL. */
  function CString(s: string): (t: string)
    ensures t <= s && NUL !in t
  {
    s[..Index(s, NUL)]
  }

  predicate IsEol(c: char) { c == LF || c == CR }

  function StripEol(s: string): (t: string)
    ensures t <= s
    ensures t != "" ==> !IsEol(t[|t| - 1])
  {
    if s != "" && IsEol(s[|s| - 1]) then StripEol(s[..|s| - 1]) else s
  }

  /** How much of `s` one fgets call with a buffer of `size` bytes takes. */
  function FgetsLength(s: string, size: nat): (n: nat)
    requires s != "" && size >= 2
    ensures 1 <= n <= |s| && n < size
  {
    var line := if Index(s, LF) < |s| then Index(s, LF) + 1 else |s|;
    if line < size then line else size - 1
  }

  /** The lines the fgets loops of this program see, without their line ends. */
  function Lines(s: string, size: nat): seq<string>
    requires size >= 2
  {
    if s == "" then []
    else
      var n := FgetsLength(s, size);
      [StripEol(CString(s[..n]))] + Lines(s[n..], size)
  }

  function Unlines(ls: seq<string>): string {
    if ls == [] then "" else ls[0] + "\n" + Unlines(ls[1..])
  }

  /** A line that one fgets call reads whole and that comes back unchanged. */
  predicate Clean(line: string, size: nat) {
    |line| + 2 <= size && NUL !in line && LF !in line && CR !in line
  }

  ghost predicate AllClean(ls: seq<string>, size: nat) {
    forall i | 0 <= i < |ls| :: Clean(ls[i], size)
  }

  lemma {:induction false} IndexAt(s: string, c: char, i: nat)
    requires i <= |s| && (forall k | 0 <= k < i :: s[k] != c) && (i < |s| ==> s[i] == c)
    ensures Index(s, c) == i
  {
  }

  lemma CStringWhole(s: string)
    requires NUL !in s
    ensures CString(s) == s
  {
    IndexAt(s, NUL, |s|);
  }

  lemma StripOneLf(line: string)
    requires LF !in line && CR !in line
    ensures StripEol(line + "\n") == line
  {
    assert (line + "\n")[..|line|] == line;
    assert line != "" ==> line[|line| - 1] in line;
  }

  lemma LineRead(line: string, rest: string, size: nat)
    requires size >= 2 && Clean(line, size)
    ensures var s := line + "\n" + rest;
            && FgetsLength(s, size) == |line| + 1
            && StripEol(CString(s[..|line| + 1])) == line && s[|line| + 1..] == rest
  {
    var s := line + "\n" + rest;
    assert forall k | 0 <= k < |line| :: s[k] == line[k] && line[k] in line;
    IndexAt(s, LF, |line|);
    assert s[..|line| + 1] == line + "\n";
    CStringWhole(line + "\n");
    StripOneLf(line);
  }

  /** Reading a file of clean lines gives the lines. */
  lemma {:induction false} LinesUnlines(ls: seq<string>, size: nat)
    requires size >= 2 && AllClean(ls, size)
    ensures Lines(Unlines(ls), size) == ls
  {
    hide FgetsLength, StripEol, CString, Clean;
    if ls != [] {
      LineRead(ls[0], Unlines(ls[1..]), size);
      LinesUnlines(ls[1..], size);
    }
  }

  lemma {:induction false} UnlinesConcat(a: seq<string>, b: seq<string>)
    ensures Unlines(a + b) == Unlines(a) + Unlines(b)
  {
    if a != [] {
      assert (a + b)[1..] == a[1..] + b;
      UnlinesConcat(a[1..], b);
    } else {
      assert a + b == b;
    }
  }

  lemma {:induction false} UnlinesInsert(a: seq<string>, line: string, b: seq<string>)
    ensures |Unlines(a + [line] + b)| == |Unlines(a + b)| + |line| + 1
  {
    UnlinesConcat(a + [line], b);
    UnlinesConcat(a, [line]);
    UnlinesConcat(a, b);
    assert Unlines([line]) == line + "\n" + Unlines([]);
  }

  // ---------- lines with their line ends ----------

  /** The fgets chunks of a file as C strings, line ends included. */
  function Chunks(s: string, size: nat): seq<string>
    requires size >= 2
  {
    if s == "" then []
    else
      var n := FgetsLength(s, size);
      [CString(s[..n])] + Chunks(s[n..], size)
  }

  lemma NoChunks(s: string, size: nat)
    requires s == "" && size >= 2
    ensures Chunks(s, size) == []
  {
  }

  /** A line that one fgets call reads whole, a carriage return in it or not. */
  predicate Whole(line: string, size: nat) {
    |line| + 2 <= size && NUL !in line && LF !in line
  }

  lemma ChunkRead(line: string, rest: string, size: nat)
    requires size >= 2 && Whole(line, size)
    ensures Chunks(line + "\n" + rest, size) == [line + "\n"] + Chunks(rest, size)
  {
    var s := line + "\n" + rest;
    assert forall k | 0 <= k < |line| :: s[k] == line[k] && line[k] in line;
    IndexAt(s, LF, |line|);
    assert s[..|line| + 1] == line + "\n" && s[|line| + 1..] == rest;
    CStringWhole(line + "\n");
  }

  /** In a chunk a line end can only be the last character. */
  predicate LineEndLast(chunk: string) {
    forall k | 0 <= k < |chunk| - 1 :: chunk[k] != LF
  }

  lemma {:induction false} ChunksEndLast(s: string, size: nat)
    requires size >= 2
    ensures forall i | 0 <= i < |Chunks(s, size)| :: LineEndLast(Chunks(s, size)[i])
  {
    hide CString;
    if s != "" {
      var n := FgetsLength(s, size);
      ChunksEndLast(s[n..], size);
      assert LineEndLast(CString(s[..n])) by {
        assert CString(s[..n]) <= s[..n];
      }
    }
  }

  method NextChunk(file: string, pos: nat, size: nat) returns (chunk: string, next: nat)
    requires pos < |file| && size >= 2
    ensures pos < next <= |file| && Chunks(file[pos..], size) == [chunk] + Chunks(file[next..], size)
  {
    hide FgetsLength, CString;
    var n := FgetsLength(file[pos..], size);
    chunk, next := CString(file[pos..][..n]), pos + n;
    assert file[pos..][n..] == file[next..];
  }
}
