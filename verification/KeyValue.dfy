/** Text files of "key=value" lines, as state_read and state_write of src/nbs-hub/hub.c treat them. */
module KeyValue {
  import opened Bytes
  import opened TextFile

  const LINE_BUFFER: nat := 4096

  datatype Pair = Pair(key: string, value: string)

  predicate Matches(chunk: string, key: string) {
    |key| < |chunk| && key <= chunk && chunk[|key|] == '='
  }

  /** The value text of a matching line, without its newline and cut to the reader's buffer. */
  function ValueOf(chunk: string, key: string, size: nat): string
    requires Matches(chunk, key) && size > 0
  {
    var v := chunk[|key| + 1..];
    Truncate(if v != "" && v[|v| - 1] == LF then v[..|v| - 1] else v, size - 1)
  }

  /** The value of the first matching line. */
  function Find(chunks: seq<string>, key: string, size: nat): Option<string>
    requires size > 0
  {
    if chunks == [] then None
    else if Matches(chunks[0], key) then Some(ValueOf(chunks[0], key, size))
    else Find(chunks[1..], key, size)
  }

  function PairLine(key: string, value: string): string { key + "=" + value + "\n" }

  /** Every matching line replaced. */
  function Rewrite(chunks: seq<string>, key: string, value: string): string {
    if chunks == [] then ""
    else (if Matches(chunks[0], key) then PairLine(key, value) else chunks[0]) + Rewrite(chunks[1..], key, value)
  }

  predicate Present(chunks: seq<string>, key: string) {
    exists i :: 0 <= i < |chunks| && Matches(chunks[i], key)
  }

  /** The file after state_write: the lines replaced, or a line added where there was none. */
  function Write(file: string, key: string, value: string): string {
    var chunks := Chunks(file, LINE_BUFFER);
    Rewrite(chunks, key, value) + if Present(chunks, key) then "" else PairLine(key, value)
  }

  function Read(file: string, key: string, size: nat): Option<string>
    requires size > 0
  {
    Find(Chunks(file, LINE_BUFFER), key, size)
  }

  method StateRead(file: string, key: string, size: nat) returns (value: Option<string>)
    requires size > 0
    ensures value == Read(file, key, size)
  {
    hide Chunks, Matches, ValueOf;
    var pos := 0;
    assert file[pos..] == file;
    while pos < |file|
      invariant 0 <= pos <= |file| && Find(Chunks(file[pos..], LINE_BUFFER), key, size) == Read(file, key, size)
    {
      var chunk;
      chunk, pos := NextChunk(file, pos, LINE_BUFFER);
      if Matches(chunk, key) { return Some(ValueOf(chunk, key, size)); }
    }
    NoChunks(file[pos..], LINE_BUFFER);
    value := None;
  }

  lemma RewriteStep(chunk: string, rest: seq<string>, key: string, value: string)
    ensures Rewrite([chunk] + rest, key, value) == (if Matches(chunk, key) then PairLine(key, value) else chunk)
            + Rewrite(rest, key, value)
    ensures Present([chunk] + rest, key) == (Matches(chunk, key) || Present(rest, key))
  {
    assert ([chunk] + rest)[1..] == rest;
    assert Present(rest, key) ==> Present([chunk] + rest, key) by {
      if Present(rest, key) {
        var i :| 0 <= i < |rest| && Matches(rest[i], key);
        assert Matches(([chunk] + rest)[i + 1], key);
      }
    }
    assert Matches(chunk, key) ==> Matches(([chunk] + rest)[0], key);
  }

  method StateWrite(file: string, key: string, value: string) returns (out: string)
    ensures out == Write(file, key, value)
  {
    hide Chunks, Matches, Rewrite, Present;
    ghost var all := Chunks(file, LINE_BUFFER);
    var pos, found := 0, false;
    out := "";
    assert file[pos..] == file && "" + Rewrite(all, key, value) == Rewrite(all, key, value);
    while pos < |file|
      invariant 0 <= pos <= |file|
      invariant out + Rewrite(Chunks(file[pos..], LINE_BUFFER), key, value) == Rewrite(all, key, value)
      invariant Present(all, key) == (found || Present(Chunks(file[pos..], LINE_BUFFER), key))
    {
      var chunk;
      chunk, pos := NextChunk(file, pos, LINE_BUFFER);
      RewriteStep(chunk, Chunks(file[pos..], LINE_BUFFER), key, value);
      if Matches(chunk, key) {
        out, found := out + PairLine(key, value), true;
      } else {
        out := out + chunk;
      }
    }
    NoChunks(file[pos..], LINE_BUFFER);
    NothingToRewrite(key, value);
    if !found {
      out := out + PairLine(key, value);
    }
  }

  lemma NothingToRewrite(key: string, value: string)
    ensures Rewrite([], key, value) == "" && !Present([], key)
  {
  }

  // ---------- the file is a map ----------

  predicate LegalKey(key: string) {
    '=' !in key
  }

  /** A pair whose line one fgets call reads whole. */
  predicate LegalPair(p: Pair) {
    LegalKey(p.key) && Whole(p.key + "=" + p.value, LINE_BUFFER)
  }

  function Render(ps: seq<Pair>): string {
    if ps == [] then "" else PairLine(ps[0].key, ps[0].value) + Render(ps[1..])
  }

  predicate AllLegal(ps: seq<Pair>) {
    forall i | 0 <= i < |ps| :: LegalPair(ps[i])
  }

  function Lookup(ps: seq<Pair>, key: string): Option<string> {
    if ps == [] then None else if ps[0].key == key then Some(ps[0].value) else Lookup(ps[1..], key)
  }

  /** The value of every pair with the key. */
  function Replace(ps: seq<Pair>, key: string, value: string): (r: seq<Pair>)
    ensures |r| == |ps|
  {
    if ps == [] then [] else [if ps[0].key == key then Pair(key, value) else ps[0]] + Replace(ps[1..], key, value)
  }

  function Put(ps: seq<Pair>, key: string, value: string): seq<Pair> {
    if Lookup(ps, key) == None then ps + [Pair(key, value)] else Replace(ps, key, value)
  }

  lemma EqualsInside(p: Pair, key: string)
    requires Matches(PairLine(p.key, p.value), key) && |key| != |p.key|
    ensures '=' in p.key || '=' in key
  {
    var line := PairLine(p.key, p.value);
    if |key| < |p.key| {
      assert p.key[|key|] == line[|key|];
    } else {
      assert key[|p.key|] == line[|p.key|];
    }
  }

  lemma LineMatches(p: Pair, key: string)
    requires LegalKey(p.key) && LegalKey(key)
    ensures Matches(PairLine(p.key, p.value), key) <==> p.key == key
    ensures p.key == key ==> forall size: nat | size > 0 ::
            ValueOf(PairLine(p.key, p.value), key, size) == Truncate(p.value, size - 1)
  {
    var line := PairLine(p.key, p.value);
    assert line[|p.key|] == '=' && line[..|p.key|] == p.key;
    if Matches(line, key) && |key| != |p.key| {
      EqualsInside(p, key);
      assert false;
    }
    if p.key == key {
      assert line[|key| + 1..] == p.value + "\n";
      assert (p.value + "\n")[..|p.value|] == p.value;
    }
  }

  lemma ChunksPair(p: Pair, rest: string)
    requires LegalPair(p)
    ensures Chunks(PairLine(p.key, p.value) + rest, LINE_BUFFER) == [PairLine(p.key, p.value)]
            + Chunks(rest, LINE_BUFFER)
  {
    var line := p.key + "=" + p.value;
    assert PairLine(p.key, p.value) == line + "\n";
    ChunkRead(line, rest, LINE_BUFFER);
  }

  lemma {:induction false} FindLookup(ps: seq<Pair>, key: string, size: nat)
    requires AllLegal(ps) && LegalKey(key) && size > 0
    ensures Find(Chunks(Render(ps), LINE_BUFFER), key, size)
         == match Lookup(ps, key) case Some(v) => Some(Truncate(v, size - 1)) case None => None
  {
    hide Chunks, Matches, ValueOf, LegalPair, LegalKey, PairLine, Whole, Truncate;
    if ps != [] {
      KeyOf(ps[0]);
      ChunksPair(ps[0], Render(ps[1..]));
      LineMatches(ps[0], key);
      FindLookup(ps[1..], key, size);
    } else {
      NoChunks("", LINE_BUFFER);
    }
  }

  lemma KeyOf(p: Pair)
    requires LegalPair(p)
    ensures LegalKey(p.key)
  {
  }

  lemma {:induction false} RewriteReplace(ps: seq<Pair>, key: string, value: string)
    requires AllLegal(ps) && LegalKey(key)
    ensures Rewrite(Chunks(Render(ps), LINE_BUFFER), key, value) == Render(Replace(ps, key, value))
    ensures Present(Chunks(Render(ps), LINE_BUFFER), key) <==> Lookup(ps, key) != None
  {
    hide Chunks, Matches, ValueOf, LegalPair, LegalKey, PairLine, Whole, Truncate, Rewrite, Present;
    if ps != [] {
      KeyOf(ps[0]);
      ChunksPair(ps[0], Render(ps[1..]));
      LineMatches(ps[0], key);
      RewriteReplace(ps[1..], key, value);
      RewriteStep(PairLine(ps[0].key, ps[0].value), Chunks(Render(ps[1..]), LINE_BUFFER), key, value);
      assert Replace(ps, key, value)[1..] == Replace(ps[1..], key, value);
    } else {
      NoChunks("", LINE_BUFFER);
      NothingToRewrite(key, value);
    }
  }

  lemma {:induction false} RenderSnoc(ps: seq<Pair>, p: Pair)
    ensures Render(ps + [p]) == Render(ps) + PairLine(p.key, p.value)
  {
    hide PairLine;
    if ps != [] {
      assert (ps + [p])[1..] == ps[1..] + [p];
      RenderSnoc(ps[1..], p);
    } else {
      assert (ps + [p])[1..] == [];
    }
  }

  lemma {:induction false} ReplaceAbsent(ps: seq<Pair>, key: string, value: string)
    requires Lookup(ps, key) == None
    ensures Replace(ps, key, value) == ps
  {
    if ps != [] {
      ReplaceAbsent(ps[1..], key, value);
    }
  }

  /** state_write on a file of legal lines is an update of the list of pairs. */
  lemma WritePut(ps: seq<Pair>, key: string, value: string)
    requires AllLegal(ps) && LegalKey(key)
    ensures Write(Render(ps), key, value) == Render(Put(ps, key, value))
  {
    hide Chunks, LegalPair, Rewrite, Present, PairLine, LegalKey;
    RewriteReplace(ps, key, value);
    if Lookup(ps, key) == None {
      ReplaceAbsent(ps, key, value);
      RenderSnoc(ps, Pair(key, value));
    }
  }

  lemma {:induction false} LookupReplace(ps: seq<Pair>, key: string, value: string, other: string)
    ensures Lookup(Replace(ps, key, value), other) == if other == key && Lookup(ps, key) != None then Some(value)
            else Lookup(ps, other)
  {
    if ps != [] {
      assert Replace(ps, key, value)[1..] == Replace(ps[1..], key, value);
      LookupReplace(ps[1..], key, value, other);
    }
  }

  lemma {:induction false} LookupSnoc(ps: seq<Pair>, p: Pair, other: string)
    ensures Lookup(ps + [p], other) == if Lookup(ps, other) != None then Lookup(ps, other) else if p.key == other
            then Some(p.value) else None
  {
    if ps != [] {
      assert (ps + [p])[1..] == ps[1..] + [p];
      LookupSnoc(ps[1..], p, other);
    }
  }

  lemma {:induction false} ReplaceLegal(ps: seq<Pair>, key: string, value: string)
    requires AllLegal(ps) && LegalPair(Pair(key, value))
    ensures AllLegal(Replace(ps, key, value)) && AllLegal(Put(ps, key, value))
  {
    hide LegalPair;
    if ps != [] {
      ReplaceLegal(ps[1..], key, value);
    }
  }

  /** After a write the key reads as the new value and every other key as before. */
  lemma ReadAfterWrite(ps: seq<Pair>, key: string, value: string, other: string, size: nat)
    requires AllLegal(ps) && LegalPair(Pair(key, value)) && LegalKey(other) && size > 0
    ensures Read(Write(Render(ps), key, value), other, size)
         == if other == key then Some(Truncate(value, size - 1)) else Read(Render(ps), other, size)
  {
    hide LegalPair, LegalKey, Find, Chunks, Write, Truncate;
    KeyOf(Pair(key, value));
    WritePut(ps, key, value);
    ReplaceLegal(ps, key, value);
    FindLookup(Put(ps, key, value), other, size);
    FindLookup(ps, other, size);
    LookupReplace(ps, key, value, other);
    LookupSnoc(ps, Pair(key, value), other);
  }

  /** What any file can give for a key: one line's worth, cut to the buffer. */
  lemma {:induction false} FindsOneLine(chunks: seq<string>, key: string, size: nat)
    requires size > 0 && forall i | 0 <= i < |chunks| :: LineEndLast(chunks[i])
    ensures Find(chunks, key, size).Some? ==>
              |Find(chunks, key, size).value| < size && LF !in Find(chunks, key, size).value
  {
    if chunks != [] && !Matches(chunks[0], key) {
      FindsOneLine(chunks[1..], key, size);
    }
  }

  lemma ReadsOneLine(file: string, key: string, size: nat)
    requires size > 0
    ensures Read(file, key, size).Some? ==> |Read(file, key, size).value| < size && LF !in Read(file, key, size).value
  {
    hide Chunks, Find, LineEndLast;
    ChunksEndLast(file, LINE_BUFFER);
    FindsOneLine(Chunks(file, LINE_BUFFER), key, size);
  }

  // ---------- values of any kind ----------

  predicate PlainKey(key: string) {
    |key| + 2 <= LINE_BUFFER && '=' !in key && NUL !in key && LF !in key
  }

  /** How much of a value reads back: its first line, as far as one fgets call and the reader's buffer hold it. */
  function Kept(key: string, value: string, size: nat): string
    requires PlainKey(key) && size > 0
  {
    Truncate(Truncate(value[..Index(value, LF)], LINE_BUFFER - 2 - |key|), size - 1)
  }

  lemma FirstChunk(key: string, value: string, rest: string, size: nat)
    requires PlainKey(key) && NUL !in value && size > 0
    ensures var chunks := Chunks(PairLine(key, value) + rest, LINE_BUFFER);
            chunks != [] && Matches(chunks[0], key) && ValueOf(chunks[0], key, size) == Kept(key, value, size)
  {
    hide CString;
    var s, first := PairLine(key, value) + rest, value[..Index(value, LF)];
    var head := key + "=" + first;
    forall k | 0 <= k < |head| ensures s[k] != LF {
      if k < |key| {
        assert s[k] == key[k];
      } else if k > |key| {
        assert s[k] == value[k - |key| - 1];
      }
    }
    assert s[|head|] == LF;
    IndexAt(s, LF, |head|);
    var n := FgetsLength(s, LINE_BUFFER);
    ChunkPlain(key, value, rest, n);
    hide Truncate, Matches, ValueOf;
    if |head| + 1 < LINE_BUFFER {
      assert PairLine(key, value)[..n] == key + "=" + (first + "\n");
      ValueOfLine(key, first, size);
      KeptWhole(first, LINE_BUFFER - 2 - |key|);
    } else {
      var cut := first[..LINE_BUFFER - 2 - |key|];
      assert PairLine(key, value)[..n] == key + "=" + cut;
      ValueOfCut(key, cut, size);
      KeptFront(first, LINE_BUFFER - 2 - |key|);
    }
  }

  lemma KeptWhole(s: string, max: nat)
    requires |s| <= max
    ensures Truncate(s, max) == s
  {
  }

  lemma KeptFront(s: string, max: nat)
    requires max <= |s|
    ensures Truncate(s, max) == s[..max]
  {
  }

  lemma ValueOfLine(key: string, value: string, size: nat)
    requires size > 0
    ensures var chunk := key + "=" + (value + "\n");
            Matches(chunk, key) && ValueOf(chunk, key, size) == Truncate(value, size - 1)
  {
    var chunk := key + "=" + (value + "\n");
    assert chunk[|key| + 1..] == value + "\n" && (value + "\n")[..|value|] == value;
  }

  lemma ValueOfCut(key: string, value: string, size: nat)
    requires size > 0 && LF !in value
    ensures var chunk := key + "=" + value;
            Matches(chunk, key) && ValueOf(chunk, key, size) == Truncate(value, size - 1)
  {
    var chunk := key + "=" + value;
    assert chunk[|key| + 1..] == value;
  }

  lemma ChunkPlain(key: string, value: string, rest: string, n: nat)
    requires PlainKey(key) && NUL !in value && n <= |PairLine(key, value)|
    ensures CString((PairLine(key, value) + rest)[..n]) == PairLine(key, value)[..n]
  {
    var line := PairLine(key, value);
    assert NUL !in line;
    assert (line + rest)[..n] == line[..n];
    CStringWhole(line[..n]);
  }

  lemma {:induction false} FindPut(ps: seq<Pair>, key: string, value: string, size: nat)
    requires AllLegal(ps) && PlainKey(key) && NUL !in value && size > 0
    ensures Find(Chunks(Render(Put(ps, key, value)), LINE_BUFFER), key, size) == Some(Kept(key, value, size))
  {
    hide Chunks, Matches, ValueOf, LegalPair, LegalKey, PairLine, PlainKey, Kept;
    KeyPlain(key);
    if ps == [] {
      assert Put(ps, key, value) == [Pair(key, value)] && Render([]) == "";
      FirstChunk(key, value, "", size);
    } else if ps[0].key == key {
      assert Put(ps, key, value) == [Pair(key, value)] + Replace(ps[1..], key, value);
      FirstChunk(key, value, Render(Replace(ps[1..], key, value)), size);
    } else {
      KeyOf(ps[0]);
      PutBehind(ps, key, value);
      ChunksPair(ps[0], Render(Put(ps[1..], key, value)));
      LineMatches(ps[0], key);
      FindPut(ps[1..], key, value, size);
    }
  }

  lemma KeyPlain(key: string)
    requires PlainKey(key)
    ensures LegalKey(key)
  {
  }

  lemma PutBehind(ps: seq<Pair>, key: string, value: string)
    requires ps != [] && ps[0].key != key
    ensures Put(ps, key, value) == [ps[0]] + Put(ps[1..], key, value)
  {
  }

  /**
   * For any value without NUL, as the arguments of the program are: what reads back for the key after the
   * write, and when that is the value.
   */
  lemma ReadBack(ps: seq<Pair>, key: string, value: string, size: nat)
    requires AllLegal(ps) && PlainKey(key) && NUL !in value && size > 0
    ensures Read(Write(Render(ps), key, value), key, size) == Some(Kept(key, value, size))
    ensures Kept(key, value, size) == value <==> LF !in value && |value| < size && |key| + |value| + 1 < LINE_BUFFER
  {
    hide LegalPair, Find, Chunks, Write, Render, Put;
    KeyPlain(key);
    WritePut(ps, key, value);
    FindPut(ps, key, value, size);
    if LF !in value {
      IndexAt(value, LF, |value|);
    }
  }
}
