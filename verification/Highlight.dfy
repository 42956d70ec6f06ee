/** Spans, tilings and keyword tables shared by the line tokenisers of nbs-md-viewer. */
module Highlight {
  import opened Bytes

  datatype Token = Normal | Keyword | TypeName | Str | Number | Comment | Preproc | Operator
  datatype Context = Ground | BlockComment | InString
  datatype Span = Span(start: nat, len: nat, token: Token)

  /** What a byte of source text is, coarsely: inside a comment, inside a string, or code. */
  datatype Class = CodeByte | CommentByte | StringByte

  function ClassOf(t: Token): Class {
    match t
    case Comment => CommentByte
    case Str => StringByte
    case _ => CodeByte
  }

  // ---------- tilings ----------

  /** The spans follow one another from column 0 to column `end`, without gap or overlap. */
  predicate Tile(spans: seq<Span>, end: nat) {
    if spans == [] then end == 0
    else
      var last := spans[|spans| - 1];
      last.start + last.len == end && Tile(spans[..|spans| - 1], last.start)
  }

  lemma EmptyTile()
    ensures Tile([], 0)
  {
  }

  lemma TileExtend(spans: seq<Span>, end: nat, len: nat, token: Token)
    requires Tile(spans, end)
    ensures Tile(spans + [Span(end, len, token)], end + len)
  {
    assert (spans + [Span(end, len, token)])[..|spans|] == spans;
  }

  /** In a tiling every column lies in exactly one span. */
  lemma {:induction false} TileCovers(spans: seq<Span>, end: nat, column: nat)
    requires Tile(spans, end) && column < end
    ensures exists k | 0 <= k < |spans| ::
              && spans[k].start <= column < spans[k].start + spans[k].len
              && forall m | 0 <= m < |spans| && spans[m].start <= column < spans[m].start + spans[m].len :: m == k
  {
    var n := |spans| - 1;
    TileBounds(spans[..n], spans[n].start);
    assert forall m | 0 <= m < n :: spans[m] == spans[..n][m] && spans[m].start + spans[m].len <= spans[n].start;
    if column < spans[n].start {
      TileCovers(spans[..n], spans[n].start, column);
      var k :| 0 <= k < n && spans[..n][k].start <= column < spans[..n][k].start + spans[..n][k].len
               && forall m | 0 <= m < n
                  && spans[..n][m].start <= column < spans[..n][m].start + spans[..n][m].len :: m == k;
      assert spans[k] == spans[..n][k];
      forall m | 0 <= m < |spans| && spans[m].start <= column < spans[m].start + spans[m].len ensures m == k {
        assert m < n ==> spans[m] == spans[..n][m];
      }
    } else {
      assert forall m | 0 <= m < |spans| && spans[m].start <= column < spans[m].start + spans[m].len :: m == n;
    }
  }

  lemma {:induction false} TileBounds(spans: seq<Span>, end: nat)
    requires Tile(spans, end)
    ensures forall k | 0 <= k < |spans| :: spans[k].start + spans[k].len <= end
  {
    if spans != [] {
      var n := |spans| - 1;
      TileBounds(spans[..n], spans[n].start);
      forall k | 0 <= k < |spans| ensures spans[k].start + spans[k].len <= end {
        assert k < n ==> spans[k] == spans[..n][k];
      }
    }
  }

  /** In a tiling each span starts where the one before it ends. */
  lemma {:induction false} TileConsecutive(spans: seq<Span>, end: nat, k: nat)
    requires Tile(spans, end) && k < |spans|
    ensures spans[k].start == if k == 0 then 0 else spans[k - 1].start + spans[k - 1].len
    ensures k == |spans| - 1 ==> spans[k].start + spans[k].len == end
  {
    var n := |spans| - 1;
    if k < n {
      TileConsecutive(spans[..n], spans[n].start, k);
    } else if k > 0 {
      assert spans[..n][n - 1] == spans[n - 1];
    }
  }

  /** The column where the spans written so far end. */
  function End(spans: seq<Span>): nat {
    if spans == [] then 0 else spans[|spans| - 1].start + spans[|spans| - 1].len
  }

  /** Spans of at least one byte each are no more than the bytes they tile. */
  lemma {:induction false} TileCount(spans: seq<Span>, end: nat)
    requires Tile(spans, end) && forall k | 0 <= k < |spans| :: spans[k].len >= 1
    ensures |spans| <= end
  {
    if spans != [] {
      var n := |spans| - 1;
      TileCount(spans[..n], spans[n].start);
    }
  }

  /** Two tilings that agree on the spans starting at the same column: the shorter one is a front of the other. */
  lemma {:induction false} TilePrefix(a: seq<Span>, b: seq<Span>, endA: nat, endB: nat)
    requires Tile(a, endA) && Tile(b, endB) && |a| <= |b|
    requires forall i, j | 0 <= i < |a| && 0 <= j < |b| && a[i].start == b[j].start :: a[i] == b[j]
    ensures a == b[..|a|] && endA <= endB
  {
    hide Tile;
    var n := 0;
    while n < |a|
      invariant n <= |a| && a[..n] == b[..n]
    {
      TileConsecutive(a, endA, n);
      TileConsecutive(b, endB, n);
      if n > 0 {
        assert a[n - 1] == a[..n][n - 1] == b[..n][n - 1];
      }
      assert a[n] == b[n];
      n := n + 1;
    }
    if a == [] {
      TileOfNone(endA);
    } else {
      TileConsecutive(a, endA, n - 1);
      TileBounds(b, endB);
    }
  }

  lemma TileOfNone(end: nat)
    requires Tile([], end)
    ensures end == 0
  {
  }

  // ---------- character classes ----------

  predicate IsHexDigit(c: char) { IsDigit(c) || 'a' <= c <= 'f' || 'A' <= c <= 'F' }

  /** The first column at or after `i` whose character is not in `p`. */
  function RunEnd(line: string, i: nat, p: char -> bool): (e: nat)
    requires i <= |line|
    ensures i <= e <= |line|
    ensures forall k | i <= k < e :: p(line[k])
    ensures e < |line| ==> !p(line[e])
    decreases |line| - i
  {
    if i < |line| && p(line[i]) then RunEnd(line, i + 1, p) else i
  }

  method SkipRun(line: string, i: nat, p: char -> bool) returns (e: nat)
    requires i <= |line|
    ensures e == RunEnd(line, i, p)
  {
    e := i;
    while e < |line| && p(line[e])
      invariant i <= e <= |line| && RunEnd(line, e, p) == RunEnd(line, i, p)
    {
      e := e + 1;
    }
  }

  // ---------- keyword tables ----------

  /** strcmp order on byte strings. */
  predicate Less(a: string, b: string) {
    b != "" && (a == "" || a[0] < b[0] || (a[0] == b[0] && Less(a[1..], b[1..])))
  }

  predicate StrictlySorted(table: seq<string>) {
    forall i, j | 0 <= i < j < |table| :: Less(table[i], table[j])
  }

  /** strncmp(word, entry, |word|): the word has no terminator of its own, the entry does. */
  function Strncmp(word: string, entry: string): int {
    if word == "" then 0
    else if entry == "" then 1
    else if word[0] != entry[0] then word[0] as int - entry[0] as int
    else Strncmp(word[1..], entry[1..])
  }

  lemma {:induction false} LessTransitive(a: string, b: string, c: string)
    requires Less(a, b) && Less(b, c)
    ensures Less(a, c)
  {
    if a != "" && a[0] == b[0] == c[0] {
      LessTransitive(a[1..], b[1..], c[1..]);
    }
  }

  lemma {:induction false} LessIrreflexive(a: string)
    ensures !Less(a, a)
  {
    if a != "" {
      LessIrreflexive(a[1..]);
    }
  }

  /** The prefix comparison, corrected for equal prefixes, is the order of the full strings. */
  lemma {:induction false} StrncmpOrders(word: string, entry: string)
    ensures Strncmp(word, entry) < 0 ==> Less(word, entry)
    ensures Strncmp(word, entry) > 0 ==> Less(entry, word)
    ensures Strncmp(word, entry) == 0 ==> word <= entry && (|entry| > |word| ==> Less(word, entry))
  {
    if word != "" && entry != "" && word[0] == entry[0] {
      StrncmpOrders(word[1..], entry[1..]);
      if Strncmp(word, entry) == 0 {
        assert word == [word[0]] + word[1..] && entry == [entry[0]] + entry[1..];
      }
    }
  }

  /**
   * js_kw_lookup and py_kw_lookup: binary search with a prefix comparison. It finds the word
   * exactly when the word is in the table, also beside entries that extend it or that it extends.
   */
  method KwLookup(table: seq<string>, word: string) returns (found: bool)
    requires StrictlySorted(table)
    ensures found <==> word in table
  {
    var lo, hi := 0, 0;
    while hi < |table|
      invariant 0 <= hi <= |table|
    {
      hi := hi + 1;
    }
    hi := hi - 1;
    while lo <= hi
      invariant 0 <= lo <= hi + 1 <= |table|
      invariant forall k | 0 <= k < lo :: Less(table[k], word)
      invariant forall k | hi < k < |table| :: Less(word, table[k])
    {
      var mid := lo + (hi - lo) / 2;
      var cmp := Strncmp(word, table[mid]);
      StrncmpOrders(word, table[mid]);
      if cmp == 0 {
        if |table[mid]| == |word| {
          assert word == table[mid];
          return true;
        }
        cmp := -1;
      }
      if cmp < 0 {
        forall k | mid < k < |table| ensures Less(word, table[k]) {
          LessTransitive(word, table[mid], table[k]);
        }
        hi := mid - 1;
      } else {
        forall k | 0 <= k < mid ensures Less(table[k], word) {
          LessTransitive(table[k], table[mid], word);
        }
        lo := mid + 1;
      }
    }
    LessIrreflexive(word);
    return false;
  }

  lemma {:induction false} LessAt(a: string, b: string, k: nat)
    requires k <= |a| && k < |b| && (forall i | 0 <= i < k :: a[i] == b[i]) && (k == |a| || a[k] < b[k])
    ensures Less(a, b)
  {
    if k > 0 {
      LessAt(a[1..], b[1..], k - 1);
    }
  }

  /** Sortedness of a table, one neighbouring pair at a time. */
  predicate Ascending(table: seq<string>) {
    forall i | 0 < i < |table| :: Less(table[i - 1], table[i])
  }

  lemma AscendingJoin(a: seq<string>, b: seq<string>)
    requires Ascending(a) && Ascending(b) && (a == [] || b == [] || Less(a[|a| - 1], b[0]))
    ensures Ascending(a + b)
  {
    hide Less;
    forall i | 0 < i < |a + b| ensures Less((a + b)[i - 1], (a + b)[i]) {
      if i > |a| {
        assert Less(b[i - |a| - 1], b[i - |a|]);
      }
    }
  }

  lemma {:induction false} AscendingIsSorted(table: seq<string>)
    requires Ascending(table)
    ensures StrictlySorted(table)
  {
    hide Less;
    if |table| >= 2 {
      var n := |table| - 1;
      AscendingIsSorted(table[..n]);
      forall i, j | 0 <= i < j < |table| ensures Less(table[i], table[j]) {
        if j < n {
          assert Less(table[..n][i], table[..n][j]);
        } else if i < n - 1 {
          assert Less(table[..n][i], table[..n][n - 1]) && Less(table[n - 1], table[n]);
          LessTransitive(table[i], table[n - 1], table[n]);
        }
      }
    }
  }

  function WordToken(keywords: seq<string>, types: seq<string>, word: string): Token {
    if word in keywords then Keyword else if word in types then TypeName else Normal
  }

  method LookupWord(keywords: seq<string>, types: seq<string>, word: string) returns (token: Token)
    requires StrictlySorted(keywords) && StrictlySorted(types)
    ensures token == WordToken(keywords, types, word)
  {
    token := Normal;
    var isKeyword := KwLookup(keywords, word);
    if isKeyword {
      token := Keyword;
    } else {
      var isType := KwLookup(types, word);
      if isType { token := TypeName; }
    }
  }

  /** js_emit and py_emit: append a span unless the array is full. */
  method Emit(spans: seq<Span>, maxSpans: nat, start: nat, len: nat, token: Token) returns (r: seq<Span>, ok: bool)
    ensures ok <==> |spans| < maxSpans
    ensures r == if ok then spans + [Span(start, len, token)] else spans
  {
    if |spans| >= maxSpans {
      return spans, false;
    }
    return spans + [Span(start, len, token)], true;
  }

  // ---------- lines of a text ----------

  function At(t: string, p: nat): char {
    if p < |t| then t[p] else '\n'
  }

  /** `line` is the text between column `o` of the text and the next newline. */
  predicate LineAt(text: string, o: nat, line: string) {
    o + |line| <= |text| && text[o..o + |line|] == line && At(text, o + |line|) == '\n'
  }

  lemma LineFits(text: string, o: nat, line: string)
    requires LineAt(text, o, line)
    ensures o + |line| <= |text|
  {
  }

  datatype Line = Line(start: nat, text: string, spans: seq<Span>)

  lemma JoinLine(text: string, lines: seq<Line>, l: Line)
    requires LineAt(text, l.start, l.text)
    requires if lines == [] then l.start == 0
             else l.start > 0 && Join(lines) == text[..l.start - 1] && text[l.start - 1] == '\n'
    ensures Join(lines + [l]) == text[..l.start + |l.text|]
  {
    assert (lines + [l])[..|lines|] == lines;
    if lines != [] {
      assert text[..l.start] == text[..l.start - 1] + "\n";
    }
  }

  function Join(lines: seq<Line>): string
    requires lines != []
  {
    if |lines| == 1 then lines[0].text else Join(lines[..|lines| - 1]) + "\n" + lines[|lines| - 1].text
  }

  /** No line has more bytes than the array has spans. */
  predicate AllShort(lines: seq<Line>, maxSpans: nat) {
    forall k | 0 <= k < |lines| :: |lines[k].text| <= maxSpans
  }

  predicate AllInArray(lines: seq<Line>, maxSpans: nat) {
    forall k | 0 <= k < |lines| :: |lines[k].spans| <= maxSpans
  }

  /** The inner loop of render_code_fence: the line that starts at column `start` of the text. */
  method CutLine(text: string, start: nat) returns (line: string)
    requires start <= |text|
    ensures LineAt(text, start, line) && '\n' !in line
  {
    var pos := start;
    while pos < |text| && text[pos] != '\n'
      invariant start <= pos <= |text| && '\n' !in text[start..pos]
    {
      pos := pos + 1;
    }
    line := text[start..pos];
  }
}
