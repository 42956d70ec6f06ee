/** The Python line tokeniser, src/nbs-md-viewer/md_lang_py.c. */
module PyLexer {
  import opened Bytes
  import opened Highlight
  import opened Numbers

  // ---------- the automaton over whole documents ----------

  /** Where a byte-at-a-time reader of the source text is; `left` counts quotes still to read. */
  datatype State =
    | Code
    | LineComment
    | TripleOpen(q: char, left: nat)
    | Triple(q: char)
    | TripleEscape(q: char)
    | TripleClose(q: char, left: nat)
    | Quoted(q: char)
    | QuotedEscape(q: char)

  predicate IsQuote(c: char) { c == '"' || c == '\'' }

  /** One byte; `n1` and `n2` are the two bytes behind it, newlines at the end of the text. */
  function Step(s: State, c: char, n1: char, n2: char): State {
    if c == '\n' then
      match s
      case TripleOpen(q, _) => Triple(q)
      case Triple(q) => Triple(q)
      case TripleEscape(q) => Triple(q)
      case _ => Code
    else
      match s
      case Code =>
        if c == '#' then LineComment
        else if IsQuote(c) then (if n1 == c && n2 == c then TripleOpen(c, 2) else Quoted(c))
        else Code
      case LineComment => LineComment
      case TripleOpen(q, left) => if left > 1 then TripleOpen(q, left - 1) else Triple(q)
      case Triple(q) =>
        if c == '\\' then TripleEscape(q)
        else if c == q && n1 == q && n2 == q then TripleClose(q, 2)
        else Triple(q)
      case TripleEscape(q) => Triple(q)
      case TripleClose(q, left) => if left > 1 then TripleClose(q, left - 1) else Code
      case Quoted(q) => if c == '\\' then QuotedEscape(q) else if c == q then Code else Quoted(q)
      case QuotedEscape(q) => Quoted(q)
  }

  function ByteClass(s: State, c: char): Class {
    match s
    case Code => if c == '#' then CommentByte else if IsQuote(c) then StringByte else CodeByte
    case LineComment => CommentByte
    case _ => StringByte
  }

  /** The state in front of byte `p` of `t`, from state `s`. */
  function StateAt(t: string, s: State, p: nat): State
    requires p <= |t|
  {
    if p == 0 then s else Step(StateAt(t, s, p - 1), t[p - 1], At(t, p), At(t, p + 1))
  }

  function ClassAt(t: string, s: State, p: nat): Class
    requires p < |t|
  {
    ByteClass(StateAt(t, s, p), t[p])
  }

  // ---------- contexts ----------

  /** The carried context together with the remembered delimiter. */
  function Start(ctx: Context, delim: char): State {
    if ctx == InString then Triple(delim) else Code
  }

  function AfterLine(line: string, s: State): State {
    Step(StateAt(line, s, |line|), '\n', '\n', '\n')
  }

  // ---------- what the spans of a line must be ----------

  predicate IsIdentStart(c: char) { IsAlpha(c) || c == '_' }
  predicate IsIdent(c: char) { IsAlnum(c) || c == '_' }
  predicate IsDecorator(c: char) { IsAlnum(c) || c == '_' || c == '.' }
  predicate IsDigitOrUnderscore(c: char) { IsDigit(c) || c == '_' }
  predicate IsBinary(c: char) { c == '0' || c == '1' || c == '_' }
  predicate IsOctal(c: char) { '0' <= c <= '7' }

  predicate IsNumberStart(line: string, i: nat)
    requires i < |line|
  {
    IsDigit(line[i]) || (line[i] == '.' && IsDigit(At(line, i + 1)))
  }

  function BodyEnd(line: string, i: nat): (e: nat)
    requires i < |line|
    ensures i <= e <= |line|
  {
    var c, n := line[i], At(line, i + 1);
    if c == '0' && (n == 'x' || n == 'X') then RunEnd(line, i + 2, IsHexDigit)
    else if c == '0' && (n == 'b' || n == 'B') then RunEnd(line, i + 2, IsBinary)
    else if c == '0' && (n == 'o' || n == 'O') then RunEnd(line, i + 2, IsOctal)
    else DecimalEnd(line, i, IsDigitOrUnderscore)
  }

  /** A literal with an optional complex suffix. */
  function NumberEnd(line: string, i: nat): (e: nat)
    requires i < |line|
    ensures i <= e <= |line|
  {
    var a := BodyEnd(line, i);
    if At(line, a) == 'j' || At(line, a) == 'J' then a + 1 else a
  }

  /** The end and token of the code span that starts at column `i`. */
  function CodeSpanAt(line: string, keywords: seq<string>, types: seq<string>, i: nat): (nat, Token)
    requires i < |line|
  {
    if IsBlank(line[i]) then (RunEnd(line, i, IsBlank), Normal)
    else if IsNumberStart(line, i) then (NumberEnd(line, i), Number)
    else if line[i] == '@' then (RunEnd(line, i + 1, IsDecorator), Preproc)
    else if IsIdentStart(line[i]) then
      (RunEnd(line, i, IsIdent), WordToken(keywords, types, line[i..RunEnd(line, i, IsIdent)]))
    else (i + 1, Operator)
  }

  /** As for JavaScript: class, boundaries, and for code the token of the text. */
  ghost predicate SpanOk(line: string, s: State, keywords: seq<string>, types: seq<string>, sp: Span) {
    var e := sp.start + sp.len;
    && e <= |line|
    && (sp.len == 0 ==> line == "")
    && (sp.start > 0 ==> StateAt(line, s, sp.start) == Code)
    && (e < |line| ==> StateAt(line, s, e) == Code)
    && (forall p | sp.start <= p < e :: ClassAt(line, s, p) == ClassOf(sp.token))
    && (if ClassOf(sp.token) == CodeByte
        then sp.len > 0 && (e, sp.token) == CodeSpanAt(line, keywords, types, sp.start)
        else forall p | sp.start < p < e :: StateAt(line, s, p) != Code)
  }

  ghost predicate Faithful(line: string, s: State, keywords: seq<string>, types: seq<string>, spans: seq<Span>,
    end: nat) {
    Tile(spans, end) && forall k | 0 <= k < |spans| :: SpanOk(line, s, keywords, types, spans[k])
  }

  // ---------- the grammar of numbers ----------

  ghost predicate IsBody(s: string) {
    || IsPrefixed(s, 'x', 'X', IsHexDigit) || IsPrefixed(s, 'b', 'B', IsBinary) || IsPrefixed(s, 'o', 'O', IsOctal)
    || IsDecimal(s, IsDigitOrUnderscore)
  }

  /** A number literal as the tokeniser takes it, with an optional suffix for complex numbers. */
  ghost predicate IsNumber(s: string) {
    IsBody(s) || (s != "" && (s[|s| - 1] == 'j' || s[|s| - 1] == 'J') && IsBody(s[..|s| - 1]))
  }

  predicate IsBaseLetter(c: char) {
    c == 'x' || c == 'X' || c == 'b' || c == 'B' || c == 'o' || c == 'O'
  }

  lemma BodyScanned(line: string, i: nat)
    requires i < |line|
    ensures IsBody(line[i..BodyEnd(line, i)])
  {
    hide RunEnd, DecimalEnd, IsPrefixed, IsDecimal;
    var c, n := line[i], At(line, i + 1);
    if c == '0' && (n == 'x' || n == 'X') {
      PrefixedScanned(line, i, 'x', 'X', IsHexDigit);
    } else if c == '0' && (n == 'b' || n == 'B') {
      PrefixedScanned(line, i, 'b', 'B', IsBinary);
    } else if c == '0' && (n == 'o' || n == 'O') {
      PrefixedScanned(line, i, 'o', 'O', IsOctal);
    } else {
      DecimalScanned(line, i, IsDigitOrUnderscore);
    }
  }

  lemma BodyLongest(line: string, i: nat, e: nat)
    requires i < |line| && i <= e <= |line| && IsBody(line[i..e])
    ensures e <= BodyEnd(line, i)
  {
    hide RunEnd, DecimalEnd, IsPrefixed, IsDecimal;
    if IsPrefixed(line[i..e], 'x', 'X', IsHexDigit) {
      PrefixedLongest(line, i, e, 'x', 'X', IsHexDigit);
    } else if IsPrefixed(line[i..e], 'b', 'B', IsBinary) {
      PrefixedLongest(line, i, e, 'b', 'B', IsBinary);
    } else if IsPrefixed(line[i..e], 'o', 'O', IsOctal) {
      PrefixedLongest(line, i, e, 'o', 'O', IsOctal);
    } else {
      DecimalLongest(line, i, e, IsDigitOrUnderscore);
      if line[i] == '0' && IsBaseLetter(At(line, i + 1)) {
        DecimalStops(line, i, IsDigitOrUnderscore);
      }
    }
  }

  /** What is read of a number is one, and no longer front of the rest of the line is. */
  lemma NumberScanned(line: string, i: nat)
    requires i < |line|
    ensures IsNumber(line[i..NumberEnd(line, i)])
  {
    hide BodyEnd, IsBody;
    var a, e := BodyEnd(line, i), NumberEnd(line, i);
    BodyScanned(line, i);
    if e > a {
      assert line[i..e][..e - 1 - i] == line[i..a] && line[i..e][e - 1 - i] == line[a];
    }
  }

  lemma NumberLongest(line: string, i: nat, e: nat)
    requires i < e <= |line| && IsNumber(line[i..e])
    ensures e <= NumberEnd(line, i)
  {
    hide BodyEnd, IsBody;
    if IsBody(line[i..e]) {
      BodyLongest(line, i, e);
    } else {
      assert line[i..e][..e - 1 - i] == line[i..e - 1] && line[i..e][e - 1 - i] == line[e - 1];
      BodyLongest(line, i, e - 1);
    }
  }

  // ---------- what the tokens of code mean ----------

  /** From `i` to `e` all characters are of the kind, and the run goes no further. */
  predicate IsRun(line: string, i: nat, e: nat, p: char -> bool) {
    i <= e <= |line| && (forall k | i <= k < e :: p(line[k])) && (e < |line| ==> !p(line[e]))
  }

  /**
   * A span of code is a number exactly where one starts, and then as long a number as there is; a word exactly
   * where a letter starts one, whole, and a keyword or a type exactly if it is in that table, keywords first;
   * a decorator at an "@", with the name behind it; white space in one piece; and any other character an
   * operator of its own.
   */
  lemma CodeSpanMeans(line: string, s: State, keywords: seq<string>, types: seq<string>, sp: Span)
    requires SpanOk(line, s, keywords, types, sp) && ClassOf(sp.token) == CodeByte
    ensures sp.len > 0 && sp.start + sp.len <= |line| && (sp.token == Number <==> IsNumberStart(line, sp.start))
    ensures sp.token == Number ==>
              && IsNumber(line[sp.start..sp.start + sp.len])
              && forall e | sp.start + sp.len < e <= |line| :: !IsNumber(line[sp.start..e])
    ensures IsIdentStart(line[sp.start]) ==>
              var word := line[sp.start..sp.start + sp.len];
              && IsRun(line, sp.start, sp.start + sp.len, IsIdent)
              && (sp.token == Keyword <==> word in keywords)
              && (sp.token == TypeName <==> word in types && word !in keywords)
    ensures sp.token == Keyword || sp.token == TypeName ==> IsIdentStart(line[sp.start])
    ensures line[sp.start] == '@' && !IsNumberStart(line, sp.start)
            ==> sp.token == Preproc && IsRun(line, sp.start + 1, sp.start + sp.len, IsDecorator)
    ensures IsBlank(line[sp.start]) ==> sp.token == Normal && IsRun(line, sp.start, sp.start + sp.len, IsBlank)
    ensures !IsBlank(line[sp.start]) && !IsNumberStart(line, sp.start) && !IsIdentStart(line[sp.start])
            && line[sp.start] != '@'
            ==> sp.token == Operator && sp.len == 1
  {
    hide RunEnd, NumberEnd, IsNumber, StateAt;
    var i := sp.start;
    if IsNumberStart(line, i) {
      NumberScanned(line, i);
      forall e | NumberEnd(line, i) < e <= |line| ensures !IsNumber(line[i..e]) {
        if IsNumber(line[i..e]) { NumberLongest(line, i, e); }
      }
    }
  }

  // ---------- the scanning loops ----------

  predicate Plain(c: char) {
    c != '#' && !IsQuote(c) && c != '\n'
  }

  lemma {:induction false} PlainRun(line: string, s: State, i: nat, e: nat)
    requires i <= e <= |line| && StateAt(line, s, i) == Code
    requires forall p | i <= p < e :: Plain(line[p])
    ensures StateAt(line, s, e) == Code
    ensures forall p | i <= p < e :: ClassAt(line, s, p) == CodeByte
  {
    if i < e {
      PlainRun(line, s, i, e - 1);
    }
  }

  /** The bytes from `a` to `b` are inside one string. */
  ghost predicate Inside(line: string, s: State, a: nat, b: nat)
    requires b <= |line|
  {
    forall p | a <= p < b :: ClassAt(line, s, p) == StringByte && StateAt(line, s, p) != Code
  }

  lemma TripleStep(line: string, s: State, j: nat, q: char)
    requires j + 3 <= |line| && '\n' !in line && IsQuote(q) && StateAt(line, s, j) == Triple(q)
    ensures Inside(line, s, j, j + 1)
    ensures line[j] == '\\' ==> StateAt(line, s, j + 2) == Triple(q) && Inside(line, s, j, j + 2)
    ensures line[j] == line[j + 1] == line[j + 2] == q ==> StateAt(line, s, j + 3) == Code && Inside(line, s, j, j + 3)
    ensures line[j] != '\\' && !(line[j] == line[j + 1] == line[j + 2] == q) ==> StateAt(line, s, j + 1) == Triple(q)
  {
    if line[j] == '\\' {
      assert StateAt(line, s, j + 1) == TripleEscape(q);
    } else if line[j] == line[j + 1] == line[j + 2] == q {
      assert StateAt(line, s, j + 1) == TripleClose(q, 2) && StateAt(line, s, j + 2) == TripleClose(q, 1);
    }
  }

  /** The search for the closing triple quote. */
  method FindTripleEnd(line: string, i: nat, q: char, ghost s: State) returns (found: int)
    requires i <= |line| && '\n' !in line && IsQuote(q) && StateAt(line, s, i) == Triple(q)
    ensures found == -1 || i <= found <= |line| - 3
    ensures found != -1 ==> StateAt(line, s, found + 3) == Code && Inside(line, s, i, found + 3)
    ensures found == -1 ==> AfterLine(line, s) == Triple(q) && Inside(line, s, i, |line|)
  {
    hide StateAt, ClassAt;
    var j := i;
    while j + 3 <= |line|
      invariant i <= j <= |line| && StateAt(line, s, j) == Triple(q) && Inside(line, s, i, j)
    {
      TripleStep(line, s, j, q);
      if line[j] == '\\' && j + 1 < |line| {
        j := j + 2;
        continue;
      }
      if line[j] == q && line[j + 1] == q && line[j + 2] == q {
        return j;
      }
      j := j + 1;
    }
    TripleTail(line, s, j, q, |line|);
    return -1;
  }

  predicate InTriple(s: State, q: char) {
    s == Triple(q) || s == TripleEscape(q)
  }

  /** Fewer than three bytes cannot close a triple-quoted string. */
  lemma {:induction false} TripleTail(line: string, s: State, j: nat, q: char, p: nat)
    requires |line| < j + 3 && j <= p <= |line| && '\n' !in line && IsQuote(q) && InTriple(StateAt(line, s, j), q)
    ensures InTriple(StateAt(line, s, p), q) && Inside(line, s, j, p)
  {
    if j < p {
      TripleTail(line, s, j, q, p - 1);
      assert At(line, p + 1) == '\n';
    }
  }

  lemma QuotedStep(line: string, s: State, i: nat, q: char)
    requires i < |line| && '\n' !in line && StateAt(line, s, i) == Quoted(q)
    ensures Inside(line, s, i, i + 1)
    ensures line[i] == '\\' && i + 1 < |line| ==> StateAt(line, s, i + 2) == Quoted(q) && Inside(line, s, i, i + 2)
    ensures line[i] == '\\' && i + 1 == |line| ==> AfterLine(line, s) == Code
    ensures line[i] == q != '\\' ==> StateAt(line, s, i + 1) == Code
    ensures line[i] != q && line[i] != '\\' ==> StateAt(line, s, i + 1) == Quoted(q)
  {
    if line[i] == '\\' {
      assert StateAt(line, s, i + 1) == QuotedEscape(q);
    }
  }

  /** The rest of a single-line string: up to its quote, or to the end of the line. */
  method SkipQuoted(line: string, start: nat, q: char, ghost s: State) returns (i: nat)
    requires start <= |line| && '\n' !in line && IsQuote(q) && StateAt(line, s, start) == Quoted(q)
    ensures start <= i <= |line| && Inside(line, s, start, i)
    ensures StateAt(line, s, i) == Code || (i == |line| && AfterLine(line, s) == Code)
  {
    hide StateAt, ClassAt;
    i := start;
    while i < |line|
      invariant start <= i <= |line| && Inside(line, s, start, i)
      invariant StateAt(line, s, i) == Quoted(q) || (i == |line| && AfterLine(line, s) == Code)
    {
      QuotedStep(line, s, i, q);
      if line[i] == '\\' && i + 1 < |line| {
        i := i + 2;
        continue;
      }
      if line[i] == q {
        i := i + 1;
        return;
      }
      i := i + 1;
    }
  }

  lemma DecimalPlain(line: string, i: nat)
    requires i <= |line| && '\n' !in line
    ensures forall p | i <= p < DecimalEnd(line, i, IsDigitOrUnderscore) :: Plain(line[p])
    ensures i < |line| && IsNumberStart(line, i) ==> i < DecimalEnd(line, i, IsDigitOrUnderscore)
  {
  }

  lemma NumberPlain(line: string, i: nat)
    requires i < |line| && '\n' !in line && IsNumberStart(line, i)
    ensures i < NumberEnd(line, i)
    ensures forall p | i <= p < NumberEnd(line, i) :: Plain(line[p])
  {
    DecimalPlain(line, i);
  }

  method SkipNumber(line: string, start: nat) returns (i: nat)
    requires start < |line|
    ensures i == NumberEnd(line, start)
  {
    var c, n := line[start], At(line, start + 1);
    if c == '0' && (n == 'x' || n == 'X') {
      i := SkipRun(line, start + 2, IsHexDigit);
    } else if c == '0' && (n == 'b' || n == 'B') {
      i := SkipRun(line, start + 2, IsBinary);
    } else if c == '0' && (n == 'o' || n == 'O') {
      i := SkipRun(line, start + 2, IsOctal);
    } else {
      i := SkipDecimal(line, start, IsDigitOrUnderscore);
    }
    if i < |line| && (line[i] == 'j' || line[i] == 'J') { i := i + 1; }
  }

  // ---------- the tokeniser ----------

  lemma Extend(line: string, s: State, keywords: seq<string>, types: seq<string>, spans: seq<Span>, sp: Span)
    requires Faithful(line, s, keywords, types, spans, sp.start)
    requires SpanOk(line, s, keywords, types, sp)
    ensures Faithful(line, s, keywords, types, spans + [sp], sp.start + sp.len)
  {
    TileExtend(spans, sp.start, sp.len, sp.token);
  }

  lemma FaithfulCount(line: string, s: State, keywords: seq<string>, types: seq<string>, spans: seq<Span>, end: nat)
    requires Faithful(line, s, keywords, types, spans, end) && line != ""
    ensures |spans| <= end
  {
    TileCount(spans, end);
  }

  /** The end of the scan: in code before the end of the line, otherwise in step with the context. */
  ghost predicate InStep(line: string, s: State, i: nat, ctx: Context, delim: char)
    requires i <= |line|
  {
    ctx != BlockComment && if i < |line| then StateAt(line, s, i) == Code && ctx == Ground
      else AfterLine(line, s) == Start(ctx, delim)
  }

  lemma OpaqueSpan(line: string, s: State, keywords: seq<string>, types: seq<string>, start: nat, e: nat, ctx: Context,
                   delim: char, token: Token)
    requires start < e <= |line| && StateAt(line, s, start) == Code
    requires InStep(line, s, e, ctx, delim) && (token == Comment || token == Str)
    requires forall p | start <= p < e :: ClassAt(line, s, p) == ClassOf(token)
    requires forall p | start < p < e :: StateAt(line, s, p) != Code
    ensures SpanOk(line, s, keywords, types, Span(start, e - start, token))
  {
  }

  lemma CodeSpan(line: string, s: State, keywords: seq<string>, types: seq<string>, start: nat, e: nat, token: Token)
    requires start < e <= |line| && StateAt(line, s, start) == Code
    requires (e, token) == CodeSpanAt(line, keywords, types, start)
    requires forall p | start <= p < e :: Plain(line[p])
    requires ClassOf(token) == CodeByte
    ensures SpanOk(line, s, keywords, types, Span(start, e - start, token)) && StateAt(line, s, e) == Code
  {
    PlainRun(line, s, start, e);
  }

  lemma {:induction false} LineCommentRun(line: string, s: State, i: nat)
    requires i < |line| && '\n' !in line && StateAt(line, s, i) == Code && line[i] == '#'
    ensures forall p | i < p <= |line| :: StateAt(line, s, p) == LineComment
  {
    var p := i + 1;
    while p < |line|
      invariant i < p <= |line|
      invariant forall m | i < m <= p :: StateAt(line, s, m) == LineComment
    {
      p := p + 1;
    }
  }

  lemma StartInStep(line: string, delim: char)
    ensures InStep(line, Code, 0, Ground, delim)
  {
  }

  /** One turn of the main scan; it also yields the delimiter to remember. */
  method ScanToken(line: string, start: nat, keywords: seq<string>, types: seq<string>, delim: char, ghost s: State)
    returns (i: nat, token: Token, ctx': Context, delim': char)
    requires '\n' !in line && start < |line| && StateAt(line, s, start) == Code && IsQuote(delim)
    requires StrictlySorted(keywords) && StrictlySorted(types)
    ensures start < i <= |line| && InStep(line, s, i, ctx', delim') && IsQuote(delim')
    ensures SpanOk(line, s, keywords, types, Span(start, i - start, token))
  {
    hide SpanOk, InStep, StateAt, AfterLine;
    delim' := delim;
    if IsBlank(line[start]) {
      i := BlankSpan(line, start, keywords, types, delim, s);
      token, ctx' := Normal, Ground;
    } else if line[start] == '#' {
      i := CommentSpan(line, start, keywords, types, delim, s);
      token, ctx' := Comment, Ground;
    } else if IsQuote(line[start]) {
      token := Str;
      if At(line, start + 1) == line[start] && At(line, start + 2) == line[start] {
        i, ctx', delim' := ScanTriple(line, start, keywords, types, delim, s);
      } else {
        i := ScanQuoted(line, start, keywords, types, delim, s);
        ctx' := Ground;
      }
    } else {
      i, token := ScanCode(line, start, keywords, types, delim, s);
      ctx' := Ground;
    }
  }

  method BlankSpan(line: string, start: nat, ghost keywords: seq<string>, ghost types: seq<string>, ghost delim: char,
                   ghost s: State)
    returns (i: nat)
    requires '\n' !in line && start < |line| && StateAt(line, s, start) == Code && IsBlank(line[start])
    ensures start < i <= |line| && InStep(line, s, i, Ground, delim)
    ensures SpanOk(line, s, keywords, types, Span(start, i - start, Normal))
  {
    i := SkipRun(line, start, IsBlank);
    CodeSpan(line, s, keywords, types, start, i, Normal);
  }

  method CommentSpan(line: string, start: nat, ghost keywords: seq<string>, ghost types: seq<string>, ghost delim: char,
                     ghost s: State)
    returns (i: nat)
    requires '\n' !in line && start < |line| && StateAt(line, s, start) == Code && line[start] == '#'
    ensures start < i == |line| && InStep(line, s, i, Ground, delim)
    ensures SpanOk(line, s, keywords, types, Span(start, i - start, Comment))
  {
    i := |line|;
    LineCommentRun(line, s, start);
    OpaqueSpan(line, s, keywords, types, start, i, Ground, delim, Comment);
  }

  method ScanTriple(line: string, start: nat, ghost keywords: seq<string>, ghost types: seq<string>, delim: char,
                    ghost s: State)
    returns (i: nat, ctx': Context, delim': char)
    requires '\n' !in line && start < |line| && StateAt(line, s, start) == Code && IsQuote(line[start])
             && IsQuote(delim)
    requires At(line, start + 1) == line[start] && At(line, start + 2) == line[start]
    ensures start < i <= |line| && InStep(line, s, i, ctx', delim') && IsQuote(delim')
    ensures SpanOk(line, s, keywords, types, Span(start, i - start, Str))
  {
    hide SpanOk;
    var q := line[start];
    assert StateAt(line, s, start + 1) == TripleOpen(q, 2) && StateAt(line, s, start + 2) == TripleOpen(q, 1);
    var found := FindTripleEnd(line, start + 3, q, s);
    if found >= 0 {
      i, ctx', delim' := found + 3, Ground, delim;
    } else {
      i, ctx', delim' := |line|, InString, q;
    }
    OpaqueSpan(line, s, keywords, types, start, i, ctx', delim', Str);
  }

  method ScanQuoted(line: string, start: nat, ghost keywords: seq<string>, ghost types: seq<string>, ghost delim: char,
                    ghost s: State)
    returns (i: nat)
    requires '\n' !in line && start < |line| && StateAt(line, s, start) == Code && IsQuote(line[start])
    requires !(At(line, start + 1) == line[start] && At(line, start + 2) == line[start])
    ensures start < i <= |line| && InStep(line, s, i, Ground, delim)
    ensures SpanOk(line, s, keywords, types, Span(start, i - start, Str))
  {
    hide SpanOk;
    i := SkipQuoted(line, start + 1, line[start], s);
    OpaqueSpan(line, s, keywords, types, start, i, Ground, delim, Str);
  }

  /** Numbers, decorators, words and operators. */
  method ScanCode(line: string, start: nat, keywords: seq<string>, types: seq<string>, ghost delim: char,
                  ghost s: State)
    returns (i: nat, token: Token)
    requires '\n' !in line && start < |line| && StateAt(line, s, start) == Code
    requires !IsBlank(line[start]) && Plain(line[start])
    requires StrictlySorted(keywords) && StrictlySorted(types)
    ensures start < i <= |line| && InStep(line, s, i, Ground, delim)
    ensures SpanOk(line, s, keywords, types, Span(start, i - start, token))
  {
    hide SpanOk;
    token := Normal;
    if IsNumberStart(line, start) {
      token := Number;
      i := SkipNumber(line, start);
      NumberPlain(line, start);
    } else if line[start] == '@' {
      token := Preproc;
      i := SkipRun(line, start + 1, IsDecorator);
    } else if IsIdentStart(line[start]) {
      i := SkipRun(line, start, IsIdent);
      token := LookupWord(keywords, types, line[start..i]);
    } else {
      token, i := Operator, start + 1;
    }
    CodeSpan(line, s, keywords, types, start, i, token);
  }

  /** The triple-quoted string that the line before left open. */
  method ScanContinued(line: string, delim: char, ghost keywords: seq<string>, ghost types: seq<string>)
      returns (e: nat, ctx': Context)
    requires '\n' !in line && IsQuote(delim)
    ensures e <= |line| && InStep(line, Triple(delim), e, ctx', delim)
    ensures SpanOk(line, Triple(delim), keywords, types, Span(0, e, Str))
  {
    var found := FindTripleEnd(line, 0, delim, Triple(delim));
    e, ctx' := if found >= 0 then found + 3 else |line|, if found >= 0 then Ground else InString;
  }

  // ---------- the spans are determined ----------

  lemma SameStartSameSpan(line: string, s: State, keywords: seq<string>, types: seq<string>, a: Span, b: Span)
    requires line != "" && SpanOk(line, s, keywords, types, a) && SpanOk(line, s, keywords, types, b)
    requires a.start == b.start
    ensures a == b
  {
    assert ClassAt(line, s, a.start) == ClassOf(a.token) == ClassOf(b.token);
  }

  /** Of two faithful tilings of a line the shorter one is a front of the other. */
  lemma FaithfulPrefix(line: string, s: State, keywords: seq<string>, types: seq<string>, a: seq<Span>, b: seq<Span>,
                       endA: nat, endB: nat)
    requires line != "" && Faithful(line, s, keywords, types, a, endA) && Faithful(line, s, keywords, types, b, endB)
             && |a| <= |b|
    ensures a == b[..|a|] && endA <= endB
  {
    hide SpanOk, Tile;
    forall i, j | 0 <= i < |a| && 0 <= j < |b| && a[i].start == b[j].start ensures a[i] == b[j] {
      SameStartSameSpan(line, s, keywords, types, a[i], b[j]);
    }
    TilePrefix(a, b, endA, endB);
  }

  /** Only one sequence of spans is right for a line, so Tokenise's contract fixes its result. */
  lemma SpansDetermined(line: string, s: State, keywords: seq<string>, types: seq<string>, a: seq<Span>, b: seq<Span>)
    requires line != "" && Faithful(line, s, keywords, types, a, |line|)
             && Faithful(line, s, keywords, types, b, |line|)
    ensures a == b
  {
    hide Faithful;
    if |a| <= |b| {
      FaithfulPrefix(line, s, keywords, types, a, b, |line|, |line|);
      NothingBehind(line, s, keywords, types, a, b);
    } else {
      FaithfulPrefix(line, s, keywords, types, b, a, |line|, |line|);
      NothingBehind(line, s, keywords, types, b, a);
    }
  }

  /** No span can follow a complete tiling. */
  lemma NothingBehind(line: string, s: State, keywords: seq<string>, types: seq<string>, a: seq<Span>, b: seq<Span>)
    requires line != "" && Faithful(line, s, keywords, types, a, |line|)
             && Faithful(line, s, keywords, types, b, |line|)
    requires |a| <= |b| && a == b[..|a|]
    ensures a == b
  {
    hide Tile;
    if |a| < |b| {
      TileConsecutive(b, |line|, |a|);
      if a == [] {
        TileOfNone(|line|);
      } else {
        TileConsecutive(a, |line|, |a| - 1);
      }
    }
  }

  /** The line needs no more spans than the array has. */
  ghost predicate NeedsAtMost(line: string, s: State, keywords: seq<string>, types: seq<string>, maxSpans: nat) {
    line == "" || exists full :: Faithful(line, s, keywords, types, full, |line|) && |full| <= maxSpans
  }

  /** A tokeniser that stops only when its array is full then gets to the end of the line. */
  lemma ReachesEnd(line: string, s: State, keywords: seq<string>, types: seq<string>, spans: seq<Span>, maxSpans: nat)
    requires line != "" && Faithful(line, s, keywords, types, spans, End(spans)) && |spans| <= maxSpans
    requires |spans| < maxSpans ==> End(spans) == |line|
    ensures NeedsAtMost(line, s, keywords, types, maxSpans) <==> End(spans) == |line|
  {
    hide Faithful;
    if NeedsAtMost(line, s, keywords, types, maxSpans) && |spans| == maxSpans {
      var full :| Faithful(line, s, keywords, types, full, |line|) && |full| <= maxSpans;
      FaithfulPrefix(line, s, keywords, types, full, spans, |line|, End(spans));
      EndsInLine(line, s, keywords, types, spans);
    }
  }

  lemma EndsInLine(line: string, s: State, keywords: seq<string>, types: seq<string>, spans: seq<Span>)
    requires Faithful(line, s, keywords, types, spans, End(spans))
    ensures End(spans) <= |line|
  {
  }

  // ---------- whole documents ----------

  /** Inside a line of the text the automaton cannot tell the line from the text. */
  lemma {:induction false} LineInText(text: string, o: nat, line: string, p: nat)
    requires LineAt(text, o, line) && p <= |line|
    ensures StateAt(text, Code, o + p) == StateAt(line, StateAt(text, Code, o), p)
  {
    if p > 0 {
      LineInText(text, o, line, p - 1);
      assert At(text, o + p) == At(line, p);
      assert p < |line| ==> At(text, o + p + 1) == At(line, p + 1);
    }
  }

  ghost predicate SpanHighlights(text: string, o: nat, sp: Span) {
    forall q | o + sp.start <= q < o + sp.start + sp.len :: q < |text| && ClassAt(text, Code, q) == ClassOf(sp.token)
  }

  /**
   * The spans of one line of the text: they tile the line, every byte has the class that the
   * automaton over the whole text gives it, and the tokens are right.
   */
  ghost predicate Highlights(text: string, keywords: seq<string>, types: seq<string>, l: Line) {
    && LineAt(text, l.start, l.text)
    && Faithful(l.text, StateAt(text, Code, l.start), keywords, types, l.spans, |l.text|)
    && forall k | 0 <= k < |l.spans| :: SpanHighlights(text, l.start, l.spans[k])
  }

  ghost predicate AllHighlight(text: string, keywords: seq<string>, types: seq<string>, lines: seq<Line>) {
    forall k | 0 <= k < |lines| :: Highlights(text, keywords, types, lines[k])
  }

  ghost predicate LineNeedsAtMost(text: string, keywords: seq<string>, types: seq<string>, l: Line, maxSpans: nat) {
    LineAt(text, l.start, l.text) && NeedsAtMost(l.text, StateAt(text, Code, l.start), keywords, types, maxSpans)
  }

  /** Every line of the text needs no more spans than the array has. */
  ghost predicate AllNeedAtMost(text: string, keywords: seq<string>, types: seq<string>, lines: seq<Line>,
    maxSpans: nat) {
    forall k | 0 <= k < |lines| :: LineNeedsAtMost(text, keywords, types, lines[k], maxSpans)
  }

  lemma HighlightsInArray(text: string, keywords: seq<string>, types: seq<string>, lines: seq<Line>, maxSpans: nat)
    requires AllHighlight(text, keywords, types, lines) && AllInArray(lines, maxSpans)
    ensures AllNeedAtMost(text, keywords, types, lines, maxSpans)
  {
    hide Faithful;
    forall k | 0 <= k < |lines|
      ensures LineNeedsAtMost(text, keywords, types, lines[k], maxSpans)
    {
      assert Highlights(text, keywords, types, lines[k]);
    }
  }

  lemma ClassInText(text: string, o: nat, line: string, q: nat)
    requires LineAt(text, o, line) && o <= q < o + |line|
    ensures ClassAt(text, Code, q) == ClassAt(line, StateAt(text, Code, o), q - o)
  {
    hide Step, ByteClass;
    LineInText(text, o, line, q - o);
    assert text[q] == line[q - o];
  }

  lemma ByteInText(text: string, keywords: seq<string>, types: seq<string>, l: Line, sp: Span, q: nat)
    requires LineAt(text, l.start, l.text) && SpanOk(l.text, StateAt(text, Code, l.start), keywords, types, sp)
    requires l.start + sp.start <= q < l.start + sp.start + sp.len
    ensures q < |text| && ClassAt(text, Code, q) == ClassOf(sp.token)
  {
    hide ClassAt, StateAt, LineAt;
    LineFits(text, l.start, l.text);
    var p := q - l.start;
    assert ClassAt(l.text, StateAt(text, Code, l.start), p) == ClassOf(sp.token);
    ClassInText(text, l.start, l.text, q);
  }

  lemma FaithfulHighlights(text: string, keywords: seq<string>, types: seq<string>, l: Line)
    requires LineAt(text, l.start, l.text)
    requires Faithful(l.text, StateAt(text, Code, l.start), keywords, types, l.spans, |l.text|)
    ensures Highlights(text, keywords, types, l)
  {
    forall k | 0 <= k < |l.spans| ensures SpanHighlights(text, l.start, l.spans[k]) {
      forall q | l.start + l.spans[k].start <= q < l.start + l.spans[k].start + l.spans[k].len
        ensures q < |text| && ClassAt(text, Code, q) == ClassOf(l.spans[k].token)
      {
        ByteInText(text, keywords, types, l, l.spans[k], q);
      }
    }
  }

  // ---------- the tokeniser object ----------

  /** The file-scope state of the tokeniser and its tables. */
  class Tokeniser {
    var tripleDelim: char
    const keywords: seq<string>
    const types: seq<string>

    predicate Valid() reads this {
      IsQuote(tripleDelim) && StrictlySorted(keywords) && StrictlySorted(types)
    }

    constructor (keywords: seq<string>, types: seq<string>)
      requires StrictlySorted(keywords) && StrictlySorted(types)
      ensures Valid() && this.keywords == keywords && this.types == types
    {
      this.keywords, this.types, tripleDelim := keywords, types, '"';
    }

    /**
     * py_tokenise. With room for every byte the spans tile the line, and the context and the
     * remembered delimiter together are the automaton's state behind the line.
     */
    method Tokenise(line: string, ctx: Context, maxSpans: nat) returns (spans: seq<Span>, ctx': Context)
      requires Valid() && '\n' !in line && ctx != BlockComment
      modifies this
      ensures Valid() && ctx' != BlockComment && |spans| <= maxSpans
      ensures Faithful(line, Start(ctx, old(tripleDelim)), keywords, types, spans, End(spans))
      ensures |spans| < maxSpans || (maxSpans >= |line| && maxSpans > 0) ==> End(spans) == |line|
      ensures line != "" ==> (End(spans) == |line|
              <==> NeedsAtMost(line, Start(ctx, old(tripleDelim)), keywords, types, maxSpans))
      ensures line != "" && End(spans) == |line|
              ==> Start(ctx', tripleDelim) == AfterLine(line, Start(ctx, old(tripleDelim)))
    {
      hide SpanOk, Step, StateAt, AfterLine, StrictlySorted, Tile;
      EmptyTile();
      ghost var s := Start(ctx, tripleDelim);
      var ok;
      spans, ctx' := [], ctx;
      var i := 0;
      if ctx == InString {
        var e, next := ScanContinued(line, tripleDelim, keywords, types);
        spans, ok := Emit(spans, maxSpans, 0, e, Str);
        if !ok {
          if line != "" { ReachesEnd(line, s, keywords, types, spans, maxSpans); }
          return;
        }
        Extend(line, s, keywords, types, [], Span(0, e, Str));
        i, ctx' := e, next;
      } else {
        StartInStep(line, tripleDelim);
      }
      while i < |line|
        invariant Valid() && 0 <= i <= |line| && |spans| <= maxSpans
        invariant Faithful(line, s, keywords, types, spans, i) && End(spans) == i
        invariant InStep(line, s, i, ctx', tripleDelim)
      {
        if |spans| >= maxSpans {
          FaithfulCount(line, s, keywords, types, spans, i);
          ReachesEnd(line, s, keywords, types, spans, maxSpans);
          return;
        }
        var start, token := i, Normal;
        i, token, ctx', tripleDelim := ScanToken(line, i, keywords, types, tripleDelim, s);
        Extend(line, s, keywords, types, spans, Span(start, i - start, token));
        spans, ok := Emit(spans, maxSpans, start, i - start, token);
      }
      if line != "" {
        ReachesEnd(line, s, keywords, types, spans, maxSpans);
      }
    }

    /** The loop of render_code_fence with this tokeniser; the delimiter left by other fences does not matter. */
    method HighlightFence(text: string, maxSpans: nat) returns (lines: seq<Line>)
      requires Valid() && maxSpans > 0
      modifies this
      ensures Valid() && lines != [] && Join(lines) == text
      ensures AllHighlight(text, keywords, types, lines) <==> AllNeedAtMost(text, keywords, types, lines, maxSpans)
      ensures AllShort(lines, maxSpans) ==> AllHighlight(text, keywords, types, lines)
    {
      hide Highlights, NeedsAtMost, Join, Step, StrictlySorted;
      var pos, ctx := 0, Ground;
      lines := [];
      while pos <= |text|
        invariant Valid() && ctx != BlockComment && 0 <= pos <= |text| + 1
        invariant if lines == [] then pos == 0
                  else pos > 0 && Join(lines) == text[..pos - 1] && At(text, pos - 1) == '\n'
        invariant AllInArray(lines, maxSpans)
        invariant AllNeedAtMost(text, keywords, types, lines, maxSpans) || AllShort(lines, maxSpans) ==>
                    AllHighlight(text, keywords, types, lines)
                      && (pos <= |text| ==> StateAt(text, Code, pos) == Start(ctx, tripleDelim))
      {
        var l, next := HighlightLine(text, pos, ctx, maxSpans);
        ghost var before := lines;
        lines := lines + [l];
        pos, ctx := pos + |l.text| + 1, next;
        assert lines[..|before|] == before && lines[|before|] == l;
        JoinLine(text, before, l);
        assert AllShort(lines, maxSpans) <==> AllShort(before, maxSpans) && |l.text| <= maxSpans;
        assert AllNeedAtMost(text, keywords, types, lines, maxSpans) <==>
                 AllNeedAtMost(text, keywords, types, before, maxSpans)
                 && LineNeedsAtMost(text, keywords, types, l, maxSpans);
      }
      if AllHighlight(text, keywords, types, lines) {
        HighlightsInArray(text, keywords, types, lines, maxSpans);
      }
    }

    method HighlightLine(text: string, start: nat, ctx: Context, maxSpans: nat) returns (l: Line, next: Context)
      requires Valid() && start <= |text| && maxSpans > 0 && ctx != BlockComment
      modifies this
      ensures Valid() && next != BlockComment && l.start == start && LineAt(text, start, l.text)
      ensures |l.spans| <= maxSpans
      ensures (LineNeedsAtMost(text, keywords, types, l, maxSpans) || |l.text| <= maxSpans)
              && StateAt(text, Code, start) == Start(ctx, old(tripleDelim)) ==>
                Highlights(text, keywords, types, l)
                && (start + |l.text| < |text| ==> StateAt(text, Code, start + |l.text| + 1) == Start(next, tripleDelim))
    {
      hide SpanOk, Highlights, StrictlySorted, NeedsAtMost;
      var line := CutLine(text, start);
      var spans := [];
      next := ctx;
      if line != "" {
        spans, next := Tokenise(line, ctx, maxSpans);
      }
      l := Line(start, line, spans);
      if StateAt(text, Code, start) == Start(ctx, old(tripleDelim)) && (line == "" || End(spans) == |line|) {
        FaithfulHighlights(text, keywords, types, l);
        LineInText(text, start, line, |line|);
      }
    }
  }
}
