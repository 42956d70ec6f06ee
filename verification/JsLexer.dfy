/** The JavaScript/TypeScript line tokeniser, src/nbs-md-viewer/md_lang_js.c. */
module JsLexer {
  import opened Bytes
  import opened Highlight
  import opened Numbers

  // ---------- the automaton over whole documents ----------

  /** Where a byte-at-a-time reader of the source text is. */
  datatype State =
    | Code
    | LineComment
    | BlockOpen            // behind "/", in front of "*"
    | Block
    | BlockClose           // behind "*", in front of "/"
    | Template
    | TemplateEscape
    | Quoted(q: char)
    | QuotedEscape(q: char)

  /** One byte; `next` is the byte behind it, a newline at the end of the text. */
  function Step(s: State, c: char, next: char): State {
    if c == '\n' then
      match s
      case Block | BlockOpen => Block
      case Template | TemplateEscape => Template
      case _ => Code
    else
      match s
      case Code =>
        if c == '/' && next == '/' then LineComment
        else if c == '/' && next == '*' then BlockOpen
        else if c == '`' then Template
        else if c == '"' || c == '\'' then Quoted(c)
        else Code
      case LineComment => LineComment
      case BlockOpen => Block
      case Block => if c == '*' && next == '/' then BlockClose else Block
      case BlockClose => Code
      case Template => if c == '\\' then TemplateEscape else if c == '`' then Code else Template
      case TemplateEscape => Template
      case Quoted(q) => if c == '\\' then QuotedEscape(q) else if c == q then Code else Quoted(q)
      case QuotedEscape(q) => Quoted(q)
  }

  /** The class of the byte `c` read in state `s`. */
  function ByteClass(s: State, c: char, next: char): Class {
    match s
    case Code =>
      if c == '/' && (next == '/' || next == '*') then CommentByte
      else if c == '`' || c == '"' || c == '\'' then StringByte
      else CodeByte
    case LineComment | BlockOpen | Block | BlockClose => CommentByte
    case _ => StringByte
  }

  /** The state in front of byte `p` of `t`, from state `s`. */
  function StateAt(t: string, s: State, p: nat): State
    requires p <= |t|
  {
    if p == 0 then s else Step(StateAt(t, s, p - 1), t[p - 1], At(t, p))
  }

  function ClassAt(t: string, s: State, p: nat): Class
    requires p < |t|
  {
    ByteClass(StateAt(t, s, p), t[p], At(t, p + 1))
  }

  // ---------- contexts ----------

  function Start(ctx: Context): State {
    match ctx
    case Ground => Code
    case BlockComment => Block
    case InString => Template
  }

  /** The state behind the newline that ends `line`. */
  function AfterLine(line: string, s: State): State {
    Step(StateAt(line, s, |line|), '\n', '\n')
  }

  // ---------- what the spans of a line must be ----------

  predicate IsIdentStart(c: char) { IsAlpha(c) || c == '_' || c == '$' }
  predicate IsIdent(c: char) { IsAlnum(c) || c == '_' || c == '$' }

  predicate IsNumberStart(line: string, i: nat)
    requires i < |line|
  {
    IsDigit(line[i]) || (line[i] == '.' && IsDigit(At(line, i + 1)))
  }

  function BodyEnd(line: string, i: nat): (e: nat)
    requires i < |line|
    ensures i <= e <= |line|
  {
    if line[i] == '0' && (At(line, i + 1) == 'x' || At(line, i + 1) == 'X') then RunEnd(line, i + 2, IsHexDigit)
    else DecimalEnd(line, i, IsDigit)
  }

  /** A hexadecimal or decimal literal with an optional BigInt suffix. */
  function NumberEnd(line: string, i: nat): (e: nat)
    requires i < |line|
    ensures i <= e <= |line|
  {
    var a := BodyEnd(line, i);
    if At(line, a) == 'n' then a + 1 else a
  }

  /** The end and token of the code span that starts at column `i`. */
  function CodeSpanAt(line: string, keywords: seq<string>, types: seq<string>, i: nat): (nat, Token)
    requires i < |line|
  {
    if IsBlank(line[i]) then (RunEnd(line, i, IsBlank), Normal)
    else if IsNumberStart(line, i) then (NumberEnd(line, i), Number)
    else if IsIdentStart(line[i]) then
      (RunEnd(line, i, IsIdent), WordToken(keywords, types, line[i..RunEnd(line, i, IsIdent)]))
    else (i + 1, Operator)
  }

  /**
   * A span is right when its bytes have its class in the automaton, it starts in code (or
   * continues from the line before), it runs to the end of its comment, string or code token,
   * and a code span carries the token of its text.
   */
  ghost predicate SpanOk(line: string, s: State, keywords: seq<string>, types: seq<string>, sp: Span) {
    var e := sp.start + sp.len;
    && e <= |line|
    && (sp.len == 0 ==> line == "")
    && (sp.start > 0 ==> StateAt(line, s, sp.start) == Code)
    && (e < |line| ==> StateAt(line, s, e) == Code)
    && (forall p | sp.start <= p < e :: ClassAt(line, s, p) == ClassOf(sp.token))
    && (if ClassOf(sp.token) == CodeByte
        then sp.len > 0 && (e, sp.token) == CodeSpanAt(line, keywords, types, sp.start)
        else forall p | sp.start < p < e :: StateAt(line, s, p) != Code)
  }

  ghost predicate Faithful(line: string, s: State, keywords: seq<string>, types: seq<string>, spans: seq<Span>,
    end: nat) {
    Tile(spans, end) && forall k | 0 <= k < |spans| :: SpanOk(line, s, keywords, types, spans[k])
  }

  // ---------- the grammar of numbers ----------

  ghost predicate IsBody(s: string) {
    IsPrefixed(s, 'x', 'X', IsHexDigit) || IsDecimal(s, IsDigit)
  }

  /** A number literal as the tokeniser takes it, with an optional BigInt suffix. */
  ghost predicate IsNumber(s: string) {
    IsBody(s) || (s != "" && s[|s| - 1] == 'n' && IsBody(s[..|s| - 1]))
  }

  lemma BodyScanned(line: string, i: nat)
    requires i < |line|
    ensures IsBody(line[i..BodyEnd(line, i)])
  {
    hide RunEnd, DecimalEnd, IsPrefixed, IsDecimal;
    if line[i] == '0' && (At(line, i + 1) == 'x' || At(line, i + 1) == 'X') {
      PrefixedScanned(line, i, 'x', 'X', IsHexDigit);
    } else {
      DecimalScanned(line, i, IsDigit);
    }
  }

  lemma BodyLongest(line: string, i: nat, e: nat)
    requires i < |line| && i <= e <= |line| && IsBody(line[i..e])
    ensures e <= BodyEnd(line, i)
  {
    hide RunEnd, DecimalEnd, IsPrefixed, IsDecimal;
    if IsPrefixed(line[i..e], 'x', 'X', IsHexDigit) {
      PrefixedLongest(line, i, e, 'x', 'X', IsHexDigit);
    } else {
      DecimalLongest(line, i, e, IsDigit);
      if line[i] == '0' && (At(line, i + 1) == 'x' || At(line, i + 1) == 'X') {
        DecimalStops(line, i, IsDigit);
      }
    }
  }

  /** What is read of a number is one, and no longer front of the rest of the line is. */
  lemma NumberScanned(line: string, i: nat)
    requires i < |line|
    ensures IsNumber(line[i..NumberEnd(line, i)])
  {
    hide BodyEnd, IsBody;
    var a, e := BodyEnd(line, i), NumberEnd(line, i);
    BodyScanned(line, i);
    if e > a {
      assert line[i..e][..e - 1 - i] == line[i..a] && line[i..e][e - 1 - i] == line[a];
    }
  }

  lemma NumberLongest(line: string, i: nat, e: nat)
    requires i < e <= |line| && IsNumber(line[i..e])
    ensures e <= NumberEnd(line, i)
  {
    hide BodyEnd, IsBody;
    if IsBody(line[i..e]) {
      BodyLongest(line, i, e);
    } else {
      assert line[i..e][..e - 1 - i] == line[i..e - 1] && line[i..e][e - 1 - i] == line[e - 1];
      BodyLongest(line, i, e - 1);
    }
  }

  // ---------- what the tokens of code mean ----------

  /** From `i` to `e` all characters are of the kind, and the run goes no further. */
  predicate IsRun(line: string, i: nat, e: nat, p: char -> bool) {
    i <= e <= |line| && (forall k | i <= k < e :: p(line[k])) && (e < |line| ==> !p(line[e]))
  }

  /**
   * A span of code is a number exactly where one starts, and then as long a number as there is; a word exactly
   * where a letter starts one, whole, and a keyword or a type exactly if it is in that table, keywords first;
   * white space in one piece; and any other character an operator of its own.
   */
  lemma CodeSpanMeans(line: string, s: State, keywords: seq<string>, types: seq<string>, sp: Span)
    requires SpanOk(line, s, keywords, types, sp) && ClassOf(sp.token) == CodeByte
    ensures sp.len > 0 && sp.start + sp.len <= |line| && (sp.token == Number <==> IsNumberStart(line, sp.start))
    ensures sp.token == Number ==>
              && IsNumber(line[sp.start..sp.start + sp.len])
              && forall e | sp.start + sp.len < e <= |line| :: !IsNumber(line[sp.start..e])
    ensures IsIdentStart(line[sp.start]) ==>
              var word := line[sp.start..sp.start + sp.len];
              && IsRun(line, sp.start, sp.start + sp.len, IsIdent)
              && (sp.token == Keyword <==> word in keywords)
              && (sp.token == TypeName <==> word in types && word !in keywords)
    ensures sp.token == Keyword || sp.token == TypeName ==> IsIdentStart(line[sp.start])
    ensures IsBlank(line[sp.start]) ==> sp.token == Normal && IsRun(line, sp.start, sp.start + sp.len, IsBlank)
    ensures !IsBlank(line[sp.start]) && !IsNumberStart(line, sp.start) && !IsIdentStart(line[sp.start])
            ==> sp.token == Operator && sp.len == 1
  {
    hide RunEnd, NumberEnd, IsNumber, StateAt;
    var i := sp.start;
    if IsNumberStart(line, i) {
      NumberScanned(line, i);
      forall e | NumberEnd(line, i) < e <= |line| ensures !IsNumber(line[i..e]) {
        if IsNumber(line[i..e]) { NumberLongest(line, i, e); }
      }
    }
  }

  // ---------- the scanning loops ----------

  /** Bytes that open nothing keep the automaton in code. */
  predicate Plain(c: char) {
    c != '/' && c != '`' && c != '"' && c != '\'' && c != '\n'
  }

  lemma {:induction false} PlainRun(line: string, s: State, i: nat, e: nat)
    requires i <= e <= |line| && StateAt(line, s, i) == Code
    requires forall p | i <= p < e :: Plain(line[p])
    ensures StateAt(line, s, e) == Code
    ensures forall p | i <= p < e :: ClassAt(line, s, p) == CodeByte
  {
    if i < e {
      PlainRun(line, s, i, e - 1);
    }
  }

  /** The search for the end of a block comment, from the first byte behind its opening. */
  method FindBlockEnd(line: string, i: nat, ghost s: State) returns (found: int)
    requires i <= |line| && '\n' !in line && StateAt(line, s, i) == Block
    ensures found == -1 || i <= found <= |line| - 2
    ensures var e := if found == -1 then |line| else found + 2;
            && StateAt(line, s, e) == (if found == -1 then Block else Code)
            && (forall p | i <= p < e :: ClassAt(line, s, p) == CommentByte && StateAt(line, s, p) != Code)
  {
    var j := i;
    while j + 2 <= |line|
      invariant i <= j <= |line| && StateAt(line, s, j) == Block
      invariant forall p | i <= p < j :: ClassAt(line, s, p) == CommentByte && StateAt(line, s, p) != Code
    {
      if line[j] == '*' && line[j + 1] == '/' {
        assert StateAt(line, s, j + 1) == BlockClose;
        return j;
      }
      j := j + 1;
    }
    assert j < |line| ==> StateAt(line, s, j + 1) == Block;
    return -1;
  }

  /** The search for the closing backtick. */
  method FindTemplateEnd(line: string, i: nat, ghost s: State) returns (found: int)
    requires i <= |line| && '\n' !in line && StateAt(line, s, i) == Template
    ensures found == -1 || i <= found < |line|
    ensures var e := if found == -1 then |line| else found + 1;
            && (found != -1 ==> StateAt(line, s, e) == Code)
            && (found == -1 ==> AfterLine(line, s) == Template)
            && (forall p | i <= p < e :: ClassAt(line, s, p) == StringByte && StateAt(line, s, p) != Code)
  {
    var j := i;
    while j < |line|
      invariant i <= j <= |line|
      invariant StateAt(line, s, j) == Template || (j == |line| && StateAt(line, s, j) == TemplateEscape)
      invariant forall p | i <= p < j :: ClassAt(line, s, p) == StringByte && StateAt(line, s, p) != Code
    {
      if line[j] == '\\' && j + 1 < |line| {
        assert StateAt(line, s, j + 1) == TemplateEscape;
        j := j + 2;
        continue;
      }
      if line[j] == '`' {
        return j;
      }
      j := j + 1;
    }
    return -1;
  }

  /** The rest of a single-line string: up to its quote, or to the end of the line. */
  method SkipQuoted(line: string, start: nat, q: char, ghost s: State) returns (i: nat)
    requires start <= |line| && '\n' !in line && StateAt(line, s, start) == Quoted(q)
    ensures start <= i <= |line|
    ensures StateAt(line, s, i) == Code || (i == |line| && AfterLine(line, s) == Code)
    ensures forall p | start <= p < i :: ClassAt(line, s, p) == StringByte && StateAt(line, s, p) != Code
  {
    i := start;
    while i < |line|
      invariant start <= i <= |line|
      invariant StateAt(line, s, i) == Quoted(q) || (i == |line| && StateAt(line, s, i) == QuotedEscape(q))
      invariant forall p | start <= p < i :: ClassAt(line, s, p) == StringByte && StateAt(line, s, p) != Code
    {
      if line[i] == '\\' && i + 1 < |line| {
        assert StateAt(line, s, i + 1) == QuotedEscape(q);
        i := i + 2;
        continue;
      }
      if line[i] == q {
        i := i + 1;
        return;
      }
      i := i + 1;
    }
  }

  lemma DecimalPlain(line: string, i: nat)
    requires i <= |line| && '\n' !in line
    ensures forall p | i <= p < DecimalEnd(line, i, IsDigit) :: Plain(line[p])
    ensures i < |line| && IsNumberStart(line, i) ==> i < DecimalEnd(line, i, IsDigit)
  {
  }

  lemma NumberPlain(line: string, i: nat)
    requires i < |line| && '\n' !in line && IsNumberStart(line, i)
    ensures i < NumberEnd(line, i)
    ensures forall p | i <= p < NumberEnd(line, i) :: Plain(line[p])
  {
    DecimalPlain(line, i);
  }

  method SkipNumber(line: string, start: nat) returns (i: nat)
    requires start < |line|
    ensures i == NumberEnd(line, start)
  {
    if line[start] == '0' && start + 1 < |line| && (line[start + 1] == 'x' || line[start + 1] == 'X') {
      i := SkipRun(line, start + 2, IsHexDigit);
    } else {
      i := SkipDecimal(line, start, IsDigit);
    }
    if i < |line| && line[i] == 'n' { i := i + 1; }
  }

  // ---------- the tokeniser ----------

  lemma Extend(line: string, s: State, keywords: seq<string>, types: seq<string>, spans: seq<Span>, sp: Span)
    requires Faithful(line, s, keywords, types, spans, sp.start)
    requires SpanOk(line, s, keywords, types, sp)
    ensures Faithful(line, s, keywords, types, spans + [sp], sp.start + sp.len)
  {
    TileExtend(spans, sp.start, sp.len, sp.token);
  }

  lemma FaithfulCount(line: string, s: State, keywords: seq<string>, types: seq<string>, spans: seq<Span>, end: nat)
    requires Faithful(line, s, keywords, types, spans, end) && line != ""
    ensures |spans| <= end
  {
    TileCount(spans, end);
  }

  /** A comment or string from code at `start` to its end at `e`. */
  lemma OpaqueSpan(line: string, s: State, keywords: seq<string>, types: seq<string>, start: nat, e: nat, ctx: Context,
                   token: Token)
    requires start < e <= |line| && StateAt(line, s, start) == Code
    requires InStep(line, s, e, ctx) && (token == Comment || token == Str)
    requires forall p | start <= p < e :: ClassAt(line, s, p) == ClassOf(token)
    requires forall p | start < p < e :: StateAt(line, s, p) != Code
    ensures SpanOk(line, s, keywords, types, Span(start, e - start, token))
  {
  }

  lemma CodeSpan(line: string, s: State, keywords: seq<string>, types: seq<string>, start: nat, e: nat, token: Token)
    requires start < e <= |line| && StateAt(line, s, start) == Code
    requires (e, token) == CodeSpanAt(line, keywords, types, start)
    requires forall p | start <= p < e ::
               Plain(line[p]) || (e == start + 1 && ClassAt(line, s, p) == CodeByte && StateAt(line, s, e) == Code)
    requires ClassOf(token) == CodeByte
    ensures SpanOk(line, s, keywords, types, Span(start, e - start, token)) && StateAt(line, s, e) == Code
  {
    if Plain(line[start]) {
      PlainRun(line, s, start, e);
    }
  }

  /** The end of the scan: in code before the end of the line, otherwise in step with the context. */
  ghost predicate InStep(line: string, s: State, i: nat, ctx: Context)
    requires i <= |line|
  {
    if i < |line| then StateAt(line, s, i) == Code && ctx == Ground else AfterLine(line, s) == Start(ctx)
  }

  lemma StartInStep(line: string)
    ensures InStep(line, Code, 0, Ground)
  {
  }

  /** The comment or template literal that the line before left open. */
  method ScanContinued(line: string, ctx: Context, ghost keywords: seq<string>, ghost types: seq<string>)
    returns (e: nat, token: Token, ctx': Context)
    requires '\n' !in line && ctx != Ground
    ensures e <= |line| && InStep(line, Start(ctx), e, ctx')
    ensures SpanOk(line, Start(ctx), keywords, types, Span(0, e, token))
  {
    ghost var s := Start(ctx);
    if ctx == BlockComment {
      token := Comment;
      var found := FindBlockEnd(line, 0, s);
      e, ctx' := if found >= 0 then found + 2 else |line|, if found >= 0 then Ground else ctx;
    } else {
      token := Str;
      var found := FindTemplateEnd(line, 0, s);
      e, ctx' := if found >= 0 then found + 1 else |line|, if found >= 0 then Ground else ctx;
    }
  }

  /** One turn of the main scan. */
  method ScanToken(line: string, start: nat, keywords: seq<string>, types: seq<string>, ghost s: State)
    returns (i: nat, token: Token, ctx': Context)
    requires '\n' !in line && start < |line| && StateAt(line, s, start) == Code
    requires StrictlySorted(keywords) && StrictlySorted(types)
    ensures start < i <= |line| && InStep(line, s, i, ctx')
    ensures SpanOk(line, s, keywords, types, Span(start, i - start, token))
  {
    hide SpanOk, InStep, StateAt;
    if IsBlank(line[start]) {
      i := BlankSpan(line, start, keywords, types, s);
      token, ctx' := Normal, Ground;
    } else if line[start] == '/' && (At(line, start + 1) == '/' || At(line, start + 1) == '*') {
      i, ctx' := ScanComment(line, start, keywords, types, s);
      token := Comment;
    } else if line[start] == '`' {
      i, ctx' := ScanTemplate(line, start, keywords, types, s);
      token := Str;
    } else if line[start] == '"' || line[start] == '\'' {
      i := ScanQuoted(line, start, keywords, types, s);
      token, ctx' := Str, Ground;
    } else {
      i, token := ScanCode(line, start, keywords, types, s);
      ctx' := Ground;
    }
  }

  method ScanComment(line: string, start: nat, ghost keywords: seq<string>, ghost types: seq<string>, ghost s: State)
    returns (i: nat, ctx': Context)
    requires '\n' !in line && start < |line| && StateAt(line, s, start) == Code
    requires line[start] == '/' && (At(line, start + 1) == '/' || At(line, start + 1) == '*')
    ensures start < i <= |line| && InStep(line, s, i, ctx')
    ensures SpanOk(line, s, keywords, types, Span(start, i - start, Comment))
  {
    hide SpanOk;
    ctx' := Ground;
    if line[start + 1] == '/' {
      i := |line|;
      LineCommentRun(line, s, start);
    } else {
      assert StateAt(line, s, start + 1) == BlockOpen && StateAt(line, s, start + 2) == Block;
      var found := FindBlockEnd(line, start + 2, s);
      i := if found >= 0 then found + 2 else |line|;
      if found < 0 { ctx' := BlockComment; }
    }
    OpaqueSpan(line, s, keywords, types, start, i, ctx', Comment);
  }

  method ScanTemplate(line: string, start: nat, ghost keywords: seq<string>, ghost types: seq<string>, ghost s: State)
    returns (i: nat, ctx': Context)
    requires '\n' !in line && start < |line| && StateAt(line, s, start) == Code && line[start] == '`'
    ensures start < i <= |line| && InStep(line, s, i, ctx')
    ensures SpanOk(line, s, keywords, types, Span(start, i - start, Str))
  {
    hide SpanOk;
    var found := FindTemplateEnd(line, start + 1, s);
    i := if found >= 0 then found + 1 else |line|;
    ctx' := if found >= 0 then Ground else InString;
    OpaqueSpan(line, s, keywords, types, start, i, ctx', Str);
  }

  method ScanQuoted(line: string, start: nat, ghost keywords: seq<string>, ghost types: seq<string>, ghost s: State)
    returns (i: nat)
    requires '\n' !in line && start < |line| && StateAt(line, s, start) == Code
    requires line[start] == '"' || line[start] == '\''
    ensures start < i <= |line| && InStep(line, s, i, Ground)
    ensures SpanOk(line, s, keywords, types, Span(start, i - start, Str))
  {
    hide SpanOk;
    i := SkipQuoted(line, start + 1, line[start], s);
    OpaqueSpan(line, s, keywords, types, start, i, Ground, Str);
  }

  method BlankSpan(line: string, start: nat, ghost keywords: seq<string>, ghost types: seq<string>, ghost s: State)
    returns (i: nat)
    requires '\n' !in line && start < |line| && StateAt(line, s, start) == Code && IsBlank(line[start])
    ensures start < i <= |line| && InStep(line, s, i, Ground)
    ensures SpanOk(line, s, keywords, types, Span(start, i - start, Normal))
  {
    i := SkipRun(line, start, IsBlank);
    CodeSpan(line, s, keywords, types, start, i, Normal);
  }

  /** Numbers, words and operators. */
  method ScanCode(line: string, start: nat, keywords: seq<string>, types: seq<string>, ghost s: State)
    returns (i: nat, token: Token)
    requires '\n' !in line && start < |line| && StateAt(line, s, start) == Code
    requires !IsBlank(line[start]) && ByteClass(Code, line[start], At(line, start + 1)) == CodeByte
    requires StrictlySorted(keywords) && StrictlySorted(types)
    ensures start < i <= |line| && InStep(line, s, i, Ground)
    ensures SpanOk(line, s, keywords, types, Span(start, i - start, token))
  {
    token := Normal;
    if IsNumberStart(line, start) {
      token := Number;
      i := SkipNumber(line, start);
      NumberPlain(line, start);
    } else if IsIdentStart(line[start]) {
      i := SkipRun(line, start, IsIdent);
      token := LookupWord(keywords, types, line[start..i]);
    } else {
      token, i := Operator, start + 1;
    }
    CodeSpan(line, s, keywords, types, start, i, token);
  }

  // ---------- the spans are determined ----------

  lemma SameStartSameSpan(line: string, s: State, keywords: seq<string>, types: seq<string>, a: Span, b: Span)
    requires line != "" && SpanOk(line, s, keywords, types, a) && SpanOk(line, s, keywords, types, b)
    requires a.start == b.start
    ensures a == b
  {
    assert ClassAt(line, s, a.start) == ClassOf(a.token) == ClassOf(b.token);
  }

  /** Of two faithful tilings of a line the shorter one is a front of the other. */
  lemma FaithfulPrefix(line: string, s: State, keywords: seq<string>, types: seq<string>, a: seq<Span>, b: seq<Span>,
                       endA: nat, endB: nat)
    requires line != "" && Faithful(line, s, keywords, types, a, endA) && Faithful(line, s, keywords, types, b, endB)
             && |a| <= |b|
    ensures a == b[..|a|] && endA <= endB
  {
    hide SpanOk, Tile;
    forall i, j | 0 <= i < |a| && 0 <= j < |b| && a[i].start == b[j].start ensures a[i] == b[j] {
      SameStartSameSpan(line, s, keywords, types, a[i], b[j]);
    }
    TilePrefix(a, b, endA, endB);
  }

  /** Only one sequence of spans is right for a line, so Tokenise's contract fixes its result. */
  lemma SpansDetermined(line: string, s: State, keywords: seq<string>, types: seq<string>, a: seq<Span>, b: seq<Span>)
    requires line != "" && Faithful(line, s, keywords, types, a, |line|)
             && Faithful(line, s, keywords, types, b, |line|)
    ensures a == b
  {
    hide Faithful;
    if |a| <= |b| {
      FaithfulPrefix(line, s, keywords, types, a, b, |line|, |line|);
      NothingBehind(line, s, keywords, types, a, b);
    } else {
      FaithfulPrefix(line, s, keywords, types, b, a, |line|, |line|);
      NothingBehind(line, s, keywords, types, b, a);
    }
  }

  /** No span can follow a complete tiling. */
  lemma NothingBehind(line: string, s: State, keywords: seq<string>, types: seq<string>, a: seq<Span>, b: seq<Span>)
    requires line != "" && Faithful(line, s, keywords, types, a, |line|)
             && Faithful(line, s, keywords, types, b, |line|)
    requires |a| <= |b| && a == b[..|a|]
    ensures a == b
  {
    hide Tile;
    if |a| < |b| {
      TileConsecutive(b, |line|, |a|);
      if a == [] {
        TileOfNone(|line|);
      } else {
        TileConsecutive(a, |line|, |a| - 1);
      }
    }
  }

  /** The line needs no more spans than the array has. */
  ghost predicate NeedsAtMost(line: string, s: State, keywords: seq<string>, types: seq<string>, maxSpans: nat) {
    line == "" || exists full :: Faithful(line, s, keywords, types, full, |line|) && |full| <= maxSpans
  }

  /** A tokeniser that stops only when its array is full then gets to the end of the line. */
  lemma ReachesEnd(line: string, s: State, keywords: seq<string>, types: seq<string>, spans: seq<Span>, maxSpans: nat)
    requires line != "" && Faithful(line, s, keywords, types, spans, End(spans)) && |spans| <= maxSpans
    requires |spans| < maxSpans ==> End(spans) == |line|
    ensures NeedsAtMost(line, s, keywords, types, maxSpans) <==> End(spans) == |line|
  {
    hide Faithful;
    if NeedsAtMost(line, s, keywords, types, maxSpans) && |spans| == maxSpans {
      var full :| Faithful(line, s, keywords, types, full, |line|) && |full| <= maxSpans;
      FaithfulPrefix(line, s, keywords, types, full, spans, |line|, End(spans));
      EndsInLine(line, s, keywords, types, spans);
    }
  }

  lemma EndsInLine(line: string, s: State, keywords: seq<string>, types: seq<string>, spans: seq<Span>)
    requires Faithful(line, s, keywords, types, spans, End(spans))
    ensures End(spans) <= |line|
  {
  }

  // ---------- the whole line ----------

  /** The main loop, from the end `from` of the spans so far. */
  method TokeniseRest(line: string, done: seq<Span>, from: nat, ctx: Context, maxSpans: nat,
                      keywords: seq<string>, types: seq<string>, ghost s: State)
    returns (spans: seq<Span>, ctx': Context)
    requires '\n' !in line && from <= |line| && |done| <= maxSpans
    requires StrictlySorted(keywords) && StrictlySorted(types)
    requires Faithful(line, s, keywords, types, done, from) && End(done) == from && InStep(line, s, from, ctx)
    ensures |spans| <= maxSpans && Faithful(line, s, keywords, types, spans, End(spans))
    ensures |spans| < maxSpans || maxSpans >= |line| ==> End(spans) == |line|
    ensures End(spans) == |line| ==> InStep(line, s, |line|, ctx')
  {
    hide SpanOk, Step, StateAt, AfterLine, Faithful, StrictlySorted, InStep;
    var ok;
    spans, ctx' := done, ctx;
    var i := from;
    while i < |line|
      invariant from <= i <= |line| && |spans| <= maxSpans
      invariant Faithful(line, s, keywords, types, spans, i) && End(spans) == i
      invariant InStep(line, s, i, ctx')
    {
      if |spans| >= maxSpans {
        FaithfulCount(line, s, keywords, types, spans, i);
        return;
      }
      InCode(line, s, i, ctx');
      var start, token := i, Normal;
      i, token, ctx' := ScanToken(line, i, keywords, types, s);
      Extend(line, s, keywords, types, spans, Span(start, i - start, token));
      spans, ok := Emit(spans, maxSpans, start, i - start, token);
    }
  }

  lemma InStepAtEnd(line: string, s: State, ctx: Context)
    requires InStep(line, s, |line|, ctx)
    ensures AfterLine(line, s) == Start(ctx)
  {
  }

  lemma NoSpans(line: string, s: State, keywords: seq<string>, types: seq<string>)
    ensures Faithful(line, s, keywords, types, [], 0) && End([]) == 0
  {
  }

  lemma OneSpan(e: nat, token: Token)
    ensures [] + [Span(0, e, token)] == [Span(0, e, token)] && End([Span(0, e, token)]) == e
  {
  }

  lemma InCode(line: string, s: State, i: nat, ctx: Context)
    requires i < |line| && InStep(line, s, i, ctx)
    ensures StateAt(line, s, i) == Code
  {
  }

  /**
   * js_family_tokenise. With room for every byte the spans tile the line and the carried
   * context is the automaton's; with a shorter array they still tile a prefix faithfully.
   */
  method Tokenise(line: string, ctx: Context, maxSpans: nat, keywords: seq<string>, types: seq<string>)
    returns (spans: seq<Span>, ctx': Context)
    requires '\n' !in line
    requires StrictlySorted(keywords) && StrictlySorted(types)
    ensures |spans| <= maxSpans
    ensures Faithful(line, Start(ctx), keywords, types, spans, End(spans))
    ensures |spans| < maxSpans || (maxSpans >= |line| && maxSpans > 0) ==> End(spans) == |line|
    ensures line != "" ==> (End(spans) == |line| <==> NeedsAtMost(line, Start(ctx), keywords, types, maxSpans))
    ensures line != "" && End(spans) == |line| ==> Start(ctx') == AfterLine(line, Start(ctx))
  {
    hide SpanOk, Step, StateAt, AfterLine, StrictlySorted, NeedsAtMost, InStep, Faithful, End;
    ghost var s := Start(ctx);
    NoSpans(line, s, keywords, types);
    var ok;
    spans, ctx' := [], ctx;
    var i := 0;
    if ctx != Ground {
      var e, token, next := ScanContinued(line, ctx, keywords, types);
      spans, ok := Emit(spans, maxSpans, 0, e, token);
      if !ok {
        if line != "" { ReachesEnd(line, s, keywords, types, spans, maxSpans); }
        return;
      }
      Extend(line, s, keywords, types, [], Span(0, e, token));
      OneSpan(e, token);
      i, ctx' := e, next;
    } else {
      StartInStep(line);
    }
    spans, ctx' := TokeniseRest(line, spans, i, ctx', maxSpans, keywords, types, s);
    if line != "" {
      ReachesEnd(line, s, keywords, types, spans, maxSpans);
      if End(spans) == |line| { InStepAtEnd(line, s, ctx'); }
    }
  }

  lemma {:induction false} LineCommentRun(line: string, s: State, i: nat)
    requires i < |line| && '\n' !in line && StateAt(line, s, i) == Code && line[i] == '/' && At(line, i + 1) == '/'
    ensures forall p | i < p <= |line| :: StateAt(line, s, p) == LineComment
  {
    var p := i + 1;
    while p < |line|
      invariant i < p <= |line|
      invariant forall m | i < m <= p :: StateAt(line, s, m) == LineComment
    {
      p := p + 1;
    }
  }

  // ---------- whole documents ----------

  /** Inside a line of the text the automaton cannot tell the line from the text. */
  lemma {:induction false} LineInText(text: string, o: nat, line: string, p: nat)
    requires LineAt(text, o, line) && p <= |line|
    ensures StateAt(text, Code, o + p) == StateAt(line, StateAt(text, Code, o), p)
  {
    if p > 0 {
      LineInText(text, o, line, p - 1);
      assert At(text, o + p) == At(line, p);
    }
  }

  ghost predicate SpanHighlights(text: string, o: nat, sp: Span) {
    forall q | o + sp.start <= q < o + sp.start + sp.len :: q < |text| && ClassAt(text, Code, q) == ClassOf(sp.token)
  }

  /**
   * The spans of one line of the text: they tile the line, every byte has the class that the
   * automaton over the whole text gives it, and the tokens are right.
   */
  ghost predicate Highlights(text: string, keywords: seq<string>, types: seq<string>, l: Line) {
    && LineAt(text, l.start, l.text)
    && Faithful(l.text, StateAt(text, Code, l.start), keywords, types, l.spans, |l.text|)
    && forall k | 0 <= k < |l.spans| :: SpanHighlights(text, l.start, l.spans[k])
  }

  ghost predicate AllHighlight(text: string, keywords: seq<string>, types: seq<string>, lines: seq<Line>) {
    forall k | 0 <= k < |lines| :: Highlights(text, keywords, types, lines[k])
  }

  ghost predicate LineNeedsAtMost(text: string, keywords: seq<string>, types: seq<string>, l: Line, maxSpans: nat) {
    LineAt(text, l.start, l.text) && NeedsAtMost(l.text, StateAt(text, Code, l.start), keywords, types, maxSpans)
  }

  /** Every line of the text needs no more spans than the array has. */
  ghost predicate AllNeedAtMost(text: string, keywords: seq<string>, types: seq<string>, lines: seq<Line>,
    maxSpans: nat) {
    forall k | 0 <= k < |lines| :: LineNeedsAtMost(text, keywords, types, lines[k], maxSpans)
  }

  lemma HighlightsInArray(text: string, keywords: seq<string>, types: seq<string>, lines: seq<Line>, maxSpans: nat)
    requires AllHighlight(text, keywords, types, lines) && AllInArray(lines, maxSpans)
    ensures AllNeedAtMost(text, keywords, types, lines, maxSpans)
  {
    hide Faithful;
    forall k | 0 <= k < |lines|
      ensures LineNeedsAtMost(text, keywords, types, lines[k], maxSpans)
    {
      assert Highlights(text, keywords, types, lines[k]);
    }
  }

  lemma ClassInText(text: string, o: nat, line: string, q: nat)
    requires LineAt(text, o, line) && o <= q < o + |line|
    ensures ClassAt(text, Code, q) == ClassAt(line, StateAt(text, Code, o), q - o)
  {
    hide Step, ByteClass;
    LineInText(text, o, line, q - o);
    assert At(text, q + 1) == At(line, q - o + 1) && text[q] == line[q - o];
  }

  lemma ByteInText(text: string, keywords: seq<string>, types: seq<string>, l: Line, sp: Span, q: nat)
    requires LineAt(text, l.start, l.text) && SpanOk(l.text, StateAt(text, Code, l.start), keywords, types, sp)
    requires l.start + sp.start <= q < l.start + sp.start + sp.len
    ensures q < |text| && ClassAt(text, Code, q) == ClassOf(sp.token)
  {
    hide ClassAt, StateAt, LineAt;
    LineFits(text, l.start, l.text);
    var p := q - l.start;
    assert ClassAt(l.text, StateAt(text, Code, l.start), p) == ClassOf(sp.token);
    ClassInText(text, l.start, l.text, q);
  }

  lemma FaithfulHighlights(text: string, keywords: seq<string>, types: seq<string>, l: Line)
    requires LineAt(text, l.start, l.text)
    requires Faithful(l.text, StateAt(text, Code, l.start), keywords, types, l.spans, |l.text|)
    ensures Highlights(text, keywords, types, l)
  {
    forall k | 0 <= k < |l.spans| ensures SpanHighlights(text, l.start, l.spans[k]) {
      forall q | l.start + l.spans[k].start <= q < l.start + l.spans[k].start + l.spans[k].len
        ensures q < |text| && ClassAt(text, Code, q) == ClassOf(l.spans[k].token)
      {
        ByteInText(text, keywords, types, l, l.spans[k], q);
      }
    }
  }

  /**
   * The loop of render_code_fence: it cuts the text at newlines, tokenises the lines that are not
   * empty and carries the context. Every byte gets the class that the automaton over the
   * whole text gives it exactly when no line needs more spans than the array has.
   */
  method HighlightFence(text: string, keywords: seq<string>, types: seq<string>, maxSpans: nat)
      returns (lines: seq<Line>)
    requires maxSpans > 0 && StrictlySorted(keywords) && StrictlySorted(types)
    ensures lines != [] && Join(lines) == text
    ensures AllHighlight(text, keywords, types, lines) <==> AllNeedAtMost(text, keywords, types, lines, maxSpans)
    ensures AllShort(lines, maxSpans) ==> AllHighlight(text, keywords, types, lines)
  {
    hide Highlights, NeedsAtMost, Join, Step, StrictlySorted;
    var pos, ctx := 0, Ground;
    lines := [];
    while pos <= |text|
      invariant 0 <= pos <= |text| + 1
      invariant if lines == [] then pos == 0 else pos > 0 && Join(lines) == text[..pos - 1] && At(text, pos - 1) == '\n'
      invariant AllInArray(lines, maxSpans)
      invariant AllNeedAtMost(text, keywords, types, lines, maxSpans) || AllShort(lines, maxSpans) ==>
                  AllHighlight(text, keywords, types, lines)
                    && (pos <= |text| ==> StateAt(text, Code, pos) == Start(ctx))
    {
      var l, next := HighlightLine(text, pos, ctx, keywords, types, maxSpans);
      ghost var before := lines;
      lines := lines + [l];
      pos, ctx := pos + |l.text| + 1, next;
      assert lines[..|before|] == before && lines[|before|] == l;
      JoinLine(text, before, l);
      assert AllShort(lines, maxSpans) <==> AllShort(before, maxSpans) && |l.text| <= maxSpans;
      assert AllNeedAtMost(text, keywords, types, lines, maxSpans) <==>
               AllNeedAtMost(text, keywords, types, before, maxSpans)
               && LineNeedsAtMost(text, keywords, types, l, maxSpans);
    }
    if AllHighlight(text, keywords, types, lines) {
      HighlightsInArray(text, keywords, types, lines, maxSpans);
    }
  }

  /** One turn of that loop: the line at `start` and the context behind it. */
  method HighlightLine(text: string, start: nat, ctx: Context, keywords: seq<string>, types: seq<string>, maxSpans: nat)
    returns (l: Line, next: Context)
    requires start <= |text| && maxSpans > 0 && StrictlySorted(keywords) && StrictlySorted(types)
    ensures l.start == start && LineAt(text, start, l.text)
    ensures |l.spans| <= maxSpans
    ensures (LineNeedsAtMost(text, keywords, types, l, maxSpans) || |l.text| <= maxSpans)
            && StateAt(text, Code, start) == Start(ctx) ==>
              Highlights(text, keywords, types, l)
              && (start + |l.text| < |text| ==> StateAt(text, Code, start + |l.text| + 1) == Start(next))
  {
    hide SpanOk, Highlights, StrictlySorted, NeedsAtMost;
    var line := CutLine(text, start);
    var spans := [];
    next := ctx;
    if line != "" {
      spans, next := Tokenise(line, ctx, maxSpans, keywords, types);
    }
    l := Line(start, line, spans);
    if StateAt(text, Code, start) == Start(ctx) && (line == "" || End(spans) == |line|) {
      FaithfulHighlights(text, keywords, types, l);
      LineInText(text, start, line, |line|);
    }
  }
}
