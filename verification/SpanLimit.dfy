/** A line with more spans than the renderer has room for. */
module SpanLimit {
  import opened Highlight
  import JsLexer
  import PyLexer
  import opened KeywordTables

  function Operators(n: nat): (line: string)
    ensures |line| == n && forall i | 0 <= i < n :: line[i] == '+'
  {
    seq(n, _ => '+')
  }

  lemma {:induction false} OneByteEach(spans: seq<Span>, end: nat)
    requires Tile(spans, end) && forall k | 0 <= k < |spans| :: spans[k].len == 1
    ensures |spans| == end
  {
    if spans != [] {
      var n := |spans| - 1;
      OneByteEach(spans[..n], spans[n].start);
    }
  }

  lemma JsOperator(n: nat, keywords: seq<string>, types: seq<string>, sp: Span)
    requires n > 0 && JsLexer.SpanOk(Operators(n), JsLexer.Code, keywords, types, sp)
    ensures sp.len == 1
  {
    var line := Operators(n);
    JsLexer.PlainRun(line, JsLexer.Code, 0, n);
    assert sp.len > 0 && JsLexer.ClassAt(line, JsLexer.Code, sp.start) == ClassOf(sp.token);
  }

  /** Every operator takes a span of its own. */
  lemma JsNeedsAll(n: nat, keywords: seq<string>, types: seq<string>, maxSpans: nat)
    requires n > 0
    ensures JsLexer.NeedsAtMost(Operators(n), JsLexer.Code, keywords, types, maxSpans) ==> n <= maxSpans
  {
    hide JsLexer.SpanOk, Tile;
    var line := Operators(n);
    if JsLexer.NeedsAtMost(line, JsLexer.Code, keywords, types, maxSpans) {
      var full: seq<Span> :| JsLexer.Faithful(line, JsLexer.Code, keywords, types, full, |line|) && |full| <= maxSpans;
      forall k | 0 <= k < |full| ensures full[k].len == 1 {
        JsOperator(n, keywords, types, full[k]);
      }
      OneByteEach(full, n);
    }
  }

  lemma PyOperator(n: nat, keywords: seq<string>, types: seq<string>, sp: Span)
    requires n > 0 && PyLexer.SpanOk(Operators(n), PyLexer.Code, keywords, types, sp)
    ensures sp.len == 1
  {
    var line := Operators(n);
    PyLexer.PlainRun(line, PyLexer.Code, 0, n);
    assert sp.len > 0 && PyLexer.ClassAt(line, PyLexer.Code, sp.start) == ClassOf(sp.token);
  }

  lemma PyNeedsAll(n: nat, keywords: seq<string>, types: seq<string>, maxSpans: nat)
    requires n > 0
    ensures PyLexer.NeedsAtMost(Operators(n), PyLexer.Code, keywords, types, maxSpans) ==> n <= maxSpans
  {
    hide PyLexer.SpanOk, Tile;
    var line := Operators(n);
    if PyLexer.NeedsAtMost(line, PyLexer.Code, keywords, types, maxSpans) {
      var full: seq<Span> :| PyLexer.Faithful(line, PyLexer.Code, keywords, types, full, |line|) && |full| <= maxSpans;
      forall k | 0 <= k < |full| ensures full[k].len == 1 {
        PyOperator(n, keywords, types, full[k]);
      }
      OneByteEach(full, n);
    }
  }

  /** A text without line feeds is one line. */
  lemma OneLine(lines: seq<Line>, text: string)
    requires lines != [] && Join(lines) == text && '\n' !in text
    ensures |lines| == 1 && lines[0].text == text
  {
    if |lines| > 1 {
      ManyLines(lines);
    }
  }

  lemma ManyLines(lines: seq<Line>)
    requires |lines| > 1
    ensures '\n' in Join(lines)
  {
    var front := Join(lines[..|lines| - 1]);
    assert Join(lines)[|front|] == '\n';
  }

  /** So 129 of them in a fence are not all highlighted, in any of the three languages. */
  lemma OperatorsOverflow(lines: seq<Line>, keywords: seq<string>, types: seq<string>)
    requires lines != [] && Join(lines) == Operators(MAX_SPANS + 1)
    ensures !JsLexer.AllNeedAtMost(Operators(MAX_SPANS + 1), keywords, types, lines, MAX_SPANS)
    ensures !PyLexer.AllNeedAtMost(Operators(MAX_SPANS + 1), keywords, types, lines, MAX_SPANS)
  {
    hide JsLexer.NeedsAtMost, PyLexer.NeedsAtMost, Join;
    var text := Operators(MAX_SPANS + 1);
    assert forall i | 0 <= i < |text| :: text[i] != '\n';
    OneLine(lines, text);
    JsNeedsAll(MAX_SPANS + 1, keywords, types, MAX_SPANS);
    PyNeedsAll(MAX_SPANS + 1, keywords, types, MAX_SPANS);
    assert JsLexer.StateAt(text, JsLexer.Code, 0) == JsLexer.Code
      && PyLexer.StateAt(text, PyLexer.Code, 0) == PyLexer.Code;
    assert LineAt(text, lines[0].start, text) ==> lines[0].start == 0;
  }
}
