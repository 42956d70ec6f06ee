/**
 * JavaScript source text written out from its comments, strings and other characters, and what the automaton
 * makes of it.
 */
module JsText {
  import opened Highlight
  import opened SourceText
  import opened JsLexer

  // ---------- a grammar of texts ----------

  datatype Piece =
    | Other(c: char)
    | LineRemark(words: string)
    | BlockRemark(words: string)
    | Quotation(q: char, units: seq<Unit>, closed: bool)
    | Backticked(units: seq<Unit>)

  function PieceText(p: Piece): string {
    match p
    case Other(c) => [c]
    case LineRemark(words) => "//" + words
    case BlockRemark(words) => "/*" + (words + "*/")
    case Quotation(q, units, closed) => [q] + (UnitsText(units) + if closed then [q] else "")
    case Backticked(units) => "`" + (UnitsText(units) + "`")
  }

  function Text(ps: seq<Piece>): string {
    if ps == [] then "" else PieceText(ps[0]) + Text(ps[1..])
  }

  /** The characters that a string in these quotes may hold as they are. */
  predicate UnitOk(u: Unit, q: char) {
    match u
    case Plain(c) => c != q && c != '\\' && (q != '`' ==> c != '\n')
    case Escaped(c) => q != '`' ==> c != '\n'
  }

  predicate UnitsOk(us: seq<Unit>, q: char) {
    forall i | 0 <= i < |us| :: UnitOk(us[i], q)
  }

  /** The piece is what it is meant to be in front of the character `next`. */
  predicate PieceOk(p: Piece, next: char) {
    match p
    case Other(c) => c != '`' && c != '"' && c != '\'' && !(c == '/' && (next == '/' || next == '*'))
    case LineRemark(words) => '\n' !in words && next == '\n'
    case BlockRemark(words) => forall k | 0 <= k < |words| - 1 :: !(words[k] == '*' && words[k + 1] == '/')
    case Quotation(q, units, closed) => (q == '"' || q == '\'') && UnitsOk(units, q) && (!closed ==> next == '\n')
    case Backticked(units) => UnitsOk(units, '`')
  }

  predicate AllOk(ps: seq<Piece>) {
    ps == [] || (PieceOk(ps[0], At(Text(ps[1..]), 0)) && AllOk(ps[1..]))
  }

  function ClassOfPiece(p: Piece): Class {
    match p
    case Other(_) => CodeByte
    case LineRemark(_) => CommentByte
    case BlockRemark(_) => CommentByte
    case _ => StringByte
  }

  /** The piece that holds the column. */
  function PieceAt(ps: seq<Piece>, column: nat): Piece
    requires column < |Text(ps)|
  {
    if column < |PieceText(ps[0])| then ps[0] else PieceAt(ps[1..], column - |PieceText(ps[0])|)
  }

  // ---------- the automaton on each kind of piece ----------

  /** From `p` to `e` every character has the class. */
  predicate AllClass(t: string, p: nat, e: nat, c: Class) {
    e <= |t| && forall k | p <= k < e :: ClassAt(t, Code, k) == c
  }

  lemma {:induction false} InUnits(t: string, p: nat, us: seq<Unit>, q: char)
    requires p <= |t| && Stands(t, p, UnitsText(us)) && UnitsOk(us, q)
    requires StateAt(t, Code, p) == if q == '`' then Template else Quoted(q)
    ensures p + |UnitsText(us)| <= |t|
    ensures StateAt(t, Code, p + |UnitsText(us)|) == StateAt(t, Code, p)
            && AllClass(t, p, p + |UnitsText(us)|, StringByte)
    decreases |us|
  {
    hide StateAt, Step, AllClass, Stands;
    if us == [] {
      NoClass(t, p);
    } else {
      var u := UnitText(us[0]);
      StandsIn(t, p, UnitsText(us));
      StandsBoth(t, p, u, UnitsText(us[1..]));
      StandsAt(t, p, u, 0);
      if us[0].Escaped? {
        StandsAt(t, p, u, 1);
      }
      assert UnitOk(us[0], q);
      OneUnit(t, p, us[0], q);
      InUnits(t, p + |u|, us[1..], q);
      JoinClass(t, p, p + |u|, p + |UnitsText(us)|, StringByte);
    }
  }

  lemma NoClass(t: string, p: nat)
    requires p <= |t|
    ensures AllClass(t, p, p, StringByte)
  {
  }

  lemma OneUnit(t: string, p: nat, u: Unit, q: char)
    requires UnitOk(u, q) && p + |UnitText(u)| <= |t| && t[p] == UnitText(u)[0] && (u.Escaped? ==> t[p + 1] == u.c)
    requires StateAt(t, Code, p) == if q == '`' then Template else Quoted(q)
    ensures StateAt(t, Code, p + |UnitText(u)|) == StateAt(t, Code, p) && AllClass(t, p, p + |UnitText(u)|, StringByte)
  {
    if u.Escaped? {
      assert StateAt(t, Code, p + 1) == if q == '`' then TemplateEscape else QuotedEscape(q);
    }
  }

  /** In code, or at the end of a line that takes the automaton back to code. */
  predicate Ready(t: string, p: nat)
    requires p <= |t|
  {
    var s := StateAt(t, Code, p);
    s == Code || (At(t, p) == '\n' && (s == LineComment || s.Quoted?))
  }

  lemma JoinClass(t: string, p: nat, m: nat, e: nat, c: Class)
    requires p <= m <= e && AllClass(t, p, m, c) && AllClass(t, m, e, c)
    ensures AllClass(t, p, e, c)
  {
  }

  /** The character that opens or closes a string. */
  lemma Delimiter(t: string, p: nat, q: char)
    requires p < |t| && t[p] == q && (q == '"' || q == '\'' || q == '`')
    requires StateAt(t, Code, p) == Code || StateAt(t, Code, p) == if q == '`' then Template else Quoted(q)
    ensures AllClass(t, p, p + 1, StringByte)
    ensures StateAt(t, Code, p + 1)
         == if StateAt(t, Code, p) != Code then Code else if q == '`' then Template else Quoted(q)
  {
  }

  lemma QuotationRun(t: string, p: nat, q: char, units: seq<Unit>, closed: bool)
    requires var piece := Quotation(q, units, closed);
             Stands(t, p, PieceText(piece)) && PieceOk(piece, At(t, p + |PieceText(piece)|))
    requires StateAt(t, Code, p) == Code
    ensures var e := p + |PieceText(Quotation(q, units, closed))|; Ready(t, e) && AllClass(t, p, e, StringByte)
  {
    hide StateAt, Step, AllClass, UnitsOk, Stands;
    var body, tail := UnitsText(units), if closed then [q] else "";
    StandsBoth(t, p, [q], body + tail);
    StandsBoth(t, p + 1, body, tail);
    StandsIn(t, p, [q]);
    StandsAt(t, p, [q], 0);
    Delimiter(t, p, q);
    InUnits(t, p + 1, units, q);
    var e := p + 1 + |body|;
    JoinClass(t, p, p + 1, e, StringByte);
    if closed {
      StandsIn(t, e, tail);
      StandsAt(t, e, tail, 0);
      Delimiter(t, e, q);
      JoinClass(t, p, e, e + 1, StringByte);
    }
  }

  lemma BacktickedRun(t: string, p: nat, units: seq<Unit>)
    requires Stands(t, p, PieceText(Backticked(units))) && UnitsOk(units, '`') && StateAt(t, Code, p) == Code
    ensures var e := p + |PieceText(Backticked(units))|; Ready(t, e) && AllClass(t, p, e, StringByte)
  {
    hide StateAt, Step, AllClass, UnitsOk, Stands;
    var body := UnitsText(units);
    StandsIn(t, p, PieceText(Backticked(units)));
    StandsBoth(t, p, "`", body + "`");
    StandsBoth(t, p + 1, body, "`");
    StandsAt(t, p, "`", 0);
    Delimiter(t, p, '`');
    InUnits(t, p + 1, units, '`');
    var e := p + 1 + |body|;
    StandsAt(t, e, "`", 0);
    Delimiter(t, e, '`');
    JoinClass(t, p, p + 1, e, StringByte);
    JoinClass(t, p, e, e + 1, StringByte);
  }

  lemma {:induction false} InLineRemark(t: string, p: nat, e: nat)
    requires p <= e <= |t| && StateAt(t, Code, p) == LineComment && forall k | p <= k < e :: t[k] != '\n'
    ensures StateAt(t, Code, e) == LineComment && AllClass(t, p, e, CommentByte)
    decreases e - p
  {
    if p < e {
      InLineRemark(t, p, e - 1);
    }
  }

  lemma LineRemarkRun(t: string, p: nat, words: string)
    requires var piece := LineRemark(words);
             Stands(t, p, PieceText(piece)) && PieceOk(piece, At(t, p + |PieceText(piece)|))
    requires StateAt(t, Code, p) == Code
    ensures var e := p + |PieceText(LineRemark(words))|; Ready(t, e) && AllClass(t, p, e, CommentByte)
  {
    var e := p + 2 + |words|;
    StandsBoth(t, p, "//", words);
    StandsAt(t, p, "//", 0);
    StandsAt(t, p, "//", 1);
    assert StateAt(t, Code, p + 1) == LineComment;
    forall k | p + 1 <= k < e ensures t[k] != '\n' {
      if k > p + 1 {
        StandsAt(t, p + 2, words, k - p - 2);
        assert words[k - p - 2] in words;
      }
    }
    InLineRemark(t, p + 1, e);
  }

  lemma {:induction false} InBlockRemark(t: string, p: nat, e: nat)
    requires p <= e <= |t| && StateAt(t, Code, p) == Block
             && forall k | p <= k < e :: !(t[k] == '*' && At(t, k + 1) == '/')
    ensures StateAt(t, Code, e) == Block && AllClass(t, p, e, CommentByte)
    decreases e - p
  {
    if p < e {
      InBlockRemark(t, p, e - 1);
    }
  }

  lemma BlockOpens(t: string, p: nat)
    requires p + 2 <= |t| && t[p] == '/' && t[p + 1] == '*' && StateAt(t, Code, p) == Code
    ensures StateAt(t, Code, p + 2) == Block && AllClass(t, p, p + 2, CommentByte)
  {
    assert StateAt(t, Code, p + 1) == BlockOpen;
  }

  lemma BlockCloses(t: string, p: nat)
    requires p + 2 <= |t| && t[p] == '*' && t[p + 1] == '/' && StateAt(t, Code, p) == Block
    ensures StateAt(t, Code, p + 2) == Code && AllClass(t, p, p + 2, CommentByte)
  {
    assert StateAt(t, Code, p + 1) == BlockClose;
  }

  lemma BlockRemarkRun(t: string, p: nat, words: string)
    requires Stands(t, p, PieceText(BlockRemark(words))) && PieceOk(BlockRemark(words), '\n')
             && StateAt(t, Code, p) == Code
    ensures var e := p + |PieceText(BlockRemark(words))|; Ready(t, e) && AllClass(t, p, e, CommentByte)
  {
    hide StateAt, Step, AllClass, Stands;
    var e := p + 2 + |words|;
    StandsIn(t, p, PieceText(BlockRemark(words)));
    StandsBoth(t, p, "/*", words + "*/");
    StandsBoth(t, p + 2, words, "*/");
    StandsAt(t, p, "/*", 0);
    StandsAt(t, p, "/*", 1);
    StandsAt(t, e, "*/", 0);
    StandsAt(t, e, "*/", 1);
    BlockOpens(t, p);
    forall k | p + 2 <= k < e ensures !(t[k] == '*' && At(t, k + 1) == '/') {
      StandsAt(t, p + 2, words, k - p - 2);
      if k + 1 < e {
        StandsAt(t, p + 2, words, k - p - 1);
      }
    }
    InBlockRemark(t, p + 2, e);
    BlockCloses(t, e);
    JoinClass(t, p, p + 2, e, CommentByte);
    JoinClass(t, p, e, e + 2, CommentByte);
  }

  lemma OtherRun(t: string, p: nat, c: char)
    requires p < |t| && t[p] == c && PieceOk(Other(c), At(t, p + 1)) && Ready(t, p)
    ensures Ready(t, p + 1) && (c != '\n' ==> ClassAt(t, Code, p) == CodeByte)
  {
  }

  lemma PieceRun(t: string, p: nat, piece: Piece)
    requires Stands(t, p, PieceText(piece)) && PieceOk(piece, At(t, p + |PieceText(piece)|)) && Ready(t, p)
    ensures var e := p + |PieceText(piece)|;
            Ready(t, e)
            && forall k | p <= k < e :: t[k] != '\n' || !piece.Other? ==> ClassAt(t, Code, k) == ClassOfPiece(piece)
  {
    StandsAt(t, p, PieceText(piece), 0);
    if piece.Other? {
      OtherRun(t, p, piece.c);
    } else {
      NotLineEnd(piece, At(t, p + |PieceText(piece)|));
      InCode(t, p);
      hide StateAt, Step, Ready, PieceOk, ClassAt, Stands, PieceText;
      StringOrRemark(t, p, piece);
    }
  }

  lemma NotLineEnd(piece: Piece, next: char)
    requires !piece.Other? && PieceOk(piece, next)
    ensures PieceText(piece)[0] != '\n'
  {
  }

  lemma InCode(t: string, p: nat)
    requires p < |t| && Ready(t, p) && t[p] != '\n'
    ensures StateAt(t, Code, p) == Code
  {
  }

  lemma StringOrRemark(t: string, p: nat, piece: Piece)
    requires !piece.Other? && p <= |t| && StateAt(t, Code, p) == Code
    requires Stands(t, p, PieceText(piece)) && PieceOk(piece, At(t, p + |PieceText(piece)|))
    ensures var e := p + |PieceText(piece)|; Ready(t, e) && AllClass(t, p, e, ClassOfPiece(piece))
  {
    hide StateAt, Step, Ready, AllClass, Stands;
    match piece
    case LineRemark(words) => LineRemarkRun(t, p, words);
    case BlockRemark(words) => BlockRemarkRun(t, p, words);
    case Quotation(q, units, closed) => QuotationRun(t, p, q, units, closed);
    case Backticked(units) => BacktickedRun(t, p, units);
  }

  lemma {:induction false} RunFrom(t: string, p: nat, ps: seq<Piece>, column: nat)
    requires Stands(t, p, Text(ps)) && p + |Text(ps)| == |t| && AllOk(ps) && Ready(t, p) && column < |Text(ps)|
    ensures (t[p + column] == '\n' && PieceAt(ps, column).Other?)
            || ClassAt(t, Code, p + column) == ClassOfPiece(PieceAt(ps, column))
    decreases |ps|
  {
    hide Ready, PieceOk, ClassAt, ClassOfPiece, PieceText;
    var first, rest := PieceText(ps[0]), Text(ps[1..]);
    StandsBoth(t, p, first, rest);
    if rest != "" {
      StandsAt(t, p + |first|, rest, 0);
    }
    PieceRun(t, p, ps[0]);
    if column >= |first| {
      RunFrom(t, p + |first|, ps[1..], column - |first|);
    }
  }

  /**
   * In every text that the grammar writes the automaton gives each character the class of the piece that it
   * was written for, line feeds between the pieces apart, which belong to no line.
   */
  lemma ClassesFollowPieces(ps: seq<Piece>, column: nat)
    requires AllOk(ps) && column < |Text(ps)|
    ensures (Text(ps)[column] == '\n' && PieceAt(ps, column).Other?)
            || ClassAt(Text(ps), Code, column) == ClassOfPiece(PieceAt(ps, column))
  {
    RunFrom(Text(ps), 0, ps, column);
  }
}
