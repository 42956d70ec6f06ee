/**
 * Python source text written out from its comments, strings and other characters, and what the automaton makes
 * of it.
 */
module PyText {
  import opened Highlight
  import opened SourceText
  import opened PyLexer

  // ---------- a grammar of texts ----------

  datatype Piece =
    | Other(c: char)
    | Remark(words: string)
    | Quotation(q: char, units: seq<Unit>, closed: bool)
    | Tripled(q: char, units: seq<Unit>)

  function PieceText(p: Piece): string {
    match p
    case Other(c) => [c]
    case Remark(words) => "#" + words
    case Quotation(q, units, closed) => [q] + (UnitsText(units) + if closed then [q] else "")
    case Tripled(q, units) => [q, q, q] + (UnitsText(units) + [q, q, q])
  }

  function Text(ps: seq<Piece>): string {
    if ps == [] then "" else PieceText(ps[0]) + Text(ps[1..])
  }

  /** The characters that a string in these quotes may hold as they are. */
  predicate UnitOk(u: Unit, q: char) {
    match u
    case Plain(c) => c != q && c != '\\' && c != '\n'
    case Escaped(c) => c != '\n'
  }

  predicate UnitsOk(us: seq<Unit>, q: char) {
    forall i | 0 <= i < |us| :: UnitOk(us[i], q)
  }

  /** Between three quotes: whatever has no three quotes in it, up to those that close it. */
  predicate InnerOk(us: seq<Unit>, q: char) {
    us == [] || (InnerOk(us[1..], q) && match us[0]
      case Plain(c) => c != '\\' && !(c == q && [q, q] <= UnitsText(us[1..]) + [q, q, q])
      case Escaped(_) => true)
  }

  /** The piece is what it is meant to be in front of the character `next`. */
  predicate PieceOk(p: Piece, next: char) {
    match p
    case Other(c) => c != '#' && !IsQuote(c)
    case Remark(words) => '\n' !in words && next == '\n'
    case Quotation(q, units, closed) =>
      IsQuote(q) && UnitsOk(units, q) && (!closed ==> next == '\n') && (units == [] ==> next != q)
    case Tripled(q, units) => IsQuote(q) && InnerOk(units, q)
  }

  predicate AllOk(ps: seq<Piece>) {
    ps == [] || (PieceOk(ps[0], At(Text(ps[1..]), 0)) && AllOk(ps[1..]))
  }

  function ClassOfPiece(p: Piece): Class {
    match p
    case Other(_) => CodeByte
    case Remark(_) => CommentByte
    case _ => StringByte
  }

  /** The piece that holds the column. */
  function PieceAt(ps: seq<Piece>, column: nat): Piece
    requires column < |Text(ps)|
  {
    if column < |PieceText(ps[0])| then ps[0] else PieceAt(ps[1..], column - |PieceText(ps[0])|)
  }

  // ---------- the automaton on each kind of piece ----------

  /** From `p` to `e` every character has the class. */
  predicate AllClass(t: string, p: nat, e: nat, c: Class) {
    e <= |t| && forall k | p <= k < e :: ClassAt(t, Code, k) == c
  }

  lemma {:induction false} InUnits(t: string, p: nat, us: seq<Unit>, q: char)
    requires p <= |t| && Stands(t, p, UnitsText(us)) && UnitsOk(us, q) && StateAt(t, Code, p) == Quoted(q)
    ensures p + |UnitsText(us)| <= |t|
    ensures StateAt(t, Code, p + |UnitsText(us)|) == Quoted(q) && AllClass(t, p, p + |UnitsText(us)|, StringByte)
    decreases |us|
  {
    hide StateAt, Step, AllClass, Stands;
    if us == [] {
      NoClass(t, p);
    } else {
      var u := UnitText(us[0]);
      StandsIn(t, p, UnitsText(us));
      StandsBoth(t, p, u, UnitsText(us[1..]));
      StandsAt(t, p, u, 0);
      if us[0].Escaped? {
        StandsAt(t, p, u, 1);
      }
      assert UnitOk(us[0], q);
      OneUnit(t, p, us[0], q);
      InUnits(t, p + |u|, us[1..], q);
      JoinClass(t, p, p + |u|, p + |UnitsText(us)|, StringByte);
    }
  }

  lemma OneUnit(t: string, p: nat, u: Unit, q: char)
    requires UnitOk(u, q) && p + |UnitText(u)| <= |t| && t[p] == UnitText(u)[0] && (u.Escaped? ==> t[p + 1] == u.c)
    requires StateAt(t, Code, p) == Quoted(q)
    ensures StateAt(t, Code, p + |UnitText(u)|) == Quoted(q) && AllClass(t, p, p + |UnitText(u)|, StringByte)
  {
    if u.Escaped? {
      assert StateAt(t, Code, p + 1) == QuotedEscape(q);
    }
  }

  /** The first unit between three quotes, and what follows it in the text. */
  lemma InnerHead(t: string, p: nat, us: seq<Unit>, q: char)
    requires us != [] && Stands(t, p, UnitsText(us) + [q, q, q]) && InnerOk(us, q)
    ensures var u := UnitText(us[0]);
            && p + |u| + 1 < |t| && t[p] == u[0] && (us[0].Escaped? ==> t[p + 1] == us[0].c)
            && (us[0].Plain? ==> us[0].c != '\\' && !(us[0].c == q && t[p + 1] == q && t[p + 2] == q))
            && Stands(t, p + |u|, UnitsText(us[1..]) + [q, q, q]) && InnerOk(us[1..], q)
            && |UnitsText(us)| == |u| + |UnitsText(us[1..])|
  {
    hide Stands;
    var u, rest := UnitText(us[0]), UnitsText(us[1..]) + [q, q, q];
    assert UnitsText(us) + [q, q, q] == u + rest;
    StandsBoth(t, p, u, rest);
    StandsIn(t, p + |u|, rest);
    StandsAt(t, p, u, 0);
    StandsAt(t, p + |u|, rest, 0);
    StandsAt(t, p + |u|, rest, 1);
    if us[0].Escaped? {
      StandsAt(t, p, u, 1);
    } else {
      assert [q, q] <= rest <==> rest[0] == q && rest[1] == q;
    }
  }

  /** Between three quotes, of which the text goes on with the closing ones. */
  lemma {:induction false} InTriple(t: string, p: nat, us: seq<Unit>, q: char)
    requires p <= |t| && Stands(t, p, UnitsText(us) + [q, q, q]) && InnerOk(us, q) && StateAt(t, Code, p) == Triple(q)
    ensures var e := p + |UnitsText(us)|; e <= |t| && StateAt(t, Code, e) == Triple(q) && AllClass(t, p, e, StringByte)
    decreases |us|
  {
    hide StateAt, Step, AllClass, Stands, InnerOk, UnitText;
    if us == [] {
      NoClass(t, p);
    } else {
      InnerHead(t, p, us, q);
      var u := UnitText(us[0]);
      OneInner(t, p, us[0], q);
      InTriple(t, p + |u|, us[1..], q);
      JoinClass(t, p, p + |u|, p + |UnitsText(us)|, StringByte);
    }
  }

  lemma NoClass(t: string, p: nat)
    requires p <= |t|
    ensures AllClass(t, p, p, StringByte)
  {
  }

  lemma OneInner(t: string, p: nat, u: Unit, q: char)
    requires p + |UnitText(u)| + 1 < |t| && t[p] == UnitText(u)[0] && (u.Escaped? ==> t[p + 1] == u.c)
    requires u.Plain? ==> u.c != '\\' && !(u.c == q && t[p + 1] == q && t[p + 2] == q)
    requires StateAt(t, Code, p) == Triple(q)
    ensures StateAt(t, Code, p + |UnitText(u)|) == Triple(q) && AllClass(t, p, p + |UnitText(u)|, StringByte)
  {
    if u.Escaped? {
      assert StateAt(t, Code, p + 1) == TripleEscape(q);
    }
  }

  /** In code, or at the end of a line that takes the automaton back to code. */
  predicate Ready(t: string, p: nat)
    requires p <= |t|
  {
    var s := StateAt(t, Code, p);
    s == Code || (At(t, p) == '\n' && (s == LineComment || s.Quoted?))
  }

  lemma JoinClass(t: string, p: nat, m: nat, e: nat, c: Class)
    requires p <= m <= e && AllClass(t, p, m, c) && AllClass(t, m, e, c)
    ensures AllClass(t, p, e, c)
  {
  }

  /** The character that opens a string, or closes it. */
  lemma Opens(t: string, p: nat, q: char)
    requires p < |t| && t[p] == q && IsQuote(q) && !(At(t, p + 1) == q && At(t, p + 2) == q)
    requires StateAt(t, Code, p) == Code
    ensures AllClass(t, p, p + 1, StringByte) && StateAt(t, Code, p + 1) == Quoted(q)
  {
  }

  lemma Closes(t: string, p: nat, q: char)
    requires p < |t| && t[p] == q && IsQuote(q) && StateAt(t, Code, p) == Quoted(q)
    ensures AllClass(t, p, p + 1, StringByte) && StateAt(t, Code, p + 1) == Code
  {
  }

  lemma TripleOpens(t: string, p: nat, q: char)
    requires p + 3 <= |t| && t[p] == t[p + 1] == t[p + 2] == q && IsQuote(q) && StateAt(t, Code, p) == Code
    ensures AllClass(t, p, p + 3, StringByte) && StateAt(t, Code, p + 3) == Triple(q)
  {
    assert StateAt(t, Code, p + 1) == TripleOpen(q, 2) && StateAt(t, Code, p + 2) == TripleOpen(q, 1);
  }

  lemma TripleCloses(t: string, p: nat, q: char)
    requires p + 3 <= |t| && t[p] == t[p + 1] == t[p + 2] == q && IsQuote(q) && StateAt(t, Code, p) == Triple(q)
    ensures AllClass(t, p, p + 3, StringByte) && StateAt(t, Code, p + 3) == Code
  {
    assert StateAt(t, Code, p + 1) == TripleClose(q, 2) && StateAt(t, Code, p + 2) == TripleClose(q, 1);
  }

  lemma QuotationRun(t: string, p: nat, q: char, units: seq<Unit>, closed: bool)
    requires var piece := Quotation(q, units, closed);
             Stands(t, p, PieceText(piece)) && PieceOk(piece, At(t, p + |PieceText(piece)|))
    requires StateAt(t, Code, p) == Code
    ensures var e := p + |PieceText(Quotation(q, units, closed))|; Ready(t, e) && AllClass(t, p, e, StringByte)
  {
    hide StateAt, Step, AllClass, UnitsOk, Stands;
    var body, tail := UnitsText(units), if closed then [q] else "";
    StandsBoth(t, p, [q], body + tail);
    StandsBoth(t, p + 1, body, tail);
    StandsIn(t, p, [q]);
    StandsAt(t, p, [q], 0);
    SecondQuote(t, p, q, units, closed);
    Opens(t, p, q);
    InUnits(t, p + 1, units, q);
    var e := p + 1 + |body|;
    JoinClass(t, p, p + 1, e, StringByte);
    if closed {
      StandsIn(t, e, tail);
      StandsAt(t, e, tail, 0);
      Closes(t, e, q);
      JoinClass(t, p, e, e + 1, StringByte);
    }
  }

  /** Behind the opening quote there are not two more. */
  lemma SecondQuote(t: string, p: nat, q: char, units: seq<Unit>, closed: bool)
    requires var piece := Quotation(q, units, closed);
             Stands(t, p, PieceText(piece)) && PieceOk(piece, At(t, p + |PieceText(piece)|))
    ensures !(At(t, p + 1) == q && At(t, p + 2) == q)
  {
    var text := PieceText(Quotation(q, units, closed));
    if units != [] {
      assert UnitOk(units[0], q);
      assert text[1] == UnitText(units[0])[0];
      StandsAt(t, p, text, 1);
    } else if closed {
      assert |text| == 2;
    }
  }

  lemma TripledRun(t: string, p: nat, q: char, units: seq<Unit>)
    requires Stands(t, p, PieceText(Tripled(q, units))) && PieceOk(Tripled(q, units), '\n')
             && StateAt(t, Code, p) == Code
    ensures var e := p + |PieceText(Tripled(q, units))|; Ready(t, e) && AllClass(t, p, e, StringByte)
  {
    hide StateAt, Step, AllClass, Stands, InnerOk;
    var body, three := UnitsText(units), [q, q, q];
    StandsIn(t, p, PieceText(Tripled(q, units)));
    StandsBoth(t, p, three, body + three);
    StandsBoth(t, p + 3, body, three);
    StandsAt(t, p, three, 0);
    StandsAt(t, p, three, 1);
    StandsAt(t, p, three, 2);
    TripleOpens(t, p, q);
    InTriple(t, p + 3, units, q);
    var e := p + 3 + |body|;
    StandsAt(t, e, three, 0);
    StandsAt(t, e, three, 1);
    StandsAt(t, e, three, 2);
    TripleCloses(t, e, q);
    JoinClass(t, p, p + 3, e, StringByte);
    JoinClass(t, p, e, e + 3, StringByte);
  }

  lemma {:induction false} InLineRemark(t: string, p: nat, e: nat)
    requires p <= e <= |t| && StateAt(t, Code, p) == LineComment && forall k | p <= k < e :: t[k] != '\n'
    ensures StateAt(t, Code, e) == LineComment && AllClass(t, p, e, CommentByte)
    decreases e - p
  {
    if p < e {
      InLineRemark(t, p, e - 1);
    }
  }

  lemma RemarkRun(t: string, p: nat, words: string)
    requires Stands(t, p, PieceText(Remark(words))) && PieceOk(Remark(words), At(t, p + 1 + |words|))
    requires StateAt(t, Code, p) == Code
    ensures var e := p + 1 + |words|; Ready(t, e) && AllClass(t, p, e, CommentByte)
  {
    hide Step;
    var e := p + 1 + |words|;
    StandsIn(t, p, PieceText(Remark(words)));
    StandsBoth(t, p, "#", words);
    StandsAt(t, p, "#", 0);
    RemarkOpens(t, p);
    forall k | p + 1 <= k < e ensures t[k] != '\n' {
      StandsAt(t, p + 1, words, k - p - 1);
      assert words[k - p - 1] in words;
    }
    InLineRemark(t, p + 1, e);
    JoinClass(t, p, p + 1, e, CommentByte);
  }

  lemma RemarkOpens(t: string, p: nat)
    requires p < |t| && t[p] == '#' && StateAt(t, Code, p) == Code
    ensures StateAt(t, Code, p + 1) == LineComment && AllClass(t, p, p + 1, CommentByte)
  {
  }

  lemma OtherRun(t: string, p: nat, c: char)
    requires p < |t| && t[p] == c && PieceOk(Other(c), At(t, p + 1)) && Ready(t, p)
    ensures Ready(t, p + 1) && (c != '\n' ==> ClassAt(t, Code, p) == CodeByte)
  {
  }

  lemma PieceRun(t: string, p: nat, piece: Piece)
    requires Stands(t, p, PieceText(piece)) && PieceOk(piece, At(t, p + |PieceText(piece)|)) && Ready(t, p)
    ensures var e := p + |PieceText(piece)|;
            Ready(t, e)
            && forall k | p <= k < e :: t[k] != '\n' || !piece.Other? ==> ClassAt(t, Code, k) == ClassOfPiece(piece)
  {
    StandsAt(t, p, PieceText(piece), 0);
    if piece.Other? {
      OtherRun(t, p, piece.c);
    } else {
      NotLineEnd(piece, At(t, p + |PieceText(piece)|));
      InCode(t, p);
      hide StateAt, Step, Ready, PieceOk, ClassAt, Stands, PieceText;
      StringOrRemark(t, p, piece);
    }
  }

  lemma NotLineEnd(piece: Piece, next: char)
    requires !piece.Other? && PieceOk(piece, next)
    ensures PieceText(piece)[0] != '\n'
  {
  }

  lemma InCode(t: string, p: nat)
    requires p < |t| && Ready(t, p) && t[p] != '\n'
    ensures StateAt(t, Code, p) == Code
  {
  }

  lemma StringOrRemark(t: string, p: nat, piece: Piece)
    requires !piece.Other? && p <= |t| && StateAt(t, Code, p) == Code
    requires Stands(t, p, PieceText(piece)) && PieceOk(piece, At(t, p + |PieceText(piece)|))
    ensures var e := p + |PieceText(piece)|; Ready(t, e) && AllClass(t, p, e, ClassOfPiece(piece))
  {
    hide StateAt, Step, Ready, AllClass, Stands;
    match piece
    case Remark(words) => RemarkRun(t, p, words);
    case Quotation(q, units, closed) => QuotationRun(t, p, q, units, closed);
    case Tripled(q, units) => TripledRun(t, p, q, units);
  }

  lemma {:induction false} RunFrom(t: string, p: nat, ps: seq<Piece>, column: nat)
    requires Stands(t, p, Text(ps)) && p + |Text(ps)| == |t| && AllOk(ps) && Ready(t, p) && column < |Text(ps)|
    ensures (t[p + column] == '\n' && PieceAt(ps, column).Other?)
            || ClassAt(t, Code, p + column) == ClassOfPiece(PieceAt(ps, column))
    decreases |ps|
  {
    hide Ready, PieceOk, ClassAt, ClassOfPiece, PieceText;
    var first, rest := PieceText(ps[0]), Text(ps[1..]);
    StandsBoth(t, p, first, rest);
    if rest != "" {
      StandsAt(t, p + |first|, rest, 0);
    }
    PieceRun(t, p, ps[0]);
    if column >= |first| {
      RunFrom(t, p + |first|, ps[1..], column - |first|);
    }
  }

  /**
   * In every text that the grammar writes the automaton gives each character the class of the piece that it
   * was written for, line feeds between the pieces apart, which belong to no line.
   */
  lemma ClassesFollowPieces(ps: seq<Piece>, column: nat)
    requires AllOk(ps) && column < |Text(ps)|
    ensures (Text(ps)[column] == '\n' && PieceAt(ps, column).Other?)
            || ClassAt(Text(ps), Code, column) == ClassOfPiece(PieceAt(ps, column))
  {
    RunFrom(Text(ps), 0, ps, column);
  }
}
