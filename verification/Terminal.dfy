/** What a terminal shows of the highlighted text that Mentions writes. */
module Terminal {
  import opened Mentions

  const ESC: char := 27 as char

  datatype Cell = Cell(c: char, inverse: bool)

  /**
   * A terminal that knows "select graphic rendition" with 7 for inverse and 0 for normal (ECMA-48, section
   * 8.3.117).
   */
  function Screen(out: string, inverse: bool): seq<Cell>
    decreases |out|
  {
    if out == "" then []
    else if |out| >= 4 && out[0] == ESC && out[1] == '[' && (out[2] == '7' || out[2] == '0') && out[3] == 'm' then
      Screen(out[4..], out[2] == '7')
    else [Cell(out[0], inverse)] + Screen(out[1..], inverse)
  }

  function Cells(text: string, inverse: bool): (r: seq<Cell>)
    ensures |r| == |text| && forall k | 0 <= k < |r| :: r[k] == Cell(text[k], inverse)
  {
    seq(|text|, k requires 0 <= k < |text| => Cell(text[k], inverse))
  }

  lemma {:induction false} ScreenText(text: string, rest: string, inverse: bool)
    requires ESC !in text
    ensures Screen(text + rest, inverse) == Cells(text, inverse) + Screen(rest, inverse)
  {
    if text == "" {
      assert text + rest == rest && Cells(text, inverse) == [];
    } else {
      var out := text + rest;
      assert out[0] == text[0] && text[0] in text && out[1..] == text[1..] + rest;
      ScreenText(text[1..], rest, inverse);
      assert Cells(text, inverse) == [Cell(text[0], inverse)] + Cells(text[1..], inverse);
    }
  }

  lemma ScreenEscape(rest: string, inverse: bool)
    ensures Screen(REVERSE + rest, inverse) == Screen(rest, true)
            && Screen(RESET + rest, inverse) == Screen(rest, false)
  {
    assert REVERSE == [ESC, '[', '7', 'm'] && RESET == [ESC, '[', '0', 'm'];
    var a, b := REVERSE + rest, RESET + rest;
    assert a[0] == ESC && a[1] == '[' && a[2] == '7' && a[3] == 'm' && a[4..] == rest;
    assert b[0] == ESC && b[1] == '[' && b[2] == '0' && b[3] == 'm' && b[4..] == rest;
  }

  lemma ScreenMarked(mark: string, rest: string)
    requires ESC !in mark
    ensures Screen(REVERSE + mark + RESET + rest, false) == Cells(mark, true) + Screen(rest, false)
  {
    hide Screen;
    assert REVERSE + mark + RESET + rest == REVERSE + (mark + (RESET + rest));
    ScreenEscape(mark + (RESET + rest), false);
    ScreenText(mark, RESET + rest, true);
    ScreenEscape(rest, true);
  }

  /** The column belongs to an occurrence of "@h" that begins at `p` or later. */
  predicate InOccurrence(s: string, p: nat, k: nat, h: string) {
    exists q | p <= q <= k :: OccursAt(s, q, h) && k < q + 1 + |h|
  }

  function Shown(s: string, p: nat, h: string): (r: seq<Cell>)
    requires p <= |s|
    ensures |r| == |s| - p && forall k | 0 <= k < |r| :: r[k] == Cell(s[p + k], InOccurrence(s, p, p + k, h))
  {
    seq(|s| - p, k requires 0 <= k < |s| - p => Cell(s[p + k], InOccurrence(s, p, p + k, h)))
  }

  lemma ShownPlain(s: string, p: nat, h: string)
    requires p < |s| && !OccursAt(s, p, h)
    ensures Shown(s, p, h) == [Cell(s[p], false)] + Shown(s, p + 1, h)
  {
    hide OccursAt;
    forall k | p < k < |s| ensures InOccurrence(s, p, k, h) <==> InOccurrence(s, p + 1, k, h) {
    }
  }

  lemma ShownMarked(s: string, p: nat, h: string)
    requires IsHandle(h) && OccursAt(s, p, h) && p + 1 + |h| <= |s|
    ensures Shown(s, p, h) == Cells(s[p..p + 1 + |h|], true) + Shown(s, p + 1 + |h|, h)
  {
    var next := p + 1 + |h|;
    forall q | p < q < next ensures !OccursAt(s, q, h) {
      NoOccurrenceInside(s, p, q, h);
    }
    hide OccursAt, IsHandle;
    forall k | p <= k < next ensures InOccurrence(s, p, k, h) {
      assert OccursAt(s, p, h) && k < p + 1 + |h|;
    }
    forall k | next <= k < |s| ensures InOccurrence(s, p, k, h) <==> InOccurrence(s, next, k, h) {
      if InOccurrence(s, p, k, h) {
        var q :| p <= q <= k && OccursAt(s, q, h) && k < q + 1 + |h|;
        assert q >= next;
      }
    }
  }

  lemma {:induction false} ScreenFrom(s: string, p: nat, h: string)
    requires IsHandle(h) && p <= |s| && ESC !in s
    ensures Screen(Output(Pieces(s, p, h)), false) == Shown(s, p, h)
    decreases |s| - p
  {
    hide Screen, Output, Pieces, OccursAt, IsHandle;
    if p == |s| {
      NoPieces(s, p, h);
      assert Screen("", false) == [] by { NothingShown(); }
    } else {
      OnePiece(s, p, h);
      if OccursAt(s, p, h) {
        var next := p + 1 + |h|;
        ScreenMarked(s[p..next], Output(Pieces(s, next, h)));
        ScreenFrom(s, next, h);
        ShownMarked(s, p, h);
      } else {
        ScreenText([s[p]], Output(Pieces(s, p + 1, h)), false);
        ScreenFrom(s, p + 1, h);
        ShownPlain(s, p, h);
      }
    }
  }

  lemma NothingShown()
    ensures Screen("", false) == []
  {
  }

  /** The terminal shows the content, character by character, with exactly the occurrences of "@h" inverted. */
  lemma ScreenShows(content: string, handle: string)
    requires IsHandle(handle) && ESC !in content
    ensures var cells := Screen(Output(Pieces(content, 0, handle)), false);
            && |cells| == |content|
            && forall k | 0 <= k < |content| :: cells[k] == Cell(content[k], InOccurrence(content, 0, k, handle))
  {
    hide Screen, Output, Pieces, InOccurrence;
    ScreenFrom(content, 0, handle);
  }
}
