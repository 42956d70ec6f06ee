/** The header of a trimmed chat file always fits the buffer that chat_auto_archive has for it. */
module HeaderRoom {
  import opened Bytes
  import opened Limits
  import opened TextFile
  import opened Participants
  import opened ChatFile
  import Decimal

  /** The length of "%Y-%m-%dT%H:%M:%S%z" for years of four digits. */
  const STAMP_LENGTH: nat := 24

  const WEIGHT: nat := 100_000_000

  /** Long numerals stand for large numbers: 8 digits are free, each one more costs a hundred million. */
  lemma DigitsCost(n: nat)
    requires n <= INT_MAX
    ensures WEIGHT * |Decimal.Print(n)| <= 8 * WEIGHT + n
  {
    hide Decimal.Digits, Decimal.Pow10;
    Powers();
    if n < Decimal.Pow10(8) {
      Decimal.NumeralLength(n, 8, Decimal.Pow10(8));
    } else if n < Decimal.Pow10(9) {
      Decimal.NumeralLength(n, 9, Decimal.Pow10(9));
    } else {
      CountLength(n);
    }
  }

  lemma Powers()
    ensures Decimal.Pow10(8) == WEIGHT && Decimal.Pow10(9) == 10 * WEIGHT
  {
    assert Decimal.Pow10(8) == 1000 * Decimal.Pow10(5) && Decimal.Pow10(5) == 100000;
  }

  function SumCounts(ps: seq<Participant>): int {
    if ps == [] then 0 else ps[0].count + SumCounts(ps[1..])
  }

  lemma EntryCost(p: Participant)
    requires LegalEntry(p)
    ensures WEIGHT * |Entry(p)| <= 73 * WEIGHT + p.count
  {
    hide Decimal.Print, HandleChar;
    DigitsCost(p.count);
  }

  lemma {:induction false} FormatCost(ps: seq<Participant>)
    requires LegalTable(ps)
    ensures WEIGHT * |Format(ps)| <= 75 * WEIGHT * |ps| + SumCounts(ps)
  {
    hide Entry, LegalEntry;
    if ps != [] {
      EntryCost(ps[0]);
      FormatCost(ps[1..]);
      assert |Format(ps)| <= |Entry(ps[0])| + 2 + |Format(ps[1..])|;
    }
  }

  lemma {:induction false} SumReplace(ps: seq<Participant>, i: nat, p: Participant)
    requires i < |ps|
    ensures SumCounts(ps[i := p]) == SumCounts(ps) - ps[i].count + p.count
  {
    if i > 0 {
      assert ps[i := p][1..] == ps[1..][i - 1 := p];
      SumReplace(ps[1..], i - 1, p);
    } else {
      assert ps[i := p][1..] == ps[1..];
    }
  }

  lemma {:induction false} SumSnoc(ps: seq<Participant>, p: Participant)
    ensures SumCounts(ps + [p]) == SumCounts(ps) + p.count
  {
    if ps != [] {
      assert (ps + [p])[1..] == ps[1..] + [p];
      SumSnoc(ps[1..], p);
    } else {
      assert ps + [p] == [p] && [p][1..] == [];
    }
  }

  /** The participants together wrote no more messages than there are. */
  lemma {:induction false} TallySum(hs: seq<string>, max: nat)
    ensures SumCounts(Tally(hs, max)) <= |hs|
  {
    if hs != [] {
      var front, last := hs[..|hs| - 1], hs[|hs| - 1];
      var ps := Tally(front, max);
      TallySum(front, max);
      var i := IndexOf(ps, last);
      if i < |ps| {
        SumReplace(ps, i, Participant(last, ps[i].count + 1));
      } else {
        SumSnoc(ps, Participant(Truncate(last, MAX_HANDLE_LEN - 1), 1));
      }
    }
  }

  lemma FormatRoom(ps: seq<Participant>)
    requires LegalTable(ps) && |ps| * (MAX_HANDLE_LEN + 14) < PARTS_BUFFER && SumCounts(ps) <= INT_MAX
    ensures |Format(ps)| <= 3921
  {
    hide Format, LegalTable, SumCounts;
    FormatCost(ps);
    assert |ps| <= 52;
  }

  /** With fewer than 2^31 messages in all: whoever the authors are and however often each wrote. */
  lemma HeaderAlwaysFits(writer: string, stamp: string, hs: seq<string>)
    requires |writer| < MAX_HANDLE_LEN && |stamp| <= STAMP_LENGTH && |hs| <= INT_MAX
    requires var ps := Tally(hs, MAX_PARTICIPANTS); LegalTable(ps) && |ps| * (MAX_HANDLE_LEN + 14) < PARTS_BUFFER
    ensures HeaderFits(writer, stamp, Truncate(Format(Tally(hs, MAX_PARTICIPANTS)), PARTS_BUFFER - 1))
  {
    hide Format, LegalTable, SumCounts, Tally;
    TallySum(hs, MAX_PARTICIPANTS);
    FormatRoom(Tally(hs, MAX_PARTICIPANTS));
    HeaderSize(writer, stamp, Truncate(Format(Tally(hs, MAX_PARTICIPANTS)), PARTS_BUFFER - 1));
  }

  lemma HeaderSize(writer: string, stamp: string, parts: string)
    ensures |Unlines(BareLines(writer, stamp, parts, []))| == 63 + |writer| + |stamp| + |parts|
  {
    var a, b := ["last-writer: " + writer, "last-write: " + stamp], ["participants: " + parts, DELIMITER];
    assert BareLines(writer, stamp, parts, []) == [MARKER] + (a + b);
    LineSize(MARKER, a + b);
    assert a + b == [a[0]] + ([a[1]] + ([b[0]] + ([b[1]] + [])));
    LineSize(a[0], [a[1]] + ([b[0]] + ([b[1]] + [])));
    LineSize(a[1], [b[0]] + ([b[1]] + []));
    LineSize(b[0], [b[1]] + []);
    LineSize(b[1], []);
    hide Unlines;
    assert |MARKER| == 16 && |DELIMITER| == 3;
    NoLines();
  }

  lemma LineSize(line: string, rest: seq<string>)
    ensures |Unlines([line] + rest)| == |line| + 1 + |Unlines(rest)|
  {
    assert ([line] + rest)[1..] == rest;
  }

  lemma NoLines()
    ensures Unlines([]) == ""
  {
  }
}
