/**
 * The participants header when its buffer is too short for it: what the parser makes of the front of a printed
 * table.
 */
module CutTable {
  import opened Bytes
  import opened Participants
  import Decimal

  predicate Counted(ps: seq<Participant>) {
    forall i | 0 <= i < |ps| :: ps[i].count >= 1
  }

  /** Leaving off digits makes a number smaller. */
  lemma {:induction false} FewerDigits(n: nat, j: nat)
    requires n >= 1 && 0 < j < |Decimal.Digits(n)|
    ensures Decimal.AllDigits(Decimal.Digits(n)[..j]) && Decimal.Value(Decimal.Digits(n)[..j]) < n
  {
    var front := Decimal.Digits(n / 10);
    assert Decimal.Digits(n) == front + [Decimal.DigitChar(n % 10)];
    if j == |front| {
      assert Decimal.Digits(n)[..j] == front;
      Decimal.ValueDigits(n / 10);
    } else {
      assert Decimal.Digits(n)[..j] == front[..j];
      FewerDigits(n / 10, j);
    }
  }

  lemma CutCount(count: int, j: nat)
    requires 1 <= count <= INT_MAX && j < |Decimal.Print(count)|
    ensures CountOf(Decimal.Print(count)[..j]) < count
  {
    hide Decimal.Parse, Decimal.Digits, Decimal.Value;
    CountLength(count);
    if j > 0 {
      var d := Decimal.Print(count)[..j];
      FewerDigits(count, j);
      Decimal.ParseDigits(d, "", INT_MIN, INT_MAX);
      assert d + "" == d;
    }
  }

  /** An entry that ends within its handle has no count. */
  lemma CutHandle(p: Participant, k: nat)
    requires LegalEntry(p) && 0 < k <= |p.handle|
    ensures ParseEntry(p.handle[..k]) == Some((Participant(p.handle[..k], 0), ""))
  {
    var t := p.handle[..k];
    assert forall i | 0 <= i < k :: HandleChar(p.handle[i]) && t[i] == p.handle[i];
    assert SkipSeparators(t) == t;
    RunAt(t, EndsHandle, k);
    assert t[..k] == t && t[k..] == "";
  }

  lemma CutNumeral(p: Participant, j: nat)
    requires LegalEntry(p) && j <= |Decimal.Print(p.count)|
    ensures var t := p.handle + ("(" + Decimal.Print(p.count)[..j]);
            SkipSeparators(t) == t && ParseEntry(t)
              == Some((Participant(p.handle, CountOf(Decimal.Print(p.count)[..j])), ""))
  {
    hide CountOf, Decimal.Print;
    var d := Decimal.Print(p.count)[..j];
    var t := p.handle + ("(" + d);
    CountRoundTrip(p.count);
    HandleStops(p.handle, "(" + d);
    assert HandleChar(t[0]);
    assert t[..|p.handle|] == p.handle && t[|p.handle| + 1..] == d;
    RunAt(d, IsClose, |d|);
    assert d[..|d|] == d;
  }

  /** The front of an entry reads as another entry, unless nothing but its parenthesis is missing. */
  lemma CutEntry(p: Participant, k: nat)
    requires LegalEntry(p) && p.count >= 1 && 0 < k < |Entry(p)|
    ensures var t := Entry(p)[..k];
            && SkipSeparators(t) == t && ParseEntry(t).Some? && ParseEntry(t).value.1 == ""
            && (ParseEntry(t).value.0 == p <==> k == |Entry(p)| - 1)
  {
    hide ParseEntry, CountOf, Decimal.Print, SkipSeparators;
    var t, numeral := Entry(p)[..k], Decimal.Print(p.count);
    if k <= |p.handle| {
      assert t == p.handle[..k];
      CutHandle(p, k);
      StartsPlain(p, k);
    } else {
      var j := k - |p.handle| - 1;
      assert t == p.handle + ("(" + numeral[..j]);
      CutNumeral(p, j);
      if j < |numeral| {
        CutCount(p.count, j);
      } else {
        assert numeral[..j] == numeral;
        CountRoundTrip(p.count);
      }
    }
  }

  lemma StartsPlain(p: Participant, k: nat)
    requires LegalEntry(p) && 0 < k <= |p.handle|
    ensures SkipSeparators(p.handle[..k]) == p.handle[..k]
  {
    assert HandleChar(p.handle[0]);
  }

  lemma SeparatorsOnly(n: nat)
    requires n <= 2
    ensures forall max: nat :: Parse(", "[..n], max) == []
  {
    var s := ", "[..n];
    assert n == 2 ==> s == ", " && s[1..] == " " && s[1..][1..] == "";
    assert n == 1 ==> s == "," && s[1..] == "";
    assert SkipSeparators("") == "";
    assert SkipSeparators(s) == "";
  }

  lemma OneEntry(s: string, max: nat, ps: seq<Participant>)
    requires s != "" && max > 0 && ps != [] && ParseEntry(s).Some? && ParseEntry(s).value.1 == ""
    ensures Parse(s, max) == ps <==> ps == [ParseEntry(s).value.0]
  {
    hide ParseEntry;
    assert Parse(s, max) == [ParseEntry(s).value.0] + Parse("", max - 1);
  }

  lemma WholeEntry(s: string, more: string, max: nat, ps: seq<Participant>)
    requires s != "" && max > 0 && ps != [] && ParseEntry(s) == Some((ps[0], more))
    ensures Parse(s, max) == ps <==> Parse(more, max - 1) == ps[1..]
  {
    hide ParseEntry;
    assert Parse(s, max)[1..] == Parse(more, max - 1);
    assert ps == [ps[0]] + ps[1..];
  }

  lemma EntryLonger(p: Participant)
    ensures |Entry(p)| >= 3
  {
  }

  /** The cut is within the first entry. */
  lemma CutInside(lead: string, ps: seq<Participant>, k: nat, max: nat)
    requires (lead == "" || lead == ", ") && ps != [] && LegalEntry(ps[0]) && ps[0].count >= 1
             && 0 < k < |Entry(ps[0])| && max > 0
    ensures Parse(lead + Entry(ps[0])[..k], max) == ps <==> |ps| == 1 && k == |Entry(ps[0])| - 1
  {
    hide ParseEntry, LegalEntry, Entry, SkipSeparators, Parse;
    var front := Entry(ps[0])[..k];
    CutEntry(ps[0], k);
    SeparatorSkipped(front);
    assert "" + front == front;
    OneEntry(lead + front, max, ps);
  }

  /** It is behind the first entry. */
  lemma CutBehind(lead: string, ps: seq<Participant>, more: string, max: nat)
    requires (lead == "" || lead == ", ") && ps != [] && LegalEntry(ps[0]) && max > 0
    ensures Parse(lead + Entry(ps[0]) + more, max) == ps <==> Parse(more, max - 1) == ps[1..]
  {
    hide ParseEntry, LegalEntry, Entry, SkipSeparators, Parse;
    EntryLonger(ps[0]);
    EntryRoundTrip(ps[0], more);
    assert "" + Entry(ps[0]) + more == Entry(ps[0]) + more;
    WholeEntry(lead + Entry(ps[0]) + more, more, max, ps);
  }

  lemma RestParts(ps: seq<Participant>)
    requires ps != []
    ensures Format(ps) == "" + Entry(ps[0]) + FormatRest(ps[1..])
            && FormatRest(ps) == ", " + Entry(ps[0]) + FormatRest(ps[1..])
    ensures |ps| > 1 ==> |FormatRest(ps[1..])| >= 2
  {
    hide Entry;
    var entry, rest := Entry(ps[0]), FormatRest(ps[1..]);
    assert Format(ps) == entry + rest && "" + entry == entry;
    assert FormatRest(ps) == ", " + (entry + rest) == ", " + entry + rest;
  }

  lemma TextCut(lead: string, entry: string, rest: string, n: nat)
    requires n <= |lead + entry + rest|
    ensures n <= |lead| ==> (lead + entry + rest)[..n] == lead[..n]
    ensures |lead| < n < |lead| + |entry| ==> (lead + entry + rest)[..n] == lead + entry[..n - |lead|]
    ensures n >= |lead| + |entry| ==>
              && n - |lead| - |entry| <= |rest|
              && (lead + entry + rest)[..n] == lead + entry + rest[..n - |lead| - |entry|]
  {
  }

  predicate Survives(text: string, n: nat, ps: seq<Participant>, max: nat)
    requires n <= |text|
  {
    Parse(text[..n], max) == ps <==> n + 1 >= |text|
  }

  /** A table cut anywhere, when the same holds of the table behind its first entry. */
  lemma CutFirst(lead: string, ps: seq<Participant>, n: nat, max: nat)
    requires (lead == "" || lead == ", ") && ps != [] && LegalEntry(ps[0]) && ps[0].count >= 1 && max > 0
    requires |ps| > 1 ==> |FormatRest(ps[1..])| >= 2
    requires n <= |lead + Entry(ps[0]) + FormatRest(ps[1..])|
    requires n >= |lead| + |Entry(ps[0])|
             ==> Survives(FormatRest(ps[1..]), n - |lead| - |Entry(ps[0])|, ps[1..], max - 1)
    ensures Survives(lead + Entry(ps[0]) + FormatRest(ps[1..]), n, ps, max)
  {
    hide LegalEntry, Entry, Parse, FormatRest;
    var entry, rest := Entry(ps[0]), FormatRest(ps[1..]);
    TextCut(lead, entry, rest, n);
    EntryLonger(ps[0]);
    if n <= |lead| {
      SeparatorsOnly(n);
      assert lead[..n] == ", "[..n];
    } else if n < |lead| + |entry| {
      CutInside(lead, ps, n - |lead|, max);
      NothingBehind(ps);
    } else {
      CutBehind(lead, ps, rest[..n - |lead| - |entry|], max);
    }
  }

  lemma NothingBehind(ps: seq<Participant>)
    ensures |ps| == 1 ==> FormatRest(ps[1..]) == ""
  {
  }

  /** A table behind a separator. */
  lemma {:induction false} CutRest(ps: seq<Participant>, n: nat, max: nat)
    requires LegalTable(ps) && Counted(ps) && |ps| <= max && n <= |FormatRest(ps)|
    ensures Survives(FormatRest(ps), n, ps, max)
  {
    hide LegalEntry, Entry, Survives, FormatRest;
    if ps == [] {
      NothingCut(n, max);
    } else {
      RestParts(ps);
      EntryLonger(ps[0]);
      if n >= 2 + |Entry(ps[0])| {
        CutRest(ps[1..], n - 2 - |Entry(ps[0])|, max - 1);
      }
      CutFirst(", ", ps, n, max);
    }
  }

  lemma NothingCut(n: nat, max: nat)
    requires n <= |FormatRest([])|
    ensures Survives(FormatRest([]), n, [], max)
  {
  }

  /**
   * The front of a printed table, in which every participant has written something, reads back as the
   * whole table exactly when nothing more than its last parenthesis is missing.
   */
  lemma CutFormat(ps: seq<Participant>, n: nat, max: nat)
    requires LegalTable(ps) && Counted(ps) && |ps| <= max && n <= |Format(ps)|
    ensures Parse(Format(ps)[..n], max) == ps <==> n + 1 >= |Format(ps)|
  {
    hide LegalEntry, Entry, FormatRest, Format, Parse;
    if ps == [] {
      NothingFormatted(max);
    } else {
      RestParts(ps);
      if n >= |Entry(ps[0])| {
        CutRest(ps[1..], n - |Entry(ps[0])|, max - 1);
      }
      CutFirst("", ps, n, max);
    }
  }

  lemma NothingFormatted(max: nat)
    ensures Format([]) == "" && Parse("", max) == []
  {
  }
}
