/** What the readers of participants and cursors make of any text, one entry after the other. */
module TableText {
  import opened Bytes
  import TextFile
  import Decimal
  import Numerals
  import opened Participants
  import Cursors

  // ---------- the participants of chat_file.c ----------

  predicate Only(s: string, chars: string) {
    forall i | 0 <= i < |s| :: s[i] in chars
  }

  predicate NoneOf(s: string, chars: string) {
    forall i | 0 <= i < |s| :: s[i] !in chars
  }

  /** A count is a number of up to 15 characters that an int can hold, and 0 for any other text. */
  ghost predicate CountIs(numeral: string, count: int) {
    if exists v :: IsCount(numeral, v) then IsCount(numeral, count) else count == 0
  }

  ghost predicate IsCount(numeral: string, v: int) {
    |numeral| < 16 && -0x8000_0000 <= v <= 0x7FFF_FFFF && Numerals.Numeral(numeral, v)
  }

  lemma CountRead(numeral: string)
    ensures CountIs(numeral, CountOf(numeral))
  {
    forall v ensures Decimal.Parse(numeral, INT_MIN, INT_MAX) == Some(v)
                     <==> Numerals.Numeral(numeral, v) && INT_MIN <= v <= INT_MAX {
      Numerals.ParseIff(numeral, INT_MIN, INT_MAX, v);
    }
    assert Decimal.Parse("", INT_MIN, INT_MAX) == None;
  }

  lemma {:induction false} SeparatorsSkipped(lead: string, t: string)
    requires Only(lead, " ,") && (t != "" ==> t[0] !in " ,")
    ensures SkipSeparators(lead + t) == t
  {
    if lead == "" {
      assert lead + t == t;
    } else {
      assert (lead + t)[1..] == lead[1..] + t;
      SeparatorsSkipped(lead[1..], t);
    }
  }

  lemma {:induction false} RunOver(s: string, rest: string, stop: char -> bool)
    requires (forall i | 0 <= i < |s| :: !stop(s[i])) && (rest != "" ==> stop(rest[0]))
    ensures Run(s + rest, stop) == |s|
  {
    if s == "" {
      assert s + rest == rest;
    } else {
      assert (s + rest)[1..] == s[1..] + rest;
      RunOver(s[1..], rest, stop);
    }
  }

  /** A handle as the reader takes it, behind its separators. */
  predicate IsName(h: string) {
    0 < |h| < 64 && h[0] != ' ' && NoneOf(h, "(,\n")
  }

  /** "handle(count)" behind any separators, and the list goes on behind the parenthesis. */
  lemma CountedEntry(lead: string, h: string, numeral: string, rest: string, max: nat)
    requires Only(lead, " ,") && IsName(h) && ')' !in numeral && max > 0
    ensures exists count :: CountIs(numeral, count)
              && Parse(lead + (h + ("(" + (numeral + (")" + rest)))), max)
                 == [Participant(h, count)] + Parse(rest, max - 1)
  {
    hide CountIs, Parse, ParseEntry, ParseCount, CountOf;
    CountRead(numeral);
    var tail := numeral + (")" + rest);
    CountClosed(numeral, rest);
    EntryAt(lead, h, tail);
    ParseOne(lead + (h + ("(" + tail)), Participant(h, CountOf(numeral)), rest, max);
  }

  lemma CountClosed(numeral: string, rest: string)
    requires ')' !in numeral
    ensures ParseCount(numeral + (")" + rest)) == (CountOf(numeral), rest)
  {
    var tail := numeral + (")" + rest);
    RunOver(numeral, ")" + rest, IsClose);
    assert tail[..|numeral|] == numeral && tail[|numeral| + 1..] == rest;
  }

  lemma CountUnclosed(numeral: string)
    requires ')' !in numeral
    ensures ParseCount(numeral) == (CountOf(numeral), "")
  {
    RunOver(numeral, "", IsClose);
    assert numeral + "" == numeral && numeral[..|numeral|] == numeral;
  }

  lemma ParseOne(s: string, p: Participant, rest: string, max: nat)
    requires s != "" && max > 0 && ParseEntry(s) == Some((p, rest))
    ensures Parse(s, max) == [p] + Parse(rest, max - 1)
  {
  }

  /** Without the closing parenthesis the rest of the text is the count. */
  lemma UnclosedEntry(lead: string, h: string, numeral: string, max: nat)
    requires Only(lead, " ,") && IsName(h) && ')' !in numeral && max > 0
    ensures exists count :: CountIs(numeral, count)
              && Parse(lead + (h + ("(" + numeral)), max) == [Participant(h, count)]
  {
    hide CountIs, ParseEntry, ParseCount, CountOf;
    CountRead(numeral);
    CountUnclosed(numeral);
    EntryAt(lead, h, numeral);
    ParseOne(lead + (h + ("(" + numeral)), Participant(h, CountOf(numeral)), "", max);
    assert [Participant(h, CountOf(numeral))] + Parse("", max - 1) == [Participant(h, CountOf(numeral))];
  }

  lemma EntryAt(lead: string, h: string, tail: string)
    requires Only(lead, " ,") && IsName(h)
    ensures var s := lead + (h + ("(" + tail));
            s != "" && ParseEntry(s) == Some((Participant(h, ParseCount(tail).0), ParseCount(tail).1))
  {
    hide ParseCount;
    var t := h + ("(" + tail);
    SeparatorsSkipped(lead, t);
    RunOver(h, "(" + tail, EndsHandle);
    assert t[|h|] == '(' && t[..|h|] == h && t[|h| + 1..] == tail;
  }

  /** A handle that ends at a comma, a line end or the end has the count 0. */
  lemma BareEntry(lead: string, h: string, rest: string, max: nat)
    requires Only(lead, " ,") && IsName(h) && (rest == "" || rest[0] == ',' || rest[0] == '\n') && max > 0
    ensures Parse(lead + (h + rest), max) == [Participant(h, 0)] + Parse(rest, max - 1)
  {
    var t := h + rest;
    SeparatorsSkipped(lead, t);
    RunOver(h, rest, EndsHandle);
    assert t[..|h|] == h && t[|h|..] == rest;
  }

  /** The list ends at the end of the line, at an empty handle and at one of 64 characters or more. */
  lemma ListEnds(lead: string, t: string, max: nat)
    requires Only(lead, " ,") && (t == "" || t[0] == '\n' || t[0] == '('
             || (|t| >= 64 && t[0] != ' ' && NoneOf(t[..64], "(,\n")))
    ensures Parse(lead + t, max) == []
  {
    SeparatorsSkipped(lead, t);
    if t != "" && t[0] != '\n' && t[0] != '(' {
      assert forall k | 0 <= k < 64 :: t[..64][k] == t[k];
    }
  }

  // ---------- the participants of bus_bridge.c ----------

  /** A stretch without a parenthesis, of which the bridge drops the blanks at both ends. */
  predicate IsStretch(lead: string, h: string, tail: string) {
    && Only(lead, " ") && Only(tail, " ") && '(' !in h
    && if h == "" then tail == "" else h[0] != ' ' && h[|h| - 1] != ' '
  }

  function Named(h: string, others: seq<string>): seq<string> {
    if 0 < |h| < 64 then [h] + others else others
  }

  lemma {:induction false} BlanksSkipped(lead: string, t: string)
    requires Only(lead, " ") && (t != "" ==> t[0] != ' ')
    ensures SkipBlanks(lead + t) == t
  {
    if lead == "" {
      assert lead + t == t;
    } else {
      assert (lead + t)[1..] == lead[1..] + t;
      BlanksSkipped(lead[1..], t);
    }
  }

  lemma {:induction false} BlanksTrimmed(h: string, tail: string)
    requires Only(tail, " ") && (h != "" ==> h[|h| - 1] != ' ')
    ensures TrimBlanks(h + tail) == h
  {
    if tail == "" {
      assert h + tail == h;
    } else {
      assert (h + tail)[..|h + tail| - 1] == h + tail[..|tail| - 1];
      BlanksTrimmed(h, tail[..|tail| - 1]);
    }
  }

  lemma StretchRead(lead: string, h: string, tail: string, more: string)
    requires IsStretch(lead, h, tail) && (more == "" || more[0] == '(') && h + tail + more != ""
    ensures BridgeEntry(lead + (h + tail + more))
            == Some((if 0 < |h| < 64 then Some(h) else None, if more == "" then "" else BridgeSkip(more)))
  {
    hide BridgeSkip;
    var t := h + tail + more;
    BlanksSkipped(lead, t);
    RunOver(h + tail, more, IsOpen);
    assert t[..|h + tail|] == h + tail && t[|h + tail|..] == more;
    BlanksTrimmed(h, tail);
  }

  /** "handle (anything)," and the rest; a handle that is empty or too long is left out and the list goes on. */
  lemma BridgeCounted(lead: string, h: string, tail: string, inner: string, rest: string, max: nat)
    requires IsStretch(lead, h, tail) && ')' !in inner && max > 0
    ensures var v := if rest != "" && rest[0] == ',' then rest[1..] else rest;
            BridgeParse(lead + (h + tail + ("(" + (inner + (")" + rest)))), max)
            == Named(h, BridgeParse(v, if 0 < |h| < 64 then max - 1 else max))
  {
    hide BridgeEntry;
    var more := "(" + (inner + (")" + rest));
    ParenthesesSkipped(inner, rest);
    StretchRead(lead, h, tail, more);
  }

  lemma ParenthesesSkipped(inner: string, rest: string)
    requires ')' !in inner
    ensures BridgeSkip("(" + (inner + (")" + rest))) == if rest != "" && rest[0] == ',' then rest[1..] else rest
  {
    var more := "(" + (inner + (")" + rest));
    assert more == ("(" + inner) + (")" + rest);
    RunOver("(" + inner, ")" + rest, IsClose);
    assert more[|inner| + 2..] == rest;
  }

  /** Without a closing parenthesis, or without any, the list ends behind this handle. */
  lemma BridgeLast(lead: string, h: string, tail: string, more: string, max: nat)
    requires IsStretch(lead, h, tail) && max > 0
    requires more == "" || (more[0] == '(' && ')' !in more)
    ensures BridgeParse(lead + (h + tail + more), max) == Named(h, [])
  {
    hide BridgeEntry, BridgeSkip;
    if h + tail + more == "" {
      BlanksOnly(lead);
      assert lead + (h + tail + more) == lead;
    } else {
      StretchRead(lead, h, tail, more);
      if more != "" {
        SkippedToEnd(more);
      }
    }
  }

  lemma BlanksOnly(lead: string)
    requires Only(lead, " ")
    ensures lead != "" ==> BridgeEntry(lead) == None
  {
    BlanksSkipped(lead, "");
    assert lead + "" == lead;
  }

  lemma SkippedToEnd(more: string)
    requires ')' !in more
    ensures BridgeSkip(more) == ""
  {
    RunOver(more, "", IsClose);
    assert more + "" == more;
  }

  // ---------- the cursor file ----------

  /** An entry for the handle, with the text of its value. */
  predicate EntryFor(chunk: string, handle: string, value: string) {
    chunk == handle + ("=" + value) && '=' !in handle && |handle| < 64 && chunk[0] !in "#\n"
  }

  lemma EntryIff(chunk: string, handle: string, value: string)
    ensures EntryFor(chunk, handle, value) <==> Cursors.KeyValue(chunk) == Some((handle, value))
  {
    hide Cursors.KeyValue, TextFile.Index;
    if EntryFor(chunk, handle, value) {
      EntryRead(chunk, handle, value);
    }
    if Cursors.KeyValue(chunk) == Some((handle, value)) {
      ReadEntry(chunk, handle, value);
    }
  }

  lemma EntryRead(chunk: string, handle: string, value: string)
    requires EntryFor(chunk, handle, value)
    ensures Cursors.KeyValue(chunk) == Some((handle, value))
  {
    assert forall k | 0 <= k < |handle| :: chunk[k] == handle[k] && handle[k] in handle;
    assert chunk[|handle|] == '=' && chunk[..|handle|] == handle && chunk[|handle| + 1..] == value;
    TextFile.IndexAt(chunk, '=', |handle|);
  }

  lemma ReadEntry(chunk: string, handle: string, value: string)
    requires Cursors.KeyValue(chunk) == Some((handle, value))
    ensures EntryFor(chunk, handle, value)
  {
    var eq := TextFile.Index(chunk, '=');
    assert chunk == chunk[..eq] + ("=" + chunk[eq + 1..]);
  }

  ghost predicate HasEntry(chunk: string, handle: string) {
    exists value :: EntryFor(chunk, handle, value)
  }

  /** Entry `i` is the first one for the handle. */
  ghost predicate FirstEntry(chunks: seq<string>, i: nat, handle: string, value: string) {
    i < |chunks| && EntryFor(chunks[i], handle, value) && forall j | 0 <= j < i :: !HasEntry(chunks[j], handle)
  }

  /**
   * Any cursor file: the value of the first entry for the handle if that is a number in the range of int, -2 if it is
   * not, and -1 without an entry.
   */
  lemma {:induction false} LookupIs(chunks: seq<string>, handle: string)
    ensures (forall i | 0 <= i < |chunks| :: !HasEntry(chunks[i], handle)) ==> Cursors.Lookup(chunks, handle) == -1
    ensures forall i: nat, value | FirstEntry(chunks, i, handle, value) ::
            ValueIs(value, Cursors.Lookup(chunks, handle))
  {
    if chunks != [] {
      LookupIs(chunks[1..], handle);
      forall value ensures EntryFor(chunks[0], handle, value)
        <==> Cursors.KeyValue(chunks[0]) == Some((handle, value)) {
        EntryIff(chunks[0], handle, value);
      }
      forall i: nat, value | FirstEntry(chunks, i, handle, value)
        ensures ValueIs(value, Cursors.Lookup(chunks, handle)) {
        if i == 0 {
          ValueRead(value);
        } else {
          assert !HasEntry(chunks[0], handle);
          assert FirstEntry(chunks[1..], i - 1, handle, value);
        }
      }
    }
  }

  ghost predicate IsIndex(value: string, n: int) {
    -0x8000_0000 <= n <= 0x7FFF_FFFF && Numerals.Numeral(value, n)
  }

  ghost predicate ValueIs(value: string, n: int) {
    if exists v :: IsIndex(value, v) then IsIndex(value, n) else n == -2
  }

  lemma ValueRead(value: string)
    ensures ValueIs(value, Cursors.IndexOr(value, -2))
  {
    forall v ensures Decimal.Parse(value, INT_MIN, INT_MAX) == Some(v) <==> IsIndex(value, v) {
      Numerals.ParseIff(value, INT_MIN, INT_MAX, v);
    }
  }

  /** What the rewriting loops keep of a line: nothing, or its entry, with 0 for a value that is no index. */
  ghost predicate LoadedIs(value: string, n: int) {
    if exists v :: IsIndex(value, v) then IsIndex(value, n) else n == 0
  }

  lemma LoadIs(chunk: string, rest: seq<string>, max: nat)
    requires max > 0
    ensures (forall handle :: !HasEntry(chunk, handle)) ==>
              Cursors.Load([chunk] + rest, max) == Cursors.Load(rest, max)
    ensures forall handle, value | EntryFor(chunk, handle, value) ::
              LoadedIs(value, Cursors.IndexOr(value, 0))
              && Cursors.Load([chunk] + rest, max)
                 == [Cursors.Cursor(handle, Cursors.IndexOr(value, 0))] + Cursors.Load(rest, max - 1)
  {
    hide Cursors.KeyValue, EntryFor, LoadedIs, Cursors.IndexOr;
    assert ([chunk] + rest)[1..] == rest;
    forall handle, value ensures EntryFor(chunk, handle, value) <==> Cursors.KeyValue(chunk) == Some((handle, value)) {
      EntryIff(chunk, handle, value);
    }
    forall value ensures LoadedIs(value, Cursors.IndexOr(value, 0)) { DefaultRead(value); }
    match Cursors.KeyValue(chunk)
    case Some(kv) => assert HasEntry(chunk, kv.0) by { assert EntryFor(chunk, kv.0, kv.1); }
    case None =>
  }

  lemma DefaultRead(value: string)
    ensures LoadedIs(value, Cursors.IndexOr(value, 0))
  {
    forall v ensures Decimal.Parse(value, INT_MIN, INT_MAX) == Some(v) <==> IsIndex(value, v) {
      Numerals.ParseIff(value, INT_MIN, INT_MAX, v);
    }
  }
}
