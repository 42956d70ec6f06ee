/** The participant table of a chat file header: src/nbs-chat/chat_file.c and the bridge's own parser. */
module Participants {
  import opened Bytes
  import opened Limits
  import Decimal

  datatype Participant = Participant(handle: string, count: int)

  predicate HandleChar(c: char) {
    c as int < 256 && c != NUL && c != CR && c != LF && c != '(' && c != ',' && c != '|' && c != '='
  }

  /** The handles the file formats can carry. */
  predicate LegalHandle(h: string) {
    && 0 < |h| < MAX_HANDLE_LEN
    && (forall i | 0 <= i < |h| :: HandleChar(h[i]))
    && (forall i | 0 <= i < |h| - 1 :: !(h[i] == ':' && h[i + 1] == ' '))
    && h[0] != ' ' && h[|h| - 1] != ' ' && h[0] != '#'
  }

  predicate LegalEntry(p: Participant) {
    LegalHandle(p.handle) && 0 <= p.count <= INT_MAX
  }

  predicate LegalTable(ps: seq<Participant>) {
    forall i | 0 <= i < |ps| :: LegalEntry(ps[i])
  }

  function Handles(ps: seq<Participant>): seq<string> {
    seq(|ps|, i requires 0 <= i < |ps| => ps[i].handle)
  }

  // ---------- printing ----------

  function Entry(p: Participant): string {
    p.handle + "(" + Decimal.Print(p.count) + ")"
  }

  /** "alice(3), bob(1)" */
  function Format(ps: seq<Participant>): string {
    if ps == [] then ""
    else if |ps| == 1 then Entry(ps[0])
    else Entry(ps[0]) + ", " + Format(ps[1..])
  }

  lemma {:induction false} FormatSnoc(ps: seq<Participant>, p: Participant)
    requires ps != []
    ensures Format(ps + [p]) == Format(ps) + ", " + Entry(p)
  {
    if |ps| > 1 {
      assert (ps + [p])[1..] == ps[1..] + [p];
      FormatSnoc(ps[1..], p);
    } else {
      assert (ps + [p])[1..] == [p];
    }
  }

  lemma {:induction false} FormatPrefix(ps: seq<Participant>, n: nat)
    requires n <= |ps|
    ensures Format(ps[..n]) <= Format(ps)
    ensures 0 < n < |ps| ==> Format(ps[..n]) + ", " <= Format(ps)
    decreases |ps| - n
  {
    if n < |ps| {
      if n > 0 {
        assert ps[..n + 1] == ps[..n] + [ps[n]];
        FormatSnoc(ps[..n], ps[n]);
      }
      FormatPrefix(ps, n + 1);
    } else {
      assert ps[..n] == ps;
    }
  }

  lemma TruncatePrefix(a: string, b: string, max: nat)
    requires a <= b && |a| >= max
    ensures Truncate(a, max) == Truncate(b, max)
  {
  }

  /**
   * format_participants: two snprintf calls per entry at a growing offset. The buffer ends up
   * with the whole list, or with as much of its front as fits.
   */
  method FormatParticipants(ps: seq<Participant>, bufSize: nat) returns (buf: string)
    requires bufSize > 0
    ensures buf == Truncate(Format(ps), bufSize - 1)
  {
    hide Entry, Format, Truncate;
    FormatShort(ps);
    buf := "";
    var i := 0;
    while i < |ps|
      invariant 0 <= i <= |ps| && |buf| < bufSize
      invariant buf == Format(ps[..i])
    {
      assert i > 0 ==> ps[..i + 1] == ps[..i] + [ps[i]];
      FormatPrefix(ps, i);
      FormatPrefix(ps, i + 1);
      if i > 0 {
        FormatSnoc(ps[..i], ps[i]);
        if 2 >= bufSize - |buf| {
          TruncatePrefix(buf + ", ", Format(ps), bufSize - 1);
          buf := Truncate(buf + ", ", bufSize - 1);
          return;
        }
        buf := buf + ", ";
      } else {
        assert ps[..i + 1] == [ps[i]];
      }
      var entry := Entry(ps[i]);
      if |entry| >= bufSize - |buf| {
        TruncatePrefix(buf + entry, Format(ps), bufSize - 1);
        buf := Truncate(buf + entry, bufSize - 1);
        return;
      }
      buf := buf + entry;
      i := i + 1;
    }
    assert ps[..i] == ps;
    TruncateWhole(buf, bufSize - 1);
  }

  lemma FormatShort(ps: seq<Participant>)
    ensures Format(ps[..0]) == "" && (ps != [] ==> Format([ps[0]]) == Entry(ps[0]))
  {
    hide Entry;
  }

  lemma TruncateWhole(s: string, max: nat)
    requires |s| <= max
    ensures Truncate(s, max) == s
  {
  }

  lemma CountLength(count: int)
    requires 0 <= count <= INT_MAX
    ensures |Decimal.Print(count)| <= 10
  {
    assert Decimal.Pow10(10) == 10 * Decimal.Pow10(9) == 100 * Decimal.Pow10(8) == 1000 * Decimal.Pow10(7)
      == 10000 * Decimal.Pow10(6) == 100000 * Decimal.Pow10(5);
    assert Decimal.Pow10(5) == 100000;
    Decimal.NumeralLength(count, 10, Decimal.Pow10(10));
  }

  lemma EntryLength(p: Participant)
    requires |p.handle| < MAX_HANDLE_LEN && 0 <= p.count <= INT_MAX
    ensures |Entry(p)| <= 75
  {
    CountLength(p.count);
  }

  lemma {:induction false} FormatLength(ps: seq<Participant>)
    requires forall i | 0 <= i < |ps| :: |ps[i].handle| < MAX_HANDLE_LEN && 0 <= ps[i].count <= INT_MAX
    ensures |Format(ps)| <= 77 * |ps|
  {
    if ps != [] {
      EntryLength(ps[0]);
      FormatLength(ps[1..]);
    }
  }

  /** chat_send's guard on the participant count keeps its 4096-byte buffer from truncating the list. */
  lemma GuardPreventsTruncation(ps: seq<Participant>)
    requires forall i | 0 <= i < |ps| :: |ps[i].handle| < MAX_HANDLE_LEN && 0 <= ps[i].count <= INT_MAX
    requires |ps| * (MAX_HANDLE_LEN + 14) < 4096
    ensures Truncate(Format(ps), 4095) == Format(ps)
  {
    FormatLength(ps);
  }

  // ---------- parsing, in chat_file.c ----------

  function SkipSeparators(s: string): (t: string)
    ensures |t| <= |s|
    ensures t != "" ==> t[0] != ' ' && t[0] != ','
  {
    if s != "" && (s[0] == ' ' || s[0] == ',') then SkipSeparators(s[1..]) else s
  }

  /** Length of the run of characters before the first one that `stop` holds of. */
  function Run(s: string, stop: char -> bool): (n: nat)
    ensures n <= |s| && forall i | 0 <= i < n :: !stop(s[i])
    ensures n < |s| ==> stop(s[n])
  {
    if s == "" || stop(s[0]) then 0 else 1 + Run(s[1..], stop)
  }

  predicate EndsHandle(c: char) { c == '(' || c == ',' || c == LF }
  predicate IsClose(c: char) { c == ')' }
  predicate IsOpen(c: char) { c == '(' }

  function CountOf(numeral: string): int {
    if 0 < |numeral| < 16 then
      match Decimal.Parse(numeral, INT_MIN, INT_MAX)
      case Some(v) => v
      case None => 0
    else 0
  }

  /** The count behind an opening parenthesis, and what is left behind the closing one. */
  function ParseCount(u: string): (r: (int, string))
    ensures |r.1| <= |u|
  {
    var m := Run(u, IsClose);
    (CountOf(u[..m]), if m < |u| then u[m + 1..] else "")
  }

  /** One entry and what is left behind it; None where the parser stops. */
  function ParseEntry(s: string): (r: Option<(Participant, string)>)
    ensures r.Some? ==> |r.value.1| < |s|
  {
    var t := SkipSeparators(s);
    if t == "" || t[0] == LF then None
    else
      var n := Run(t, EndsHandle);
      if n == 0 || n >= MAX_HANDLE_LEN then None
      else if n < |t| && t[n] == '(' then
        var c := ParseCount(t[n + 1..]);
        Some((Participant(t[..n], c.0), c.1))
      else Some((Participant(t[..n], 0), t[n..]))
  }

  function Parse(s: string, max: nat): seq<Participant>
    decreases |s|
  {
    if s == "" || max == 0 then []
    else
      match ParseEntry(s)
      case None => []
      case Some(e) => [e.0] + Parse(e.1, max - 1)
  }

  lemma {:induction false} RunAt(s: string, stop: char -> bool, n: nat)
    requires n <= |s| && (forall i | 0 <= i < n :: !stop(s[i])) && (n < |s| ==> stop(s[n]))
    ensures Run(s, stop) == n
  {
    if n > 0 {
      RunAt(s[1..], stop, n - 1);
    }
  }

  method ScanRun(line: string, start: nat, stop: char -> bool) returns (p: nat)
    requires start <= |line|
    ensures p == start + Run(line[start..], stop)
  {
    p := start;
    while p < |line| && !stop(line[p])
      invariant start <= p <= |line|
      invariant forall k | start <= k < p :: !stop(line[k])
    {
      p := p + 1;
    }
    RunAt(line[start..], stop, p - start);
  }

  method ScanSeparators(line: string, start: nat) returns (p: nat)
    requires start <= |line|
    ensures p <= |line| && line[p..] == SkipSeparators(line[start..])
  {
    p := start;
    while p < |line| && (line[p] == ' ' || line[p] == ',')
      invariant start <= p <= |line| && SkipSeparators(line[p..]) == SkipSeparators(line[start..])
    {
      assert line[p..][1..] == line[p + 1..];
      p := p + 1;
    }
  }

  method ScanCount(line: string, start: nat) returns (count: int, p: nat)
    requires start <= |line|
    ensures p <= |line| && ParseCount(line[start..]) == (count, line[p..])
  {
    hide CountOf;
    p := ScanRun(line, start, IsClose);
    assert line[start..][..p - start] == line[start..p];
    count := CountOf(line[start..p]);
    if p < |line| {
      assert line[start..][p - start + 1..] == line[p + 1..];
      p := p + 1;
    } else {
      assert line[p..] == "";
    }
  }

  /** One turn of the parse_participants loop. */
  method ScanEntry(line: string, from: nat) returns (entry: Option<Participant>, p: nat)
    requires from <= |line|
    ensures p <= |line|
    ensures match entry
            case None => ParseEntry(line[from..]) == None
            case Some(e) => ParseEntry(line[from..]) == Some((e, line[p..]))
  {
    hide ParseCount, SkipSeparators, EndsHandle, Run;
    var start := ScanSeparators(line, from);
    p := start;
    ghost var t := line[start..];
    if start == |line| || line[start] == LF { return None, p; }
    p := ScanRun(line, start, EndsHandle);
    var n := p - start;
    assert t[..n] == line[start..p] && t[n..] == line[p..];
    if n == 0 || n >= MAX_HANDLE_LEN { return None, p; }
    var handle, count := line[start..p], 0;
    if p < |line| && line[p] == '(' {
      assert t[n + 1..] == line[p + 1..];
      count, p := ScanCount(line, p + 1);
    }
    entry := Some(Participant(handle, count));
  }

  /** parse_participants: the pointer loop over the header line. */
  method ParseParticipants(line: string, parts: array<Participant>, maxParts: nat) returns (count: nat)
    requires maxParts <= parts.Length
    modifies parts
    ensures count <= maxParts && parts[..count] == Parse(line, maxParts)
  {
    hide ParseEntry;
    count := 0;
    var p := 0;
    assert line[p..] == line;
    while p < |line| && count < maxParts
      invariant 0 <= p <= |line| && count <= maxParts
      invariant parts[..count] + Parse(line[p..], maxParts - count) == Parse(line, maxParts)
      decreases |line| - p
    {
      var entry, next := ScanEntry(line, p);
      if entry == None { break; }
      ghost var done := parts[..count];
      parts[count] := entry.value;
      assert parts[..count + 1] == done + [entry.value];
      count, p := count + 1, next;
    }
  }

  // ---------- round trip ----------

  lemma HandleStops(h: string, rest: string)
    requires LegalHandle(h) && rest != "" && rest[0] == '('
    ensures Run(h + rest, EndsHandle) == |h| && Run(h + rest, IsOpen) == |h|
  {
    forall i | 0 <= i < |h| ensures !EndsHandle((h + rest)[i]) && !IsOpen((h + rest)[i]) {
      assert HandleChar(h[i]);
    }
    RunAt(h + rest, EndsHandle, |h|);
    RunAt(h + rest, IsOpen, |h|);
  }

  lemma CountRoundTrip(count: int)
    requires 0 <= count <= INT_MAX
    ensures CountOf(Decimal.Print(count)) == count
    ensures forall i | 0 <= i < |Decimal.Print(count)| :: !IsClose(Decimal.Print(count)[i])
  {
    CountLength(count);
    Decimal.ParsePrint(count, INT_MIN, INT_MAX, "");
    assert Decimal.Print(count) + "" == Decimal.Print(count);
    assert forall i | 0 <= i < |Decimal.Print(count)| :: IsDigit(Decimal.Print(count)[i]);
  }

  lemma CountParts(numeral: string, rest: string, u: string)
    requires u == numeral + (")" + rest) && (forall i | 0 <= i < |numeral| :: !IsClose(numeral[i]))
    ensures ParseCount(u) == (CountOf(numeral), rest)
  {
    hide CountOf;
    RunAt(u, IsClose, |numeral|);
    assert u[..|numeral|] == numeral && u[|numeral| + 1..] == rest;
  }

  /** The parser reads one entry and stops behind its parenthesis. */
  lemma EntryParts(h: string, numeral: string, rest: string, t: string)
    requires LegalHandle(h) && (forall i | 0 <= i < |numeral| :: !IsClose(numeral[i]))
    requires t == h + ("(" + (numeral + (")" + rest)))
    ensures ParseEntry(t) == Some((Participant(h, CountOf(numeral)), rest)) && SkipSeparators(t) == t
  {
    hide CountOf, ParseCount;
    var u := numeral + (")" + rest);
    HandleStops(h, "(" + u);
    assert HandleChar(t[0]);
    assert t[..|h|] == h && t[|h| + 1..] == u;
    CountParts(numeral, rest, u);
  }

  lemma EntryRoundTrip(p: Participant, rest: string)
    requires LegalEntry(p)
    ensures ParseEntry(Entry(p) + rest) == Some((p, rest))
    ensures ParseEntry(", " + Entry(p) + rest) == Some((p, rest))
  {
    hide CountOf, LegalHandle, ParseEntry, SkipSeparators, IsClose;
    var numeral, t := Decimal.Print(p.count), Entry(p) + rest;
    assert t == p.handle + ("(" + (numeral + (")" + rest)));
    CountRoundTrip(p.count);
    EntryParts(p.handle, numeral, rest, t);
    assert ", " + Entry(p) + rest == ", " + t;
    SeparatorSkipped(t);
  }

  lemma SeparatorSkipped(t: string)
    requires SkipSeparators(t) == t
    ensures SkipSeparators(", " + t) == t && ParseEntry(", " + t) == ParseEntry(t)
  {
    hide ParseCount, Run, EndsHandle;
    var s := ", " + t;
    assert s[1..] == " " + t && (" " + t)[1..] == t;
    assert SkipSeparators(s) == SkipSeparators(" " + t) == SkipSeparators(t);
    hide SkipSeparators;
  }

  /** What follows the first entry of a printed list. */
  function FormatRest(ps: seq<Participant>): string {
    if ps == [] then "" else ", " + Format(ps)
  }

  lemma {:induction false} ParseRest(ps: seq<Participant>, max: nat)
    requires LegalTable(ps) && |ps| <= max
    ensures Parse(FormatRest(ps), max) == ps
  {
    hide ParseEntry, LegalEntry, Entry;
    if ps != [] {
      var rest := FormatRest(ps[1..]);
      assert FormatRest(ps) == ", " + Entry(ps[0]) + rest;
      EntryRoundTrip(ps[0], rest);
      ParseRest(ps[1..], max - 1);
    }
  }

  /** parse_participants inverts format_participants on legal tables that fit. */
  lemma ParseFormat(ps: seq<Participant>, max: nat)
    requires LegalTable(ps) && |ps| <= max
    ensures Parse(Format(ps), max) == ps
  {
    hide ParseEntry, LegalEntry, Entry;
    if ps != [] {
      var rest := FormatRest(ps[1..]);
      assert Format(ps) == Entry(ps[0]) + rest;
      EntryRoundTrip(ps[0], rest);
      ParseRest(ps[1..], max - 1);
    }
  }

  // ---------- parsing, in bus_bridge.c ----------

  function SkipBlanks(s: string): (t: string)
    ensures |t| <= |s| && (t != "" ==> t[0] != ' ')
  {
    if s != "" && s[0] == ' ' then SkipBlanks(s[1..]) else s
  }

  function TrimBlanks(s: string): (t: string)
    ensures t <= s && (t != "" ==> t[|t| - 1] != ' ')
  {
    if s != "" && s[|s| - 1] == ' ' then TrimBlanks(s[..|s| - 1]) else s
  }

  function AfterClose(u: string): (v: string)
    ensures |v| <= |u|
  {
    var m := Run(u, IsClose);
    if m < |u| then u[m + 1..] else ""
  }

  function DropComma(v: string): (t: string)
    ensures |t| <= |v|
  {
    if v != "" && v[0] == ',' then v[1..] else v
  }

  /** What is left behind "(N)" and one comma. */
  function BridgeSkip(u: string): (v: string)
    ensures |v| <= |u|
  {
    DropComma(AfterClose(u))
  }

  /** One turn of the bridge's loop: a handle or nothing, and the text behind the entry. */
  function BridgeEntry(s: string): (r: Option<(Option<string>, string)>)
    ensures r.Some? ==> |r.value.1| < |s|
  {
    var t := SkipBlanks(s);
    if t == "" then None
    else
      var n := Run(t, IsOpen);
      var h := TrimBlanks(t[..n]);
      var handle := if 0 < |h| < MAX_HANDLE_LEN then Some(h) else None;
      Some((handle, if n < |t| then BridgeSkip(t[n..]) else ""))
  }

  function BridgeParse(s: string, max: nat): seq<string>
    decreases |s|
  {
    if s == "" || max == 0 then []
    else
      match BridgeEntry(s)
      case None => []
      case Some(e) =>
        if e.0.Some? then [e.0.value] + BridgeParse(e.1, max - 1) else BridgeParse(e.1, max)
  }

  method TrimEnd(s: string) returns (t: string)
    ensures t == TrimBlanks(s)
  {
    t := s;
    while t != "" && t[|t| - 1] == ' '
      invariant TrimBlanks(t) == TrimBlanks(s)
      decreases |t|
    {
      t := t[..|t| - 1];
    }
  }

  method ScanBlanks(line: string, start: nat) returns (p: nat)
    requires start <= |line|
    ensures p <= |line| && line[p..] == SkipBlanks(line[start..])
  {
    p := start;
    while p < |line| && line[p] == ' '
      invariant start <= p <= |line| && SkipBlanks(line[p..]) == SkipBlanks(line[start..])
    {
      assert line[p..][1..] == line[p + 1..];
      p := p + 1;
    }
  }

  method SkipClose(line: string, start: nat) returns (p: nat)
    requires start < |line| && line[start] == '('
    ensures start < p <= |line| && line[p..] == AfterClose(line[start..])
  {
    hide Run;
    ghost var u := line[start..];
    p := ScanRun(line, start, IsClose);
    if p < |line| {
      assert u[p - start + 1..] == line[p + 1..];
      p := p + 1;
    } else {
      assert line[p..] == "";
    }
  }

  /** Behind a handle: past "(N)" and one comma. */
  method SkipCount(line: string, start: nat) returns (p: nat)
    requires start < |line| && line[start] == '('
    ensures start < p <= |line| && line[p..] == BridgeSkip(line[start..])
  {
    hide AfterClose;
    p := SkipClose(line, start);
    if p < |line| && line[p] == ',' {
      assert line[p..][1..] == line[p + 1..];
      p := p + 1;
    }
  }

  /** One turn of the bridge's loop; `more` is false at the end of the line. */
  method ScanBridgeEntry(line: string, from: nat) returns (more: bool, handle: Option<string>, p: nat)
    requires from <= |line|
    ensures p <= |line|
    ensures BridgeEntry(line[from..]) == if more then Some((handle, line[p..])) else None
  {
    hide BridgeSkip, SkipBlanks, TrimBlanks, Run;
    var start := ScanBlanks(line, from);
    p := start;
    if start == |line| { return false, None, p; }
    p := ScanRun(line, start, IsOpen);
    assert line[start..][..p - start] == line[start..p] && line[start..][p - start..] == line[p..];
    var name := TrimEnd(line[start..p]);
    if p < |line| {
      p := SkipCount(line, p);
    } else {
      assert line[p..] == "";
    }
    more, handle := true, if 0 < |name| < MAX_HANDLE_LEN then Some(name) else None;
  }

  /** The bridge's pointer loop over the participants line. */
  method ReadChatParticipants(line: string, maxHandles: nat) returns (found: seq<string>)
    ensures found == BridgeParse(line, maxHandles) && |found| <= maxHandles
  {
    hide BridgeEntry;
    found := [];
    var p := 0;
    assert line[p..] == line;
    while p < |line| && |found| < maxHandles
      invariant 0 <= p <= |line| && |found| <= maxHandles
      invariant found + BridgeParse(line[p..], maxHandles - |found|) == BridgeParse(line, maxHandles)
      decreases |line| - p
    {
      var more, handle, next := ScanBridgeEntry(line, p);
      if !more { break; }
      p := next;
      if handle.Some? {
        found := found + [handle.value];
      }
    }
  }

  lemma BridgeSkips(numeral: string, rest: string, u: string)
    requires u == "(" + (numeral + (")" + rest)) && (forall i | 0 <= i < |numeral| :: !IsClose(numeral[i]))
    requires rest != "" ==> rest[0] == ','
    ensures BridgeSkip(u) == if rest == "" then "" else rest[1..]
  {
    forall i | 0 <= i < |numeral| + 1 ensures !IsClose(u[i]) {
      assert i > 0 ==> u[i] == numeral[i - 1];
    }
    RunAt(u, IsClose, |numeral| + 1);
    assert u[|numeral| + 2..] == rest;
  }

  lemma BridgeParts(h: string, u: string, t: string)
    requires LegalHandle(h) && u != "" && u[0] == '(' && t == h + u
    ensures BridgeEntry(t) == Some((Some(h), BridgeSkip(u))) && SkipBlanks(t) == t
  {
    hide BridgeSkip;
    HandleStops(h, u);
    assert HandleChar(t[0]);
    assert t[..|h|] == h && t[|h|..] == u;
    assert TrimBlanks(h) == h;
  }

  lemma BridgeBlank(t: string)
    requires SkipBlanks(t) == t
    ensures BridgeEntry(" " + t) == BridgeEntry(t)
  {
    hide BridgeSkip, TrimBlanks, Run;
    assert (" " + t)[1..] == t;
  }

  lemma BridgeEntryReads(p: Participant, rest: string, lead: string)
    requires LegalEntry(p) && (lead == "" || lead == " ") && (rest != "" ==> rest[0] == ',')
    ensures BridgeEntry(lead + (Entry(p) + rest)) == Some((Some(p.handle), if rest == "" then "" else rest[1..]))
  {
    hide LegalHandle, CountOf, IsClose, BridgeEntry, BridgeSkip, SkipBlanks;
    var numeral, t := Decimal.Print(p.count), Entry(p) + rest;
    var u := "(" + (numeral + (")" + rest));
    assert t == p.handle + u;
    CountRoundTrip(p.count);
    BridgeSkips(numeral, rest, u);
    BridgeParts(p.handle, u, t);
    BridgeBlank(t);
    assert "" + t == t;
  }

  lemma {:induction false} BridgeReadsRest(ps: seq<Participant>, max: nat, lead: string)
    requires LegalTable(ps) && |ps| <= max && (lead == "" || (lead == " " && ps != []))
    ensures BridgeParse(lead + Format(ps), max) == Handles(ps)
  {
    hide BridgeEntry, LegalEntry, Entry;
    if ps != [] {
      var rest := FormatRest(ps[1..]);
      assert Format(ps) == Entry(ps[0]) + rest;
      BridgeEntryReads(ps[0], rest, lead);
      if |ps| > 1 {
        assert rest[1..] == " " + Format(ps[1..]);
        BridgeReadsRest(ps[1..], max - 1, " ");
      }
      assert Handles(ps) == [ps[0].handle] + Handles(ps[1..]);
    } else {
      assert lead + Format(ps) == "";
    }
  }

  /** The bridge's independent parser finds the same handles on the same line. */
  lemma BridgeAgrees(ps: seq<Participant>, max: nat)
    requires LegalTable(ps) && |ps| <= max
    ensures BridgeParse(Format(ps), max) == Handles(Parse(Format(ps), max)) == Handles(ps)
  {
    assert "" + Format(ps) == Format(ps);
    BridgeReadsRest(ps, max, "");
    ParseFormat(ps, max);
  }

  // ---------- counting ----------

  /** Position of the entry of `handle`, or the length of the table. */
  function IndexOf(ps: seq<Participant>, handle: string): (i: nat)
    ensures i <= |ps| && (forall k | 0 <= k < i :: ps[k].handle != handle)
    ensures i < |ps| ==> ps[i].handle == handle
  {
    if ps == [] || ps[0].handle == handle then 0 else 1 + IndexOf(ps[1..], handle)
  }

  /** One more message by `handle`. A full table drops a handle it does not know. */
  function Update(ps: seq<Participant>, handle: string, max: nat): seq<Participant> {
    var i := IndexOf(ps, handle);
    if i < |ps| then ps[i := Participant(handle, ps[i].count + 1)]
    else if |ps| >= max then ps
    else ps + [Participant(Truncate(handle, MAX_HANDLE_LEN - 1), 1)]
  }

  method UpdateParticipants(parts: array<Participant>, count: nat, handle: string, maxParts: nat)
      returns (newCount: nat)
    requires count <= parts.Length && maxParts <= parts.Length
    modifies parts
    ensures newCount <= parts.Length && (count <= maxParts ==> newCount <= maxParts)
            && parts[..newCount] == Update(old(parts[..count]), handle, maxParts)
    ensures parts[newCount..] == old(parts[..])[newCount..]
  {
    ghost var before := parts[..count];
    var i := 0;
    while i < count
      invariant 0 <= i <= count
      invariant forall k | 0 <= k < i :: parts[k].handle != handle
      invariant parts[..] == old(parts[..])
    {
      if parts[i].handle == handle {
        assert before[i].handle == handle && IndexOf(before, handle) == i;
        parts[i] := parts[i].(count := parts[i].count + 1);
        return count;
      }
      i := i + 1;
    }
    if count >= maxParts { return count; }
    parts[count] := Participant(Truncate(handle, MAX_HANDLE_LEN - 1), 1);
    newCount := count + 1;
  }

  /** The distinct members of a list in the order of their first appearance. */
  function Distinct(hs: seq<string>): (d: seq<string>)
    ensures forall h :: h in d <==> h in hs
    ensures forall i, j | 0 <= i < j < |d| :: d[i] != d[j]
  {
    if hs == [] then []
    else
      var front, last := hs[..|hs| - 1], hs[|hs| - 1];
      assert hs == front + [last];
      if last in front then Distinct(front) else Distinct(front) + [last]
  }

  /** The table lists the authors of `hs` in order of first appearance, each with its number of messages. */
  ghost predicate IsHistogram(ps: seq<Participant>, hs: seq<string>, max: nat) {
    && Handles(ps) == Truncate(Distinct(hs), max)
    && forall i | 0 <= i < |ps| :: ps[i].count == multiset(hs)[ps[i].handle]
  }

  lemma DistinctSnoc(hs: seq<string>, h: string)
    ensures Distinct(hs + [h]) == if h in hs then Distinct(hs) else Distinct(hs) + [h]
  {
    assert (hs + [h])[..|hs|] == hs;
  }

  lemma CountSnoc(hs: seq<string>, h: string)
    ensures multiset(hs + [h])[h] == multiset(hs)[h] + 1
    ensures forall g | g != h :: multiset(hs + [h])[g] == multiset(hs)[g]
  {
  }

  lemma SameHandles(ps: seq<Participant>, names: seq<string>)
    requires Handles(ps) == names
    ensures |ps| == |names| && forall k | 0 <= k < |ps| :: ps[k].handle == names[k]
  {
    forall k | 0 <= k < |ps| ensures ps[k].handle == names[k] {
      assert Handles(ps)[k] == ps[k].handle;
    }
  }

  lemma KnownAuthor(ps: seq<Participant>, hs: seq<string>, h: string, max: nat)
    requires IsHistogram(ps, hs, max) && IndexOf(ps, h) < |ps|
    ensures IsHistogram(Update(ps, h, max), hs + [h], max)
  {
    hide Distinct, IndexOf;
    var i, d := IndexOf(ps, h), Distinct(hs);
    SameHandles(ps, Truncate(d, max));
    DistinctSnoc(hs, h);
    CountSnoc(hs, h);
    assert d[i] == h;
    var next := Update(ps, h, max);
    assert |next| == |ps| && next[i] == Participant(h, ps[i].count + 1);
    forall k | 0 <= k < |next| ensures next[k].handle == ps[k].handle
      && next[k].count == multiset(hs + [h])[next[k].handle] {
      if k != i {
        assert next[k] == ps[k] && d[k] != d[i];
      }
    }
    assert Handles(next) == Handles(ps);
  }

  lemma NewAuthor(ps: seq<Participant>, hs: seq<string>, h: string, max: nat)
    requires IsHistogram(ps, hs, max) && IndexOf(ps, h) == |ps| && |h| < MAX_HANDLE_LEN
    ensures IsHistogram(Update(ps, h, max), hs + [h], max)
  {
    hide Distinct, IndexOf;
    var d := Distinct(hs);
    SameHandles(ps, Truncate(d, max));
    DistinctSnoc(hs, h);
    CountSnoc(hs, h);
    if |ps| < max {
      assert h !in d;
      assert multiset(hs)[h] == 0;
      assert Handles(ps + [Participant(h, 1)]) == d + [h];
    } else {
      assert Truncate(Distinct(hs + [h]), max) == Truncate(d, max);
    }
  }

  /** Counting one more message keeps the histogram. */
  lemma UpdateKeepsHistogram(ps: seq<Participant>, hs: seq<string>, h: string, max: nat)
    requires IsHistogram(ps, hs, max) && |h| < MAX_HANDLE_LEN
    ensures IsHistogram(Update(ps, h, max), hs + [h], max)
  {
    hide *;
    if IndexOf(ps, h) < |ps| {
      KnownAuthor(ps, hs, h, max);
    } else {
      NewAuthor(ps, hs, h, max);
    }
  }

  /** The table that a list of messages leaves behind when it is counted from an empty one. */
  function Tally(hs: seq<string>, max: nat): seq<Participant> {
    if hs == [] then [] else Update(Tally(hs[..|hs| - 1], max), hs[|hs| - 1], max)
  }

  lemma {:induction false} TallyIsHistogram(hs: seq<string>, max: nat)
    requires forall i | 0 <= i < |hs| :: |hs[i]| < MAX_HANDLE_LEN
    ensures IsHistogram(Tally(hs, max), hs, max)
  {
    hide Update;
    if hs != [] {
      var front, last := hs[..|hs| - 1], hs[|hs| - 1];
      TallyIsHistogram(front, max);
      UpdateKeepsHistogram(Tally(front, max), front, last, max);
      assert front + [last] == hs;
    } else {
      assert Handles([]) == [];
    }
  }

  /** Two tables that count the same messages are the same table. */
  lemma HistogramUnique(ps: seq<Participant>, qs: seq<Participant>, hs: seq<string>, max: nat)
    requires IsHistogram(ps, hs, max) && IsHistogram(qs, hs, max)
    ensures ps == qs
  {
    hide Distinct;
    SameHandles(ps, Handles(qs));
  }
}
