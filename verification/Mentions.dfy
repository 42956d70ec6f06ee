/**
 * Where a message mentions whom: the extraction for bus events (src/nbs-chat/bus_bridge.c), the /mention
 * filter (src/nbs-chat/terminal.c) and the highlighting (src/nbs-chat/render.c) on one notion of mention.
 */
module Mentions {
  import opened Bytes
  import opened Limits
  import opened TextFile
  import Participants

  const REVERSE: string := [27 as char] + "[7m"
  const RESET: string := [27 as char] + "[0m"

  predicate IsHandleChar(c: char) {
    IsAlnum(c) || c == '_' || c == '-'
  }

  predicate IsEmailPrefix(c: char) {
    IsAlnum(c) || c == '.' || c == '_' || c == '-' || c == '+'
  }

  predicate IsHandle(h: string) {
    0 < |h| < MAX_HANDLE_LEN && forall i | 0 <= i < |h| :: IsHandleChar(h[i])
  }

  // ---------- what a mention is ----------

  /** An "@" that cannot belong to an e-mail address. */
  predicate MarkAt(s: string, p: nat) {
    p < |s| && s[p] == '@' && !(p > 0 && IsEmailPrefix(s[p - 1]))
  }

  /** The end of the handle characters from `p` on. */
  function HandleEnd(s: string, p: nat): (e: nat)
    requires p <= |s|
    ensures p <= e <= |s| && (forall k | p <= k < e :: IsHandleChar(s[k])) && (e < |s| ==> !IsHandleChar(s[e]))
    decreases |s| - p
  {
    if p < |s| && IsHandleChar(s[p]) then HandleEnd(s, p + 1) else p
  }

  predicate Follows(s: string, p: nat, c: char) {
    p < |s| && s[p] == c
  }

  /** How urgent the mention is: 2 for a query, 1 for an interrupt, else 0; a backslash may stand in between. */
  function Flag(s: string, e: nat): (f: nat)
    ensures f <= 2
  {
    if Follows(s, e, '!') || (Follows(s, e, '\\') && Follows(s, e + 1, '!')) then 1
    else if Follows(s, e, '?') || (Follows(s, e, '\\') && Follows(s, e + 1, '?')) then 2
    else 0
  }

  datatype Mention = Mention(handle: string, flag: nat)

  function MentionAt(s: string, p: nat): Option<Mention> {
    if !MarkAt(s, p) then None
    else
      var e := HandleEnd(s, p + 1);
      if 0 < e - (p + 1) < MAX_HANDLE_LEN then Some(Mention(s[p + 1..e], Flag(s, e))) else None
  }

  /** All mentions from `p` on. */
  function MentionsFrom(s: string, p: nat): seq<Mention>
    decreases |s| - p
  {
    if p >= |s| then []
    else (match MentionAt(s, p) case Some(m) => [m] case None => []) + MentionsFrom(s, p + 1)
  }

  function Names(ms: seq<Mention>): (r: seq<string>)
    ensures |r| == |ms| && forall i | 0 <= i < |r| :: r[i] == ms[i].handle
  {
    seq(|ms|, i requires 0 <= i < |ms| => ms[i].handle)
  }

  // ---------- extraction ----------

  function IndexOf(found: seq<Mention>, handle: string): (i: nat)
    ensures i <= |found| && (forall k | 0 <= k < i :: found[k].handle != handle)
    ensures i < |found| ==> found[i].handle == handle
  {
    if found == [] || found[0].handle == handle then 0 else 1 + IndexOf(found[1..], handle)
  }

  /** A handle found again keeps its place and the higher flag. */
  function Note(found: seq<Mention>, m: Mention): (r: seq<Mention>)
    ensures |found| <= |r| <= |found| + 1
  {
    var i := IndexOf(found, m.handle);
    if i == |found| then found + [m]
    else if m.flag > found[i].flag then found[i := m]
    else found
  }

  function Capped(found: seq<Mention>, ms: seq<Mention>, max: nat): seq<Mention>
    decreases |ms|
  {
    if |found| >= max || ms == [] then found else Capped(Note(found, ms[0]), ms[1..], max)
  }

  lemma {:induction false} NoMarkInside(s: string, p: nat, e: nat)
    requires p <= e <= |s| && forall k | p <= k < e :: IsHandleChar(s[k])
    ensures MentionsFrom(s, p) == MentionsFrom(s, e)
    decreases e - p
  {
    if p < e {
      assert !IsHandleChar('@');
      assert MentionAt(s, p) == None;
      NoMarkInside(s, p + 1, e);
    }
  }

  method SkipHandle(s: string, start: nat) returns (end: nat)
    requires start <= |s|
    ensures end == HandleEnd(s, start)
  {
    end := start;
    while end < |s| && IsHandleChar(s[end])
      invariant start <= end <= |s| && HandleEnd(s, end) == HandleEnd(s, start)
    {
      end := end + 1;
    }
  }

  /** The duplicate check: upgrade an old entry or add a new one. */
  method NoteMention(found: seq<Mention>, m: Mention) returns (r: seq<Mention>)
    ensures r == Note(found, m)
  {
    var i := 0;
    while i < |found|
      invariant 0 <= i <= |found| && forall k | 0 <= k < i :: found[k].handle != m.handle
    {
      if found[i].handle == m.handle {
        assert IndexOf(found, m.handle) == i;
        if m.flag > found[i].flag {
          return found[i := found[i].(flag := m.flag)];
        }
        return found;
      }
      i := i + 1;
    }
    r := found + [m];
  }

  lemma MentionsStep(s: string, p: nat)
    requires p < |s|
    ensures MentionsFrom(s, p)
         == match MentionAt(s, p)
            case Some(m) => [m] + MentionsFrom(s, p + 1)
            case None => MentionsFrom(s, p + 1)
  {
    assert [] + MentionsFrom(s, p + 1) == MentionsFrom(s, p + 1);
  }

  lemma CappedStep(found: seq<Mention>, m: Mention, rest: seq<Mention>, max: nat)
    requires |found| < max
    ensures Capped(found, [m] + rest, max) == Capped(Note(found, m), rest, max)
  {
    assert ([m] + rest)[1..] == rest;
  }

  lemma CappedStops(found: seq<Mention>, rest: seq<Mention>, max: nat)
    requires |found| >= max || rest == []
    ensures Capped(found, rest, max) == found
  {
  }

  lemma NoMoreMentions(s: string, p: nat)
    ensures p >= |s| ==> MentionsFrom(s, p) == []
  {
  }

  /** bus_extract_mentions: the pointer scan, which stops as soon as the table is full. */
  method ExtractMentions(message: string, maxHandles: nat) returns (found: seq<Mention>)
    requires maxHandles > 0
    ensures found == Capped([], MentionsFrom(message, 0), maxHandles)
  {
    hide Note, IsEmailPrefix, IsHandleChar, Flag, Capped, MentionsFrom;
    found := [];
    var p := 0;
    while p < |message| && |found| < maxHandles
      invariant p <= |message|
      invariant Capped(found, MentionsFrom(message, p), maxHandles) == Capped([], MentionsFrom(message, 0), maxHandles)
      decreases |message| - p
    {
      MentionsStep(message, p);
      if message[p] != '@' {
        p := p + 1;
        continue;
      }
      if p > 0 && IsEmailPrefix(message[p - 1]) {
        p := p + 1;
        continue;
      }
      var start := p + 1;
      if !(start < |message| && IsHandleChar(message[start])) {
        p := p + 1;
        continue;
      }
      var end := SkipHandle(message, start);
      NoMarkInside(message, start, end);
      if end - start >= MAX_HANDLE_LEN {
        p := end;
        continue;
      }
      var mention := Mention(message[start..end], Flag(message, end));
      CappedStep(found, mention, MentionsFrom(message, start), maxHandles);
      found := NoteMention(found, mention);
      p := end;
    }
    NoMoreMentions(message, p);
    CappedStops(found, MentionsFrom(message, p), maxHandles);
  }

  // ---------- what the extraction means ----------

  function NoteAll(ms: seq<Mention>): seq<Mention> {
    if ms == [] then [] else Note(NoteAll(ms[..|ms| - 1]), ms[|ms| - 1])
  }

  /** The most urgent flag with which the handle occurs. */
  function TopFlag(ms: seq<Mention>, handle: string): nat {
    if ms == [] then 0
    else
      var last, rest := ms[|ms| - 1], TopFlag(ms[..|ms| - 1], handle);
      if last.handle == handle && last.flag > rest then last.flag else rest
  }

  /** The distinct handles in the order of their first mention, each with its most urgent flag. */
  ghost predicate Summary(found: seq<Mention>, ms: seq<Mention>) {
    && Names(found) == Participants.Distinct(Names(ms))
    && forall i | 0 <= i < |found| :: found[i].flag == TopFlag(ms, found[i].handle)
  }

  lemma {:induction false} NeverMentioned(ms: seq<Mention>, handle: string)
    requires handle !in Names(ms)
    ensures TopFlag(ms, handle) == 0
  {
    if ms != [] {
      var front := ms[..|ms| - 1];
      assert Names(ms)[|ms| - 1] == ms[|ms| - 1].handle;
      assert forall i | 0 <= i < |front| :: Names(ms)[i] == Names(front)[i];
      NeverMentioned(front, handle);
    }
  }

  lemma NamedIff(found: seq<Mention>, handle: string)
    ensures handle in Names(found) <==> IndexOf(found, handle) < |found|
  {
    var i := IndexOf(found, handle);
    assert i < |found| ==> Names(found)[i] == handle;
    if handle in Names(found) {
      var k :| 0 <= k < |found| && Names(found)[k] == handle;
    }
  }

  lemma KnownSummary(found: seq<Mention>, front: seq<Mention>, m: Mention)
    requires Summary(found, front) && IndexOf(found, m.handle) < |found|
    ensures Names(Note(found, m)) == Names(found)
    ensures forall k | 0 <= k < |found| :: Note(found, m)[k].flag == TopFlag(front + [m], found[k].handle)
  {
    hide Participants.Distinct;
    var ms, i := front + [m], IndexOf(found, m.handle);
    assert ms[..|ms| - 1] == front;
    DistinctNames(found, Names(front), i);
  }

  lemma NewSummary(found: seq<Mention>, front: seq<Mention>, m: Mention)
    requires Summary(found, front) && IndexOf(found, m.handle) == |found| && m.handle !in Names(front)
    ensures Note(found, m) == found + [m] && TopFlag(front + [m], m.handle) == m.flag
    ensures forall k | 0 <= k < |found| :: found[k].flag == TopFlag(front + [m], found[k].handle)
  {
    hide Participants.Distinct;
    assert (front + [m])[..|front|] == front;
    NeverMentioned(front, m.handle);
  }

  lemma NoteSummary(found: seq<Mention>, front: seq<Mention>, m: Mention)
    requires Summary(found, front)
    ensures Summary(Note(found, m), front + [m])
  {
    hide Participants.Distinct, Note, TopFlag, IndexOf;
    assert Names(front + [m]) == Names(front) + [m.handle];
    Participants.DistinctSnoc(Names(front), m.handle);
    NamedIff(found, m.handle);
    if IndexOf(found, m.handle) < |found| {
      KnownSummary(found, front, m);
      assert forall k | 0 <= k < |found| :: Names(Note(found, m))[k] == Names(found)[k];
    } else {
      NewSummary(found, front, m);
      assert Names(found + [m]) == Names(found) + [m.handle];
    }
  }

  lemma DistinctNames(found: seq<Mention>, names: seq<string>, i: nat)
    requires Names(found) == Participants.Distinct(names) && i < |found|
    ensures forall k | 0 <= k < |found| && k != i :: found[k].handle != found[i].handle
  {
    forall k | 0 <= k < |found| && k != i ensures found[k].handle != found[i].handle {
      assert Names(found)[k] == found[k].handle && Names(found)[i] == found[i].handle;
    }
  }

  lemma {:induction false} NoteAllSummary(ms: seq<Mention>)
    ensures Summary(NoteAll(ms), ms)
  {
    hide Note, Summary;
    if ms != [] {
      NoteAllSummary(ms[..|ms| - 1]);
      NoteSummary(NoteAll(ms[..|ms| - 1]), ms[..|ms| - 1], ms[|ms| - 1]);
      assert ms[..|ms| - 1] + [ms[|ms| - 1]] == ms;
    } else {
      EmptySummary();
    }
  }

  lemma EmptySummary()
    ensures Summary([], [])
  {
    assert Names([]) == [];
  }

  lemma {:induction false} DistinctGrows(a: seq<string>, b: seq<string>)
    ensures Participants.Distinct(a) <= Participants.Distinct(a + b)
    decreases |b|
  {
    if b != [] {
      DistinctGrows(a, b[..|b| - 1]);
      assert a + b == (a + b[..|b| - 1]) + [b[|b| - 1]];
      Participants.DistinctSnoc(a + b[..|b| - 1], b[|b| - 1]);
    } else {
      assert a + b == a;
    }
  }

  /** As long as there is room, the table is that of all mentions. */
  lemma {:induction false} CappedIsAll(a: seq<Mention>, b: seq<Mention>, max: nat)
    requires |Participants.Distinct(Names(a + b))| < max
    ensures Capped(NoteAll(a), b, max) == NoteAll(a + b)
    decreases |b|
  {
    hide Participants.Distinct, Note, Summary, Names;
    RoomLeft(a, b, max);
    if b != [] {
      assert a + b == (a + [b[0]]) + b[1..];
      assert (a + [b[0]])[..|a|] == a;
      CappedIsAll(a + [b[0]], b[1..], max);
    } else {
      assert a + b == a;
    }
  }

  lemma RoomLeft(a: seq<Mention>, b: seq<Mention>, max: nat)
    requires |Participants.Distinct(Names(a + b))| < max
    ensures |NoteAll(a)| < max
  {
    hide Participants.Distinct, NoteAll, TopFlag;
    NoteAllSummary(a);
    assert Names(a + b) == Names(a) + Names(b);
    assert |NoteAll(a)| == |Names(NoteAll(a))|;
    DistinctGrows(Names(a), Names(b));
  }

  /** With fewer distinct handles than the table has room for, the extraction is complete. */
  lemma ExtractionComplete(message: string, max: nat)
    requires |Participants.Distinct(Names(MentionsFrom(message, 0)))| < max
    ensures Summary(Capped([], MentionsFrom(message, 0), max), MentionsFrom(message, 0))
  {
    hide Participants.Distinct, Names, Summary;
    var ms := MentionsFrom(message, 0);
    assert [] + ms == ms && NoteAll([]) == [];
    CappedIsAll([], ms, max);
    NoteAllSummary(ms);
  }

  /** Which handles the extraction lists, in general: the first ones, as many as the table has room for. */
  lemma ExtractedNames(message: string, max: nat)
    ensures Names(Capped([], MentionsFrom(message, 0), max))
            == Truncate(Participants.Distinct(Names(MentionsFrom(message, 0))), max)
  {
    hide Participants.Distinct, Names, Capped, MentionsFrom, Truncate;
    var ms := MentionsFrom(message, 0);
    assert [] + ms == ms && NoteAll([]) == [];
    CappedNames([], ms, max);
  }

  lemma {:induction false} CappedNames(a: seq<Mention>, b: seq<Mention>, max: nat)
    requires |NoteAll(a)| <= max
    ensures Names(Capped(NoteAll(a), b, max)) == Truncate(Participants.Distinct(Names(a + b)), max)
    decreases |b|
  {
    hide Participants.Distinct, Note, TopFlag, NoteAll;
    NoteAllSummary(a);
    assert Names(a + b) == Names(a) + Names(b);
    DistinctGrows(Names(a), Names(b));
    if |NoteAll(a)| < max {
      if b != [] {
        assert a + b == (a + [b[0]]) + b[1..];
        NoteNext(a, b[0]);
        CappedNames(a + [b[0]], b[1..], max);
      } else {
        assert a + b == a;
      }
    }
  }

  lemma NoteNext(a: seq<Mention>, m: Mention)
    ensures NoteAll(a + [m]) == Note(NoteAll(a), m)
  {
    assert (a + [m])[..|a|] == a;
  }

  // ---------- urgency, read off the text ----------

  /** A mention of the handle with this text behind it. */
  predicate OccursWith(s: string, p: nat, h: string, suffix: string) {
    MarkAt(s, p) && h + suffix <= s[p + 1..]
  }

  predicate QueriedAt(s: string, p: nat, h: string) {
    OccursWith(s, p, h, "?") || OccursWith(s, p, h, "\\?")
  }

  predicate InterruptedAt(s: string, p: nat, h: string) {
    OccursWith(s, p, h, "!") || OccursWith(s, p, h, "\\!")
  }

  predicate Queried(s: string, h: string) {
    exists p | 0 <= p < |s| :: QueriedAt(s, p, h)
  }

  predicate Interrupted(s: string, h: string) {
    exists p | 0 <= p < |s| :: InterruptedAt(s, p, h)
  }

  lemma PrefixAt(s: string, i: nat, x: string)
    requires i <= |s|
    ensures x <= s[i..] <==> i + |x| <= |s| && forall k | 0 <= k < |x| :: s[i + k] == x[k]
  {
    if i + |x| <= |s| && forall k | 0 <= k < |x| :: s[i + k] == x[k] {
      assert s[i..][..|x|] == x;
    }
    if x <= s[i..] {
      forall k | 0 <= k < |x| ensures s[i + k] == x[k] {
        assert s[i..][k] == x[k];
      }
    }
  }

  /** Where a handle ends that is followed by a character which is in no handle. */
  lemma HandleThen(s: string, p: nat, h: string, suffix: string)
    requires p < |s| && IsHandle(h) && suffix != "" && !IsHandleChar(suffix[0]) && h + suffix <= s[p + 1..]
    ensures var e := p + 1 + |h|; HandleEnd(s, p + 1) == e && s[p + 1..e] == h && suffix <= s[e..]
  {
    var e := p + 1 + |h|;
    PrefixAt(s, p + 1, h + suffix);
    forall k | p + 1 <= k < e ensures IsHandleChar(s[k]) && s[k] == h[k - p - 1] {
      assert s[p + 1 + (k - p - 1)] == (h + suffix)[k - p - 1];
    }
    forall k | 0 <= k < |suffix| ensures s[e + k] == suffix[k] {
      assert s[p + 1 + (|h| + k)] == (h + suffix)[|h| + k];
    }
    PrefixAt(s, e, suffix);
    HandleEndAt(s, p + 1, e);
  }

  lemma FlagReads(s: string, e: nat)
    requires e <= |s|
    ensures Flag(s, e) == 1 <==> "!" <= s[e..] || "\\!" <= s[e..]
    ensures Flag(s, e) == 2 <==> "?" <= s[e..] || "\\?" <= s[e..]
  {
    PrefixAt(s, e, "!");
    PrefixAt(s, e, "\\!");
    PrefixAt(s, e, "?");
    PrefixAt(s, e, "\\?");
  }

  lemma SuffixBack(s: string, p: nat, h: string, suffix: string)
    requires p + 1 + |h| <= |s| && s[p + 1..p + 1 + |h|] == h && suffix <= s[p + 1 + |h|..]
    ensures h + suffix <= s[p + 1..]
  {
    assert s[p + 1..] == h + s[p + 1 + |h|..];
  }

  lemma OccursWithIff(s: string, p: nat, h: string, suffix: string)
    requires IsHandle(h) && MarkAt(s, p) && suffix != "" && !IsHandleChar(suffix[0])
    ensures var e := HandleEnd(s, p + 1);
            OccursWith(s, p, h, suffix) <==> s[p + 1..e] == h && suffix <= s[e..]
  {
    hide HandleEnd, IsHandle;
    var e := HandleEnd(s, p + 1);
    if OccursWith(s, p, h, suffix) {
      HandleThen(s, p, h, suffix);
    }
    if s[p + 1..e] == h && suffix <= s[e..] {
      SuffixBack(s, p, h, suffix);
    }
  }

  /** The mention at a mark: its handle, and how urgent it is by what follows. */
  lemma MentionReads(s: string, p: nat, h: string)
    requires IsHandle(h)
    ensures MentionAt(s, p) == Some(Mention(h, 2)) <==> QueriedAt(s, p, h)
    ensures MentionAt(s, p) == Some(Mention(h, 1)) <==> InterruptedAt(s, p, h)
  {
    hide Flag, HandleEnd;
    if MarkAt(s, p) {
      FlagReads(s, HandleEnd(s, p + 1));
      OccursWithIff(s, p, h, "?");
      OccursWithIff(s, p, h, "\\?");
      OccursWithIff(s, p, h, "!");
      OccursWithIff(s, p, h, "\\!");
      hide OccursWith;
    }
  }

  /** Where a handle is mentioned: behind an "@" that no e-mail address has, and whole. */
  lemma MentionIff(s: string, p: nat, h: string)
    requires p < |s|
    ensures MentionAt(s, p).Some? && MentionAt(s, p).value.handle == h
            <==> s[p] == '@' && (p == 0 || !IsEmailPrefix(s[p - 1])) && IsHandle(h) && h <= s[p + 1..]
                 && (p + 1 + |h| < |s| ==> !IsHandleChar(s[p + 1 + |h|]))
  {
    hide Flag;
    if IsHandle(h) {
      OccursIsMention(s, p, h);
    }
  }

  /** A mark, a handle and what follows, written out. */
  lemma MentionOfText(pre: string, h: string, tail: string)
    requires IsHandle(h) && (pre != "" ==> !IsEmailPrefix(pre[|pre| - 1])) && (tail != "" ==> !IsHandleChar(tail[0]))
    ensures MentionAt(pre + ("@" + (h + tail)), |pre|)
         == Some(Mention(h, if "!" <= tail || "\\!" <= tail then 1 else if "?" <= tail || "\\?" <= tail then 2 else 0))
  {
    hide Flag, HandleEnd;
    var s, p := pre + ("@" + (h + tail)), |pre|;
    var e := p + 1 + |h|;
    assert s[p] == '@' && s[p + 1..e] == h && s[e..] == tail;
    assert p > 0 ==> s[p - 1] == pre[|pre| - 1];
    forall k | p + 1 <= k < e ensures IsHandleChar(s[k]) {
      assert s[k] == h[k - p - 1];
    }
    assert e < |s| ==> s[e] == tail[0];
    HandleEndAt(s, p + 1, e);
    FlagReads(s, e);
  }

  lemma {:induction false} MentionIn(s: string, p: nat, m: Mention)
    ensures m in MentionsFrom(s, p) <==> exists q :: p <= q < |s| && MentionAt(s, q) == Some(m)
    decreases |s| - p
  {
    hide MentionAt;
    if p < |s| {
      MentionIn(s, p + 1, m);
      MentionsStep(s, p);
    }
  }

  lemma {:induction false} TopFlagIs(ms: seq<Mention>, h: string)
    requires forall i | 0 <= i < |ms| :: ms[i].flag <= 2
    ensures TopFlag(ms, h) == if Mention(h, 2) in ms then 2 else if Mention(h, 1) in ms then 1 else 0
  {
    if ms != [] {
      var front, last := ms[..|ms| - 1], ms[|ms| - 1];
      TopFlagIs(front, h);
      assert ms == front + [last];
    }
  }

  lemma {:induction false} FlagsSmall(s: string, p: nat)
    ensures forall i | 0 <= i < |MentionsFrom(s, p)| :: MentionsFrom(s, p)[i].flag <= 2
    decreases |s| - p
  {
    hide Flag, HandleEnd;
    if p < |s| {
      FlagsSmall(s, p + 1);
      MentionsStep(s, p);
    }
  }

  lemma UrgencyReads(s: string, h: string)
    requires IsHandle(h)
    ensures Mention(h, 2) in MentionsFrom(s, 0) <==> Queried(s, h)
    ensures Mention(h, 1) in MentionsFrom(s, 0) <==> Interrupted(s, h)
  {
    hide MentionAt, MentionsFrom, IsHandle, QueriedAt, InterruptedAt;
    MentionIn(s, 0, Mention(h, 2));
    MentionIn(s, 0, Mention(h, 1));
    forall p: nat | p < |s|
      ensures MentionAt(s, p) == Some(Mention(h, 2)) <==> QueriedAt(s, p, h)
      ensures MentionAt(s, p) == Some(Mention(h, 1)) <==> InterruptedAt(s, p, h)
    {
      MentionReads(s, p, h);
    }
  }

  /**
   * The urgency of a listed handle: a query if some mention of it is one, else an interrupt if some is, else
   * neither.
   */
  lemma UrgencyComplete(message: string, max: nat, i: nat)
    requires |Participants.Distinct(Names(MentionsFrom(message, 0)))| < max
    requires i < |Capped([], MentionsFrom(message, 0), max)|
    ensures var m := Capped([], MentionsFrom(message, 0), max)[i];
            && (m.flag == 2 <==> Queried(message, m.handle))
            && (m.flag == 1 <==> Interrupted(message, m.handle) && !Queried(message, m.handle))
  {
    hide Participants.Distinct, Capped, MentionsFrom, TopFlag, IsHandle, Queried, Interrupted;
    var ms := MentionsFrom(message, 0);
    var found := Capped([], ms, max);
    ExtractionComplete(message, max);
    assert Names(found)[i] == found[i].handle;
    assert found[i].handle in Names(found);
    LeftOut(message, found[i].handle);
    UrgencyReads(message, found[i].handle);
    FlagsSmall(message, 0);
    TopFlagIs(ms, found[i].handle);
  }

  // ---------- the /mention filter ----------

  /** "@h" stands at `p`, is no part of an e-mail address and does not go on. */
  predicate OccursAt(s: string, p: nat, h: string) {
    MarkAt(s, p) && h <= s[p + 1..] && (p + 1 + |h| < |s| ==> !IsHandleChar(s[p + 1 + |h|]))
  }

  lemma {:induction false} HandleEndAt(s: string, p: nat, e: nat)
    requires p <= e <= |s| && (forall k | p <= k < e :: IsHandleChar(s[k])) && (e < |s| ==> !IsHandleChar(s[e]))
    ensures HandleEnd(s, p) == e
    decreases e - p
  {
    if p < e {
      HandleEndAt(s, p + 1, e);
    }
  }

  /** The filter's notion of an occurrence is the extraction's notion of a mention. */
  lemma OccursIsMention(s: string, p: nat, h: string)
    requires IsHandle(h)
    ensures OccursAt(s, p, h) <==> MentionAt(s, p).Some? && MentionAt(s, p).value.handle == h
  {
    if OccursAt(s, p, h) {
      var e := p + 1 + |h|;
      assert s[p + 1..][..|h|] == h && s[p + 1..e] == h;
      forall k | p + 1 <= k < e ensures IsHandleChar(s[k]) {
        assert s[k] == h[k - p - 1];
      }
      HandleEndAt(s, p + 1, e);
    }
    if MentionAt(s, p).Some? && MentionAt(s, p).value.handle == h {
      var e := HandleEnd(s, p + 1);
      assert s[p + 1..e] == h && s[p + 1..] == h + s[e..];
    }
  }

  lemma {:induction false} MentionedSomewhere(s: string, p: nat, h: string)
    ensures h in Names(MentionsFrom(s, p))
            <==> exists q :: p <= q < |s| && MentionAt(s, q).Some? && MentionAt(s, q).value.handle == h
    decreases |s| - p
  {
    hide MentionAt;
    if p < |s| {
      MentionedSomewhere(s, p + 1, h);
      MentionsStep(s, p);
      var rest := MentionsFrom(s, p + 1);
      if MentionAt(s, p).Some? {
        assert Names([MentionAt(s, p).value] + rest) == [MentionAt(s, p).value.handle] + Names(rest);
      }
    }
  }

  /** content_mentions: from one "@" to the next. */
  method ContentMentions(content: string, handle: string) returns (found: bool)
    ensures found <==> exists p :: 0 <= p < |content| && OccursAt(content, p, handle)
  {
    var p := 0;
    while p < |content|
      invariant 0 <= p <= |content|
      invariant forall q | 0 <= q < p :: !OccursAt(content, q, handle)
    {
      var at := Index(content[p..], '@');
      forall q | p <= q < p + at ensures !OccursAt(content, q, handle) {
        assert content[q] == content[p..][q - p];
      }
      p := p + at;
      if p == |content| { return false; }
      assert content[p] == '@';
      if p > 0 && IsEmailPrefix(content[p - 1]) {
        p := p + 1;
        continue;
      }
      if handle <= content[p + 1..] {
        if p + 1 + |handle| == |content| || !IsHandleChar(content[p + 1 + |handle|]) {
          assert OccursAt(content, p, handle);
          return true;
        }
      }
      p := p + 1;
    }
    found := false;
  }

  ghost predicate Occurs(content: string, handle: string) {
    exists p :: 0 <= p < |content| && OccursAt(content, p, handle)
  }

  /** For a proper handle the filter lets a message through exactly when one of its mentions has that handle. */
  lemma OccursNamed(content: string, handle: string)
    requires IsHandle(handle)
    ensures Occurs(content, handle) <==> handle in Names(MentionsFrom(content, 0))
  {
    hide OccursAt, MentionAt, MentionsFrom, IsHandle;
    MentionedSomewhere(content, 0, handle);
    forall p: nat | p < |content|
      ensures OccursAt(content, p, handle)
              <==> MentionAt(content, p).Some? && MentionAt(content, p).value.handle == handle
    {
      OccursIsMention(content, p, handle);
    }
  }

  lemma {:induction false} MentionsProper(s: string, p: nat)
    ensures forall i | 0 <= i < |MentionsFrom(s, p)| :: IsHandle(MentionsFrom(s, p)[i].handle)
    decreases |s| - p
  {
    if p < |s| {
      MentionsProper(s, p + 1);
      MentionsStep(s, p);
    }
  }

  /** The filter and the extraction agree on every proper handle. */
  ghost predicate Agree(content: string, max: nat) {
    forall handle | IsHandle(handle) :: Occurs(content, handle)
      <==> handle in Names(Capped([], MentionsFrom(content, 0), max))
  }

  /** They do exactly when the message has no more distinct handles than the table has room for. */
  lemma FilterAgrees(content: string, max: nat)
    ensures Agree(content, max) <==> |Participants.Distinct(Names(MentionsFrom(content, 0)))| <= max
  {
    hide Occurs, Names, Participants.Distinct, MentionsFrom, IsHandle, Capped;
    var ms := MentionsFrom(content, 0);
    var distinct, listed := Participants.Distinct(Names(ms)), Names(Capped([], ms, max));
    ExtractedNames(content, max);
    if |distinct| <= max {
      forall handle | IsHandle(handle) ensures Occurs(content, handle) <==> handle in listed {
        OccursNamed(content, handle);
      }
    } else {
      var left := distinct[max];
      assert left in Names(ms);
      LeftOut(content, left);
      OccursNamed(content, left);
      assert left !in listed;
    }
  }

  lemma LeftOut(content: string, handle: string)
    requires handle in Names(MentionsFrom(content, 0))
    ensures IsHandle(handle)
  {
    hide MentionsFrom, IsHandle;
    MentionsProper(content, 0);
  }

  // ---------- highlighting ----------

  datatype Piece = Plain(text: string) | Marked(text: string)

  /** The content in pieces, with every occurrence of "@h" from `p` on a piece of its own. */
  function Pieces(s: string, p: nat, h: string): seq<Piece>
    decreases |s| - p
  {
    if p >= |s| then []
    else if OccursAt(s, p, h) then [Marked(s[p..p + 1 + |h|])] + Pieces(s, p + 1 + |h|, h)
    else [Plain([s[p]])] + Pieces(s, p + 1, h)
  }

  function Texts(ps: seq<Piece>): string {
    if ps == [] then "" else ps[0].text + Texts(ps[1..])
  }

  /** What goes to the terminal: the marked pieces in inverse video. */
  function Output(ps: seq<Piece>): string {
    if ps == [] then ""
    else (match ps[0] case Plain(t) => t case Marked(t) => REVERSE + t + RESET) + Output(ps[1..])
  }

  /** Nothing of the content is lost, added or moved. */
  lemma {:induction false} PiecesKeepText(s: string, p: nat, h: string)
    requires p <= |s|
    ensures Texts(Pieces(s, p, h)) == s[p..]
    decreases |s| - p
  {
    if p < |s| {
      if OccursAt(s, p, h) {
        PiecesKeepText(s, p + 1 + |h|, h);
        assert s[p..] == s[p..p + 1 + |h|] + s[p + 1 + |h|..];
      } else {
        PiecesKeepText(s, p + 1, h);
        assert s[p..] == [s[p]] + s[p + 1..];
      }
    }
  }

  /** Where the marked pieces of a text that starts at `p` begin. */
  function MarkedAt(ps: seq<Piece>, p: nat): set<nat> {
    if ps == [] then {}
    else (if ps[0].Marked? then {p} else {}) + MarkedAt(ps[1..], p + |ps[0].text|)
  }

  lemma {:induction false} NoOccurrenceInside(s: string, p: nat, q: nat, h: string)
    requires IsHandle(h) && OccursAt(s, p, h) && p < q < p + 1 + |h|
    ensures !OccursAt(s, q, h)
  {
    assert s[q] == s[p + 1..][q - p - 1] == h[q - p - 1];
  }

  /** Exactly the occurrences of "@h" are marked. */
  lemma {:induction false} MarkedExactly(s: string, p: nat, h: string)
    requires IsHandle(h)
    ensures forall q: nat :: q in MarkedAt(Pieces(s, p, h), p) <==> p <= q < |s| && OccursAt(s, q, h)
    decreases |s| - p
  {
    hide IsHandle, OccursAt;
    if p < |s| {
      var ps := Pieces(s, p, h);
      var next := if OccursAt(s, p, h) then p + 1 + |h| else p + 1;
      OccurrenceFits(s, p, h);
      MarkedExactly(s, next, h);
      assert ps[1..] == Pieces(s, next, h) && p + |ps[0].text| == next;
      forall q: nat ensures q in MarkedAt(ps, p) <==> p <= q < |s| && OccursAt(s, q, h) {
        if OccursAt(s, p, h) && p < q < next {
          NoOccurrenceInside(s, p, q, h);
        }
      }
    }
  }

  lemma OccurrenceFits(s: string, p: nat, h: string)
    ensures OccursAt(s, p, h) ==> p + 1 + |h| <= |s|
  {
  }

  lemma OnePiece(s: string, p: nat, h: string)
    requires p < |s|
    ensures OccursAt(s, p, h) ==>
              p + 1 + |h| <= |s| && Output(Pieces(s, p, h)) == REVERSE + s[p..p + 1 + |h|] + RESET
                + Output(Pieces(s, p + 1 + |h|, h))
    ensures !OccursAt(s, p, h) ==> Output(Pieces(s, p, h)) == [s[p]] + Output(Pieces(s, p + 1, h))
  {
    hide OccursAt;
    OccurrenceFits(s, p, h);
    var ps := Pieces(s, p, h);
    assert OccursAt(s, p, h) ==> ps[0] == Marked(s[p..p + 1 + |h|]) && ps[1..] == Pieces(s, p + 1 + |h|, h);
    assert !OccursAt(s, p, h) ==> ps[0] == Plain([s[p]]) && ps[1..] == Pieces(s, p + 1, h);
  }

  lemma {:induction false} PlainRun(s: string, p: nat, q: nat, h: string)
    requires p <= q <= |s| && forall k | p <= k < q :: s[k] != '@'
    ensures Output(Pieces(s, p, h)) == s[p..q] + Output(Pieces(s, q, h))
    decreases q - p
  {
    hide Output, Pieces, OccursAt;
    if p < q {
      PlainRun(s, p + 1, q, h);
      NoMark(s, p, h);
      OnePiece(s, p, h);
      assert s[p..q] == [s[p]] + s[p + 1..q];
    } else {
      assert s[p..q] == "";
    }
  }

  lemma NoMark(s: string, p: nat, h: string)
    requires p < |s| && s[p] != '@'
    ensures !OccursAt(s, p, h)
  {
  }

  /** write_content_highlighted; without a handle to highlight the content goes out as it is. */
  method WriteHighlighted(content: string, handle: string) returns (out: string)
    ensures out == if handle == "" then content else Output(Pieces(content, 0, handle))
  {
    hide Output, Pieces, IsEmailPrefix, IsHandleChar;
    if handle == "" { return content; }
    out := "";
    var p := 0;
    assert "" + Output(Pieces(content, 0, handle)) == Output(Pieces(content, 0, handle));
    while p < |content|
      invariant 0 <= p <= |content|
      invariant out + Output(Pieces(content, p, handle)) == Output(Pieces(content, 0, handle))
      decreases |content| - p
    {
      var rest := content[p..];
      var at := p + Index(rest, '@');
      assert forall k | p <= k < at :: content[k] == rest[k - p];
      PlainRun(content, p, at, handle);
      if at == |content| {
        NoPieces(content, at, handle);
        return out + rest;
      }
      OnePiece(content, at, handle);
      var email := at > 0 && IsEmailPrefix(content[at - 1]);
      if !email && handle <= content[at + 1..]
        && (at + 1 + |handle| == |content| || !IsHandleChar(content[at + 1 + |handle|])) {
        var mark := content[at..at + 1 + |handle|];
        Associate(out, content[p..at], REVERSE + mark + RESET, Output(Pieces(content, at + 1 + |handle|, handle)));
        out := out + content[p..at] + (REVERSE + mark + RESET);
        p := at + 1 + |handle|;
      } else {
        Associate(out, content[p..at], [content[at]], Output(Pieces(content, at + 1, handle)));
        assert content[p..at + 1] == content[p..at] + [content[at]];
        out := out + content[p..at + 1];
        p := at + 1;
      }
    }
    NoPieces(content, p, handle);
  }

  lemma Associate(a: string, b: string, c: string, d: string)
    ensures a + (b + (c + d)) == a + b + c + d && a + (b + c) == a + b + c
  {
  }

  lemma NoPieces(s: string, p: nat, h: string)
    ensures p >= |s| ==> Output(Pieces(s, p, h)) == ""
  {
  }
}
