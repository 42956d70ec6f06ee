/** Whole runs of hub commands on the state file, and which phase names the file can carry. */
module HubRuns {
  import opened Bytes
  import opened KeyValue
  import opened Hub
  import TextFile
  import Decimal

  function Start(now: nat): HubState { HubState(0, "PLANNING", 0, false, now) }

  /** The state file of a new hub. */
  function NewFile(now: nat): string { Render(Pairs(Start(now))) }

  /** The state file after these commands. */
  function FileAfter(file: string, cs: seq<Command>): string {
    if cs == [] then file else Perform(FileAfter(file, cs[..|cs| - 1]), cs[|cs| - 1]).0
  }

  function HubAfter(h: HubState, cs: seq<Command>): HubState {
    if cs == [] then h else Apply(HubAfter(h, cs[..|cs| - 1]), cs[|cs| - 1]).0
  }

  /** Results that succeeded since the last accepted audit. */
  function SinceAudit(cs: seq<Command>): (n: nat)
    ensures n <= |cs|
  {
    if cs == [] then 0
    else
      var front, last := cs[..|cs| - 1], cs[|cs| - 1];
      if Accepted(last) then 0
      else if last.Result? && last.rc == 0 then SinceAudit(front) + 1
      else SinceAudit(front)
  }

  /** Gates that passed their checks: the name is the one that the file gives, and both files are there. */
  function GatesPassed(file: string, cs: seq<Command>): (n: nat)
    ensures n <= |cs|
  {
    if cs == [] then 0
    else
      var front, last := cs[..|cs| - 1], cs[|cs| - 1];
      GatesPassed(file, front) + if last.Gate? && last.name == NameIn(FileAfter(file, front)) && last.filesOk then 1
        else 0
  }

  /** No phase name has a line feed or 256 characters, and clocks fit in 64 bits. */
  predicate Proper(cs: seq<Command>) {
    && (forall i | 0 <= i < |cs| && cs[i].SetName? :: LegalName(cs[i].name))
    && forall i | 0 <= i < |cs| && cs[i].Spawn? :: cs[i].now <= INT64_MAX
  }

  lemma {:induction false} HubTracks(now: nat, cs: seq<Command>)
    requires now <= INT64_MAX && Proper(cs) && |cs| <= INT_MAX
    ensures var h := HubAfter(Start(now), cs);
            && LegalHub(h) && FileAfter(NewFile(now), cs) == Render(Pairs(h))
            && h.counter == SinceAudit(cs) && (h.required <==> SinceAudit(cs) >= AUDIT_THRESHOLD)
            && h.phase == GatesPassed(NewFile(now), cs)
  {
    hide Acceptable, Render, Pairs, Perform, LegalHub, NameIn;
    if cs == [] {
      StartLegal(now);
    } else {
      var front, last := cs[..|cs| - 1], cs[|cs| - 1];
      HubTracks(now, front);
      var h := HubAfter(Start(now), front);
      StaysFine(h, last);
      PerformApplies(h, last);
      ApplyLegal(h, last);
      NameField(h);
    }
  }

  lemma StartLegal(now: nat)
    requires now <= INT64_MAX
    ensures LegalHub(Start(now))
  {
  }

  lemma StaysFine(h: HubState, c: Command)
    requires h.counter < INT_MAX && h.phase < INT_MAX
    requires (c.SetName? ==> LegalName(c.name)) && (c.Spawn? ==> c.now <= INT64_MAX)
    ensures Fine(h, c)
  {
  }

  /**
   * Over every run with proper names the counter in the file is the number of results since the last
   * accepted audit, an audit is required exactly from the third on, and the phase number counts the gates.
   */
  lemma RunTracks(now: nat, cs: seq<Command>)
    requires now <= INT64_MAX && Proper(cs) && |cs| <= INT_MAX
    ensures var file := FileAfter(NewFile(now), cs);
            && NumberIn(file, COUNTER) == SinceAudit(cs)
            && (NumberIn(file, REQUIRED) != 0 <==> SinceAudit(cs) >= AUDIT_THRESHOLD)
            && NumberIn(file, PHASE_NUM) == GatesPassed(NewFile(now), cs)
  {
    hide Render, Pairs, NumberIn, FileAfter, HubAfter, SinceAudit, GatesPassed;
    HubTracks(now, cs);
    NumbersIn(HubAfter(Start(now), cs));
  }

  /**
   * A spawn is refused exactly when three or more results have not been audited; only an accepted audit changes
   * that.
   */
  lemma SpawnRefused(now: nat, cs: seq<Command>, rc: int, later: nat)
    requires now <= INT64_MAX && Proper(cs) && |cs| <= INT_MAX
    ensures Perform(FileAfter(NewFile(now), cs), Spawn(rc, later)).1 == EXIT_AUDIT_REQUIRED
            <==> SinceAudit(cs) >= AUDIT_THRESHOLD
  {
    hide NumberIn, FileAfter, SinceAudit, GatesPassed, Write;
    RunTracks(now, cs);
  }

  // ---------- one command ----------

  /** The values of the five keys in the state file. */
  predicate Says(file: string, phase: int, name: string, counter: int, required: int, spawned: int) {
    && NumberIn(file, "phase_num") == phase && NameIn(file) == name && NumberIn(file, "audit_counter") == counter
    && NumberIn(file, "audit_required") == required && NumberIn(file, "last_spawn_time") == spawned
  }

  /** The file of a hub, whose keys say these values; and what they are, with the exit code, after each command. */
  lemma CommandReads(h: HubState, c: Command)
    requires LegalHub(h) && Fine(h, c)
    ensures var file, flag := Render(Pairs(h)), if h.required then 1 else 0;
            var (after, exit) := Perform(file, c);
            && Says(file, h.phase, h.name, h.counter, flag, h.spawned)
            && match c
               case Spawn(rc, now) =>
                 if h.required || rc != 0 then exit == (if h.required then 3 else 1) && after == file
                 else exit == 0 && Says(after, h.phase, h.name, h.counter, 0, now)
               case Result(rc) =>
                 if rc != 0 then exit == 1 && after == file
                 else exit == 0 && Says(after, h.phase, h.name, h.counter + 1, if h.counter >= 2 then 1 else flag,
                                        h.spawned)
               case Audit(_, _) =>
                 if exit == 0 then Says(after, h.phase, h.name, 0, 0, h.spawned) else exit == 1 && after == file
               case Gate(name, filesOk, copied) =>
                 if name == h.name && filesOk then
                   exit == (if copied then 0 else 1) && Says(after, h.phase + 1, "UNNAMED", h.counter, flag, h.spawned)
                 else exit == 1 && after == file
               case SetName(name) => exit == 0 && Says(after, h.phase, name, h.counter, flag, h.spawned)
  {
    hide Acceptable, Render, Pairs, Perform, LegalHub, NameIn, NumberIn;
    PerformApplies(h, c);
    ApplyLegal(h, c);
    var t := Apply(h, c).0;
    NumbersIn(h);
    NameField(h);
    NumbersIn(t);
    NameField(t);
  }

  /** A number that an int cannot hold is taken modulo 2^32, once it fits 64 bits. */
  lemma IntOf(n: int)
    ensures var long := if n < INT64_MIN then INT64_MIN else if n > INT64_MAX then INT64_MAX else n;
            INT_MIN <= AsInt(n) <= INT_MAX && exists k :: AsInt(n) == long + k * 0x1_0000_0000
  {
    var long := if n < INT64_MIN then INT64_MIN else if n > INT64_MAX then INT64_MAX else n;
    var k := -(long / 0x1_0000_0000);
    assert AsInt(n) == long + k * 0x1_0000_0000 || AsInt(n) == long + (k - 1) * 0x1_0000_0000;
  }

  // ---------- names ----------

  /** All that is read in the file is what the hub has. */
  predicate ReadsAs(file: string, h: HubState) {
    Says(file, h.phase, h.name, h.counter, if h.required then 1 else 0, h.spawned)
  }

  /** When the file still reads as the hub, with the new name: when that is one line and fits the reader's buffer. */
  lemma NameTaken(h: HubState, name: string)
    requires LegalHub(h) && NUL !in name
    ensures ReadsAs(Perform(Render(Pairs(h)), SetName(name)).0, h.(name := name))
            <==> LF !in name && |name| < NAME_BUFFER
  {
    hide Render, Write, NumberIn, NameIn, Pairs;
    var file := Write(Render(Pairs(h)), PHASE_NAME, name);
    NameShort(file);
    if LF !in name && |name| < NAME_BUFFER {
      PutsName(h, name);
      NumbersIn(h.(name := name));
      NameField(h.(name := name));
    }
  }

  lemma NameShort(file: string)
    ensures |NameIn(file)| < NAME_BUFFER && LF !in NameIn(file)
  {
    hide Read;
    ReadsOneLine(file, PHASE_NAME, NAME_BUFFER);
  }

  /** Whatever the file: a gate that asks for a name that is no single line, or is too long, never passes. */
  lemma GateNeverPasses(file: string, name: string, filesOk: bool, copied: bool)
    requires LF in name || |name| >= NAME_BUFFER
    ensures Perform(file, Gate(name, filesOk, copied)) == (file, EXIT_ERROR)
  {
    hide NameIn, Write, NumberIn;
    NameShort(file);
  }

  /** What the gate asks for instead: the first line, up to 255 characters. */
  lemma NameCut(h: HubState, name: string)
    requires LegalHub(h) && NUL !in name
    ensures NameIn(Perform(Render(Pairs(h)), SetName(name)).0)
            == Truncate(name[..TextFile.Index(name, LF)], NAME_BUFFER - 1)
  {
    hide Render, Write, Read, Pairs, AllLegal, TextFile.Index;
    PairsLegal(h);
    ShortKeys();
    ReadBack(Pairs(h), PHASE_NAME, name, NAME_BUFFER);
    CutTwice(name[..TextFile.Index(name, LF)]);
  }

  lemma CutTwice(s: string)
    ensures Truncate(Truncate(s, LINE_BUFFER - 2 - |PHASE_NAME|), NAME_BUFFER - 1) == Truncate(s, NAME_BUFFER - 1)
  {
    assert |PHASE_NAME| == 10;
  }

  // ---------- a name that lifts the refusal ----------

  const TWO_LINES: string := "x\naudit_required=0"

  /** The list of pairs that the file then reads as. */
  function TwoNames(p: Pair, rest: seq<Pair>): seq<Pair> {
    [p] + ([Pair(PHASE_NAME, "x")] + ([Pair(REQUIRED, "0")] + rest))
  }

  /** The second line of this name comes before the real entry and is the one that is read. */
  lemma NameHidesEntry(h: HubState)
    requires LegalHub(h)
    ensures NumberIn(Perform(Render(Pairs(h)), SetName(TWO_LINES)).0, REQUIRED) == 0
  {
    hide Decimal.Print, Decimal.Strtol, Render, Write, Read, Find, Lookup, TextFile.Chunks, LegalPair, TwoNames;
    var ps := Pairs(h);
    var qs := TwoNames(ps[0], ps[2..]);
    PutsName(h, TWO_LINES);
    SameText(h);
    PairsLegal(h);
    TwoNamesLegal(ps[0], ps[2..]);
    KeysLegal();
    FindLookup(qs, REQUIRED, 32);
    FirstRequired(ps[0], ps[2..]);
    FieldRead(qs, REQUIRED, 32);
    ZeroPrints();
    Decimal.StrtolPrint(0);
  }

  lemma TwoNamesLegal(p: Pair, rest: seq<Pair>)
    requires LegalPair(p) && AllLegal(rest)
    ensures AllLegal(TwoNames(p, rest))
  {
    ShortKeys();
    hide LegalPair;
    TextPair(PHASE_NAME, "x");
    TextPair(REQUIRED, "0");
  }

  lemma FirstRequired(p: Pair, rest: seq<Pair>)
    requires p.key == PHASE_NUM
    ensures Lookup(TwoNames(p, rest), REQUIRED) == Some("0")
  {
    KeysLegal();
    hide Lookup, Replace, LegalKey;
    PutCons(p, [Pair(PHASE_NAME, "x")] + ([Pair(REQUIRED, "0")] + rest), REQUIRED, "");
    PutCons(Pair(PHASE_NAME, "x"), [Pair(REQUIRED, "0")] + rest, REQUIRED, "");
    PutCons(Pair(REQUIRED, "0"), rest, REQUIRED, "");
  }

  lemma SameText(h: HubState)
    ensures Render(Pairs(h.(name := TWO_LINES))) == Render(TwoNames(Pairs(h)[0], Pairs(h)[2..]))
  {
    hide Decimal.Print, Render, PairLine;
    var p, rest := Pairs(h)[0], Pairs(h)[2..];
    assert Pairs(h.(name := TWO_LINES)) == [p] + ([Pair(PHASE_NAME, TWO_LINES)] + rest);
    RenderCons(p, [Pair(PHASE_NAME, TWO_LINES)] + rest);
    RenderCons(Pair(PHASE_NAME, TWO_LINES), rest);
    RenderCons(p, [Pair(PHASE_NAME, "x")] + ([Pair(REQUIRED, "0")] + rest));
    RenderCons(Pair(PHASE_NAME, "x"), [Pair(REQUIRED, "0")] + rest);
    RenderCons(Pair(REQUIRED, "0"), rest);
    TwoLines();
  }

  lemma RenderCons(p: Pair, rest: seq<Pair>)
    ensures Render([p] + rest) == PairLine(p.key, p.value) + Render(rest)
  {
    assert ([p] + rest)[1..] == rest;
  }

  lemma TwoLines()
    ensures PairLine(PHASE_NAME, TWO_LINES) == PairLine(PHASE_NAME, "x") + PairLine(REQUIRED, "0")
  {
  }

  /** So three results and this name leave a hub that spawns without an audit. */
  lemma SpawnNotRefused(now: nat, later: nat)
    requires now <= INT64_MAX
    ensures var cs := [Result(0), Result(0), Result(0), SetName(TWO_LINES)];
            SinceAudit(cs) == AUDIT_THRESHOLD && Perform(FileAfter(NewFile(now), cs), Spawn(0, later)).1 == EXIT_SUCCESS
  {
    hide NumberIn, Write, Render, Pairs;
    var three := [Result(0), Result(0), Result(0)];
    var cs := three + [SetName(TWO_LINES)];
    assert cs[..3] == three && cs == [Result(0), Result(0), Result(0), SetName(TWO_LINES)];
    assert three[..2] == [Result(0), Result(0)] && three[..2][..1] == [Result(0)] && three[..2][..1][..0] == [];
    HubTracks(now, three);
    NameHidesEntry(HubAfter(Start(now), three));
  }
}
