/** The state of a hub and its audit gate: the commands of src/nbs-hub/hub.c that read and rewrite it. */
module Hub {
  import opened Bytes
  import opened TextFile
  import opened KeyValue
  import Decimal

  const AUDIT_THRESHOLD: nat := 3

  const EXIT_SUCCESS := 0
  const EXIT_ERROR := 1
  const EXIT_AUDIT_REQUIRED := 3

  const PHASE_NUM: string := "phase_num"
  const PHASE_NAME: string := "phase_name"
  const COUNTER: string := "audit_counter"
  const REQUIRED: string := "audit_required"
  const SPAWNED: string := "last_spawn_time"

  /** What the state file stands for. */
  datatype HubState = HubState(phase: nat, name: string, counter: nat, required: bool, spawned: nat)

  function Bit(b: bool): string { if b then "1" else "0" }

  function Pairs(h: HubState): seq<Pair> {
    [Pair(PHASE_NUM, Decimal.Print(h.phase)), Pair(PHASE_NAME, h.name), Pair(COUNTER, Decimal.Print(h.counter)),
     Pair(REQUIRED, Bit(h.required)), Pair(SPAWNED, Decimal.Print(h.spawned))]
  }

  const NAME_BUFFER: nat := 256

  /** A phase name of one line that is read back whole; an argument of the program has no NUL anyway. */
  predicate LegalName(name: string) {
    |name| < NAME_BUFFER && NUL !in name && LF !in name
  }

  predicate LegalHub(h: HubState) {
    h.phase <= INT_MAX && h.counter <= INT_MAX && h.spawned <= INT64_MAX && LegalName(h.name)
  }

  // ---------- what the commands do ----------

  datatype Command =
    | Spawn(rc: int, now: nat)
    | Result(rc: int)
    | Audit(text: Option<string>, copied: bool)
    | Gate(name: string, filesOk: bool, copied: bool)
    | SetName(name: string)

  predicate Within(chunk: string, sub: string) {
    exists i :: 0 <= i <= |chunk| && sub <= chunk[i..]
  }

  /** file_contains: some line of the file has the word in it. */
  predicate Contains(text: string, sub: string) {
    exists i :: 0 <= i < |Chunks(text, LINE_BUFFER)| && Within(Chunks(text, LINE_BUFFER)[i], sub)
  }

  /** The sections that cmd_audit asks for. */
  predicate Acceptable(text: string) {
    && text != ""
    && (Contains(text, "goal") || Contains(text, "Goal") || Contains(text, "terminal"))
    && (Contains(text, "delegat") || Contains(text, "Delegat"))
    && (Contains(text, "3W") || Contains(text, "learn") || Contains(text, "Learn") || Contains(text, "well")
       || Contains(text, "Well"))
  }

  predicate Accepted(c: Command) {
    c.Audit? && c.text.Some? && Acceptable(c.text.value) && c.copied
  }

  /** The gate's checks: the current phase and both files. Archiving comes after them. */
  predicate Passed(h: HubState, c: Command) {
    c.Gate? && c.name == h.name && c.filesOk
  }

  function Apply(h: HubState, c: Command): (HubState, int) {
    match c
    case Spawn(rc, now) =>
      if h.required then (h, EXIT_AUDIT_REQUIRED)
      else if rc != 0 then (h, EXIT_ERROR)
      else (h.(spawned := now), EXIT_SUCCESS)
    case Result(rc) =>
      if rc != 0 then (h, EXIT_ERROR)
      else (h.(counter := h.counter + 1, required := h.required || h.counter + 1 >= AUDIT_THRESHOLD), EXIT_SUCCESS)
    case Audit(_, _) =>
      if Accepted(c) then (h.(counter := 0, required := false), EXIT_SUCCESS) else (h, EXIT_ERROR)
    case Gate(_, _, copied) =>
      if Passed(h, c) then (h.(phase := h.phase + 1, name := "UNNAMED"), if copied then EXIT_SUCCESS else EXIT_ERROR)
      else (h, EXIT_ERROR)
    case SetName(name) => (h.(name := name), EXIT_SUCCESS)
  }

  // ---------- what they do to any state file ----------

  /** A number in the state file; a missing one reads as 0. */
  function NumberIn(file: string, key: string): int {
    match Read(file, key, 32)
    case Some(v) => Decimal.Strtol(v)
    case None => 0
  }

  /** What strtol returns, stored in an int. */
  function AsInt(n: int): int {
    var long := if n < INT64_MIN then INT64_MIN else if n > INT64_MAX then INT64_MAX else n;
    var low := long % 0x1_0000_0000;
    if low > INT_MAX then low - 0x1_0000_0000 else low
  }

  function NameIn(file: string): string {
    match Read(file, PHASE_NAME, NAME_BUFFER)
    case Some(v) => v
    case None => ""
  }

  /** The state file and the exit code after a command, whatever the file was. */
  function Perform(file: string, c: Command): (string, int) {
    match c
    case Spawn(rc, now) =>
      if NumberIn(file, REQUIRED) != 0 then (file, EXIT_AUDIT_REQUIRED)
      else if rc != 0 then (file, EXIT_ERROR)
      else (Write(file, SPAWNED, Decimal.Print(now)), EXIT_SUCCESS)
    case Result(rc) =>
      if rc != 0 then (file, EXIT_ERROR)
      else
        var counter := AsInt(NumberIn(file, COUNTER)) + 1;
        var counted := Write(file, COUNTER, Decimal.Print(counter));
        (if counter >= AUDIT_THRESHOLD then Write(counted, REQUIRED, "1") else counted, EXIT_SUCCESS)
    case Audit(_, _) =>
      if Accepted(c) then (Write(Write(file, COUNTER, "0"), REQUIRED, "0"), EXIT_SUCCESS) else (file, EXIT_ERROR)
    case Gate(name, filesOk, copied) =>
      if name == NameIn(file) && filesOk then
        (Write(Write(file, PHASE_NUM, Decimal.Print(AsInt(NumberIn(file, PHASE_NUM)) + 1)), PHASE_NAME, "UNNAMED"),
         if copied then EXIT_SUCCESS else EXIT_ERROR)
      else (file, EXIT_ERROR)
    case SetName(name) => (Write(file, PHASE_NAME, name), EXIT_SUCCESS)
  }

  // ---------- the state file ----------

  lemma PutCons(p: Pair, rest: seq<Pair>, key: string, value: string)
    ensures Replace([p] + rest, key, value) == [if p.key == key then Pair(key, value) else p]
            + Replace(rest, key, value)
    ensures Lookup([p] + rest, key) == if p.key == key then Some(p.value) else Lookup(rest, key)
  {
    assert ([p] + rest)[1..] == rest;
  }

  lemma {:induction false} ReplaceAt(ps: seq<Pair>, i: nat, key: string, value: string)
    requires i < |ps| && ps[i].key == key && forall j | 0 <= j < |ps| && j != i :: ps[j].key != key
    ensures Replace(ps, key, value) == ps[i := Pair(key, value)] && Lookup(ps, key) == Some(ps[i].value)
  {
    hide Replace, Lookup;
    assert ps == [ps[0]] + ps[1..];
    PutCons(ps[0], ps[1..], key, value);
    if i > 0 {
      ReplaceAt(ps[1..], i - 1, key, value);
    } else {
      NoOther(ps[1..], key, value);
    }
  }

  lemma {:induction false} NoOther(ps: seq<Pair>, key: string, value: string)
    requires forall j | 0 <= j < |ps| :: ps[j].key != key
    ensures Lookup(ps, key) == None && Replace(ps, key, value) == ps
  {
    if ps != [] {
      NoOther(ps[1..], key, value);
    }
  }

  lemma KeysLegal()
    ensures LegalKey(PHASE_NUM) && LegalKey(PHASE_NAME) && LegalKey(COUNTER) && LegalKey(REQUIRED) && LegalKey(SPAWNED)
    ensures |PHASE_NUM| == 9 && |PHASE_NAME| == 10 && |COUNTER| == 13 && |REQUIRED| == 14 && |SPAWNED| == 15
  {
  }

  predicate ShortKey(key: string) {
    |key| <= 15 && PlainKey(key)
  }

  lemma NumberPair(key: string, n: nat)
    requires ShortKey(key) && n <= INT64_MAX
    ensures LegalPair(Pair(key, Decimal.Print(n))) && |Decimal.Print(n)| <= 19
  {
    Decimal.NineteenDigits(n);
    var s := Decimal.Print(n);
    assert forall i | 0 <= i < |s| :: IsDigit(s[i]);
    TextPair(key, s);
  }

  lemma TextPair(key: string, s: string)
    requires ShortKey(key) && |s| < 256 && NUL !in s && LF !in s
    ensures LegalPair(Pair(key, s))
  {
    assert key + "=" + s == key + ("=" + s);
  }

  lemma ShortKeys()
    ensures ShortKey(PHASE_NUM) && ShortKey(PHASE_NAME) && ShortKey(COUNTER) && ShortKey(REQUIRED) && ShortKey(SPAWNED)
  {
  }

  lemma PairsLegal(h: HubState)
    requires LegalHub(h)
    ensures AllLegal(Pairs(h))
  {
    hide LegalPair, Decimal.Print, ShortKey;
    ShortKeys();
    NumberPair(PHASE_NUM, h.phase);
    TextPair(PHASE_NAME, h.name);
    NumberPair(COUNTER, h.counter);
    TextPair(REQUIRED, Bit(h.required));
    NumberPair(SPAWNED, h.spawned);
  }

  /** Reading one field of the state file, and replacing it. */
  lemma FieldAccess(h: HubState, i: nat, value: string, size: nat)
    requires LegalHub(h) && i < 5 && size > 0
    ensures Read(Render(Pairs(h)), Pairs(h)[i].key, size) == Some(Truncate(Pairs(h)[i].value, size - 1))
    ensures Write(Render(Pairs(h)), Pairs(h)[i].key, value) == Render(Pairs(h)[i := Pair(Pairs(h)[i].key, value)])
  {
    hide AllLegal, LegalKey, Decimal.Print, Render, Read, Write, Truncate, Replace, Lookup;
    var ps := Pairs(h);
    PairsLegal(h);
    KeysLegal();
    var key := ps[i].key;
    ReplaceAt(ps, i, key, value);
    FindLookup(ps, key, size);
    WritePut(ps, key, value);
    FieldRead(ps, key, size);
  }

  /** Writing the one field in which two states differ. */
  lemma Becomes(h: HubState, t: HubState, i: nat)
    requires LegalHub(h) && i < 5 && forall j | 0 <= j < 5 && j != i :: Pairs(t)[j] == Pairs(h)[j]
    ensures Write(Render(Pairs(h)), Pairs(h)[i].key, Pairs(t)[i].value) == Render(Pairs(t))
  {
    hide Decimal.Print, Render, Write;
    FieldAccess(h, i, Pairs(t)[i].value, 1);
    assert Pairs(t)[i].key == Pairs(h)[i].key;
    assert Pairs(h)[i := Pair(Pairs(h)[i].key, Pairs(t)[i].value)] == Pairs(t);
  }

  lemma FieldRead(ps: seq<Pair>, key: string, size: nat)
    requires size > 0
    ensures Read(Render(ps), key, size) == Find(Chunks(Render(ps), LINE_BUFFER), key, size)
  {
    hide Chunks, Find, Render;
  }

  method InitialState(now: nat) returns (state: string)
    requires now <= INT64_MAX
    ensures var h := HubState(0, "PLANNING", 0, false, now); LegalHub(h) && state == Render(Pairs(h))
  {
    hide *;
    InitialFile(now);
    state := StateWrite("", PHASE_NUM, "0");
    state := StateWrite(state, PHASE_NAME, "PLANNING");
    state := StateWrite(state, COUNTER, "0");
    state := StateWrite(state, REQUIRED, "0");
    state := StateWrite(state, SPAWNED, Decimal.Print(now));
  }

  /** The directory of a hub, of which only the state file matters here. */
  class HubDir {
    var state: string

    /** cmd_init's state file, written key by key. */
    constructor (now: nat)
      requires now <= INT64_MAX
      ensures state == Render(Pairs(HubState(0, "PLANNING", 0, false, now)))
    {
      state := "";
      new;
      hide *;
      state := InitialState(now);
    }

    method Number(key: string) returns (n: int)
      ensures n == NumberIn(state, key)
    {
      hide Decimal.Strtol;
      var v := StateRead(state, key, 32);
      n := if v.Some? then Decimal.Strtol(v.value) else 0;
    }

    method CmdSpawn(rc: int, now: nat) returns (exit: int)
      modifies this
      ensures (state, exit) == Perform(old(state), Spawn(rc, now))
    {
      hide Decimal.Print, Write, NumberIn;
      var required := Number(REQUIRED);
      if required != 0 { return EXIT_AUDIT_REQUIRED; }
      if rc != 0 { return EXIT_ERROR; }
      state := StateWrite(state, SPAWNED, Decimal.Print(now));
      exit := EXIT_SUCCESS;
    }

    method CmdResult(rc: int) returns (exit: int)
      modifies this
      ensures (state, exit) == Perform(old(state), Result(rc))
    {
      hide Decimal.Print, Write, NumberIn, AsInt;
      if rc != 0 { return EXIT_ERROR; }
      var counter := Number(COUNTER);
      counter := AsInt(counter) + 1;
      state := StateWrite(state, COUNTER, Decimal.Print(counter));
      if counter >= AUDIT_THRESHOLD {
        state := StateWrite(state, REQUIRED, "1");
      }
      exit := EXIT_SUCCESS;
    }

    method CmdAudit(text: Option<string>, copied: bool) returns (exit: int)
      modifies this
      ensures (state, exit) == Perform(old(state), Audit(text, copied))
    {
      hide Write, Acceptable;
      if !text.Some? { return EXIT_ERROR; }
      if !Acceptable(text.value) { return EXIT_ERROR; }
      if !copied { return EXIT_ERROR; }
      state := StateWrite(state, COUNTER, "0");
      state := StateWrite(state, REQUIRED, "0");
      exit := EXIT_SUCCESS;
    }

    method CmdGate(name: string, filesOk: bool, copied: bool) returns (exit: int)
      modifies this
      ensures (state, exit) == Perform(old(state), Gate(name, filesOk, copied))
    {
      hide Decimal.Print, Write, Read, NumberIn, AsInt;
      var current := StateRead(state, PHASE_NAME, NAME_BUFFER);
      if name != (if current.Some? then current.value else "") { return EXIT_ERROR; }
      if !filesOk { return EXIT_ERROR; }
      var phase := Number(PHASE_NUM);
      phase := AsInt(phase) + 1;
      state := StateWrite(state, PHASE_NUM, Decimal.Print(phase));
      state := StateWrite(state, PHASE_NAME, "UNNAMED");
      exit := if copied then EXIT_SUCCESS else EXIT_ERROR;
    }

    method CmdPhaseName(name: string) returns (exit: int)
      modifies this
      ensures (state, exit) == Perform(old(state), SetName(name))
    {
      hide Write;
      state := StateWrite(state, PHASE_NAME, name);
      exit := EXIT_SUCCESS;
    }
  }

  // ---------- reading the file as a hub ----------

  lemma ZeroPrints()
    ensures Decimal.Print(0) == "0"
  {
    assert Decimal.DigitChar(0) == '0';
  }

  lemma NumberField(h: HubState, i: nat, n: nat)
    requires LegalHub(h) && i < 5 && n <= INT64_MAX && Pairs(h)[i].value == Decimal.Print(n)
    ensures Read(Render(Pairs(h)), Pairs(h)[i].key, 32).Some?
    ensures Decimal.Strtol(Read(Render(Pairs(h)), Pairs(h)[i].key, 32).value) == n
  {
    hide Decimal.Print, Decimal.Strtol, Render, Read, Write, Pairs;
    FieldAccess(h, i, "", 32);
    Decimal.NineteenDigits(n);
    ShortPrint(n);
    Decimal.StrtolPrint(n);
  }

  lemma ShortPrint(n: nat)
    requires n <= INT64_MAX
    ensures Truncate(Decimal.Print(n), 31) == Decimal.Print(n)
  {
    Decimal.NineteenDigits(n);
  }

  lemma CounterField(h: HubState)
    requires LegalHub(h)
    ensures Read(Render(Pairs(h)), COUNTER, 32).Some?
            && Decimal.Strtol(Read(Render(Pairs(h)), COUNTER, 32).value) == h.counter
  {
    hide Decimal.Print, Decimal.Strtol, Render, Read;
    NumberField(h, 2, h.counter);
  }

  lemma PhaseField(h: HubState)
    requires LegalHub(h)
    ensures Read(Render(Pairs(h)), PHASE_NUM, 32).Some?
            && Decimal.Strtol(Read(Render(Pairs(h)), PHASE_NUM, 32).value) == h.phase
  {
    hide Decimal.Print, Decimal.Strtol, Render, Read;
    NumberField(h, 0, h.phase);
  }

  lemma RequiredField(h: HubState)
    requires LegalHub(h)
    ensures Read(Render(Pairs(h)), REQUIRED, 32).Some?
    ensures Decimal.Strtol(Read(Render(Pairs(h)), REQUIRED, 32).value) == if h.required then 1 else 0
  {
    hide Decimal.Strtol, Render, Read;
    assert Decimal.DigitChar(1) == '1' && Decimal.DigitChar(0) == '0';
    NumberField(h, 3, if h.required then 1 else 0);
  }

  lemma SpawnedField(h: HubState)
    requires LegalHub(h)
    ensures Read(Render(Pairs(h)), SPAWNED, 32).Some?
            && Decimal.Strtol(Read(Render(Pairs(h)), SPAWNED, 32).value) == h.spawned
  {
    hide Decimal.Print, Decimal.Strtol, Render, Read;
    NumberField(h, 4, h.spawned);
  }

  lemma NameField(h: HubState)
    requires LegalHub(h)
    ensures NameIn(Render(Pairs(h))) == h.name
  {
    hide Decimal.Print, Render, Read, Write;
    FieldAccess(h, 1, "", NAME_BUFFER);
  }

  lemma NumbersIn(h: HubState)
    requires LegalHub(h)
    ensures NumberIn(Render(Pairs(h)), PHASE_NUM) == h.phase && NumberIn(Render(Pairs(h)), COUNTER) == h.counter
    ensures NumberIn(Render(Pairs(h)), REQUIRED) == (if h.required then 1 else 0)
    ensures NumberIn(Render(Pairs(h)), SPAWNED) == h.spawned
  {
    hide Decimal.Strtol, Render, Read, Pairs;
    SpawnedField(h);
    PhaseField(h);
    CounterField(h);
    RequiredField(h);
  }

  lemma SmallInt(n: nat)
    requires n <= INT_MAX
    ensures AsInt(n) == n
  {
  }

  /** The commands that a hub can take and stay one: names that read back, and counts that an int can hold. */
  predicate Fine(h: HubState, c: Command) {
    match c
    case Spawn(_, now) => now <= INT64_MAX
    case Result(_) => h.counter < INT_MAX
    case Gate(_, _, _) => h.phase < INT_MAX
    case SetName(name) => LegalName(name)
    case Audit(_, _) => true
  }

  lemma ApplyLegal(h: HubState, c: Command)
    requires LegalHub(h) && Fine(h, c)
    ensures LegalHub(Apply(h, c).0)
  {
    hide Acceptable;
  }

  /** On the file of a hub every command does what it does to the hub. */
  lemma PerformApplies(h: HubState, c: Command)
    requires LegalHub(h) && Fine(h, c)
    ensures Perform(Render(Pairs(h)), c) == (Render(Pairs(Apply(h, c).0)), Apply(h, c).1)
  {
    hide Decimal.Print, Render, Write, NumberIn, NameIn, AsInt, Acceptable, Pairs;
    NumbersIn(h);
    NameField(h);
    match c
    case Spawn(_, now) => PutsSpawned(h, now);
    case Result(_) =>
      SmallInt(h.counter);
      PutsCounter(h, h.counter + 1);
      PutsRequired(h.(counter := h.counter + 1), true);
    case Audit(_, _) =>
      ZeroPrints();
      PutsCounter(h, 0);
      PutsRequired(h.(counter := 0), false);
    case Gate(_, _, _) =>
      SmallInt(h.phase);
      PutsPhase(h, h.phase + 1);
      PutsName(h.(phase := h.phase + 1), "UNNAMED");
    case SetName(name) => PutsName(h, name);
  }

  lemma PutsPhase(h: HubState, phase: nat)
    requires LegalHub(h)
    ensures Write(Render(Pairs(h)), PHASE_NUM, Decimal.Print(phase)) == Render(Pairs(h.(phase := phase)))
  {
    hide Decimal.Print, Render, Write;
    Becomes(h, h.(phase := phase), 0);
  }

  lemma PutsName(h: HubState, name: string)
    requires LegalHub(h)
    ensures Write(Render(Pairs(h)), PHASE_NAME, name) == Render(Pairs(h.(name := name)))
  {
    hide Decimal.Print, Render, Write;
    Becomes(h, h.(name := name), 1);
  }

  lemma PutsCounter(h: HubState, counter: nat)
    requires LegalHub(h)
    ensures Write(Render(Pairs(h)), COUNTER, Decimal.Print(counter)) == Render(Pairs(h.(counter := counter)))
  {
    hide Decimal.Print, Render, Write;
    Becomes(h, h.(counter := counter), 2);
  }

  lemma PutsRequired(h: HubState, required: bool)
    requires LegalHub(h)
    ensures Write(Render(Pairs(h)), REQUIRED, Bit(required)) == Render(Pairs(h.(required := required)))
  {
    hide Decimal.Print, Render, Write;
    Becomes(h, h.(required := required), 3);
  }

  lemma PutsSpawned(h: HubState, now: nat)
    requires LegalHub(h)
    ensures Write(Render(Pairs(h)), SPAWNED, Decimal.Print(now)) == Render(Pairs(h.(spawned := now)))
  {
    hide Decimal.Print, Render, Write;
    Becomes(h, h.(spawned := now), 4);
  }

  /** The five writes of cmd_init build the file of the initial state. */
  lemma InitialFile(now: nat)
    requires now <= INT64_MAX
    ensures var f1 := Write("", PHASE_NUM, "0");
            var f2 := Write(f1, PHASE_NAME, "PLANNING");
            var f3 := Write(f2, COUNTER, "0");
            var f4 := Write(f3, REQUIRED, "0");
            LegalHub(HubState(0, "PLANNING", 0, false, now))
            && Write(f4, SPAWNED, Decimal.Print(now)) == Render(Pairs(HubState(0, "PLANNING", 0, false, now)))
  {
    hide Decimal.Print, Render, Write, LegalKey, Put, AllLegal;
    var h := HubState(0, "PLANNING", 0, false, now);
    var ps := Pairs(h);
    ZeroPrints();
    KeysLegal();
    PairsLegal(h);
    EmptyRender();
    forall n: nat | n < 5
      ensures AllLegal(ps[..n]) && Write(Render(ps[..n]), ps[n].key, ps[n].value) == Render(ps[..n + 1])
    {
      Grow(ps, n);
    }
    assert ps[..0] == [] && ps[..5] == ps;
    assert ps[0] == Pair(PHASE_NUM, "0") && ps[1] == Pair(PHASE_NAME, "PLANNING") && ps[2] == Pair(COUNTER, "0");
    assert ps[3] == Pair(REQUIRED, "0") && ps[4] == Pair(SPAWNED, Decimal.Print(now));
  }

  lemma EmptyRender()
    ensures Render([]) == ""
  {
  }

  lemma Grow(ps: seq<Pair>, n: nat)
    requires AllLegal(ps) && n < |ps| && forall i, j | 0 <= i < j < |ps| :: ps[i].key != ps[j].key
    ensures AllLegal(ps[..n]) && Write(Render(ps[..n]), ps[n].key, ps[n].value) == Render(ps[..n + 1])
  {
    hide LegalPair, Render, Write;
    NoOther(ps[..n], ps[n].key, "");
    KeyOf(ps[n]);
    WritePut(ps[..n], ps[n].key, ps[n].value);
    assert ps[..n + 1] == ps[..n] + [ps[n]];
  }
}
