/**
 * Which messages a reader that asks for its unread ones gets to see, over whole runs of sends, archive steps,
 * reads, truncations and cursor settings, each taken as one step.
 */
module DeliveryRuns {
  import opened Bytes
  import opened Limits
  import opened Cursors
  import opened Delivery

  // ---------- the steps ----------

  /**
   * A chat of `total` messages so far, the first `cut` of them archived, with its cursor table. For one reader
   * the messages it was shown, those that its cursor passed without showing them, and those that its cursor
   * went back over; a message that takes the place of a deleted one counts as the one before.
   */
  datatype State = State(total: nat, cut: nat, cursors: seq<Cursor>, printed: seq<int>, skipped: seq<int>,
    rewound: seq<int>)

  /**
   * What becomes of the archive step of a send: it runs, it is given up before the live file is trimmed, or
   * the file is trimmed and the cursors stay as they were, with success (0) or failure (-1) reported.
   */
  datatype Step = Done | Abandoned | Unshifted | UnshiftedFailed

  /**
   * A send with its cursor, or without it: chat_send gives the lock back before it writes the cursor, so that
   * this may fail, or happen later as a SetCursor of its own. A read may fail to write its cursor, too.
   */
  datatype Op =
    | Send(author: string, step: Step)
    | Post(author: string, step: Step)
    | Read(handle: string, wrote: bool)
    | Truncated(keep: nat)
    | SetCursor(handle: string, index: nat)

  function Range(a: int, b: int): (r: seq<int>)
    ensures |r| == (if a <= b then b - a else 0) && forall i | 0 <= i < |r| :: r[i] == a + i
  {
    seq(if a <= b then b - a else 0, i => a + i)
  }

  function Lines(s: State): int { s.total - s.cut }

  /** The message behind the reader's cursor, which may lie beyond the chat. */
  function Position(s: State, reader: string): int {
    s.cut + Get(s.cursors, reader) + 1
  }

  function Least(a: int, b: int): int { if a <= b then a else b }

  /** The first message that the reader's cursor has not passed. */
  function Reached(s: State, reader: string): int {
    Least(Position(s, reader), s.total)
  }

  predicate Archives(s: State, step: Step) {
    Lines(s) + 1 > ARCHIVE_THRESHOLD && step != Abandoned
  }

  /** chat_send up to the point where it gives the lock back: the message and the archive step above the threshold. */
  function AfterPost(s: State, step: Step): State {
    if Archives(s, step) then
      s.(total := s.total + 1, cut := s.cut + ARCHIVE_CLEAVE, cursors := if step == Done then Shift(s.cursors)
        else s.cursors)
    else s.(total := s.total + 1)
  }

  /** The index that it then writes for its author. */
  function PostIndex(s: State, step: Step): int {
    if Archives(s, step) && step != UnshiftedFailed then Lines(s) - ARCHIVE_CLEAVE else Lines(s)
  }

  function WithCursor(s: State, handle: string, index: int): State {
    s.(cursors := Put(s.cursors, handle, index))
  }

  /** `cmd_read --unread`, with the part of the live file that it prints. */
  function AfterRead(s: State, handle: string): (State, int, int)
    requires s.cut <= s.total
  {
    var count := s.total - s.cut;
    var (start, clamped) := UnreadFrom(count, Get(s.cursors, handle));
    var t := if clamped.Some? then WithCursor(s, handle, clamped.value) else s;
    (if count > start then WithCursor(t, handle, count - 1) else t, start, count)
  }

  /** What a step does to the chat and its cursors. */
  function After(s: State, op: Op): State
    requires s.cut <= s.total
  {
    match op
    case Send(author, step) => WithCursor(AfterPost(s, step), author, PostIndex(s, step))
    case Post(_, step) => AfterPost(s, step)
    case Read(handle, wrote) => if wrote then AfterRead(s, handle).0 else s
    case Truncated(keep) => s.(total := Least(s.total, s.cut + keep))
    case SetCursor(handle, index) => WithCursor(s, handle, index)
  }

  /** What a step means for one reader: what it passes, goes back over or is shown. */
  function Next(s: State, reader: string, op: Op): State
    requires s.cut <= s.total
  {
    var t := After(s, op);
    if op.Read? && op.handle == reader then
      var (_, start, end) := AfterRead(s, reader);
      t.(printed := s.printed + Range(s.cut + start, s.cut + end), rewound :=
        s.rewound + Range(Reached(t, reader), s.total))
    else
      t.(skipped := s.skipped + Range(Reached(s, reader), Reached(t, reader)),
         rewound := s.rewound + Range(Reached(t, reader), Reached(s, reader)))
  }

  predicate NonNegative(cs: seq<Cursor>) {
    forall i | 0 <= i < |cs| :: 0 <= cs[i].index
  }

  predicate CursorsOk(s: State) {
    s.cut <= s.total && |s.cursors| <= MAX_PARTICIPANTS && NonNegative(s.cursors)
  }

  function Run(s: State, reader: string, ops: seq<Op>): State
    requires s.cut <= s.total
    decreases |ops|
  {
    if ops == [] then s
    else
      var t := Next(s, reader, ops[0]);
      if t.cut <= t.total then Run(t, reader, ops[1..]) else t
  }

  // ---------- where each step leaves a reader ----------

  lemma {:induction false} GetBounds(cs: seq<Cursor>, handle: string)
    requires NonNegative(cs)
    ensures -1 <= Get(cs, handle) && (Get(cs, handle) == -1 <==> Missing(cs, handle))
  {
    if cs != [] {
      GetBounds(cs[1..], handle);
      if Missing(cs[1..], handle) && cs[0].handle != handle {
        assert Missing(cs, handle);
      }
    }
  }

  lemma PutBounds(cs: seq<Cursor>, author: string, index: int)
    requires 0 <= index && |cs| <= MAX_PARTICIPANTS && NonNegative(cs)
    ensures |Put(cs, author, index)| <= MAX_PARTICIPANTS && NonNegative(Put(cs, author, index))
  {
  }

  lemma {:induction false} PutKeeps(cs: seq<Cursor>, handle: string, index: int, reader: string)
    requires !Missing(cs, reader)
    ensures !Missing(Put(cs, handle, index), reader)
  {
    var i :| 0 <= i < |cs| && cs[i].handle == reader;
    assert Put(cs, handle, index)[i].handle == reader;
  }

  lemma ShiftKeeps(cs: seq<Cursor>, reader: string)
    ensures NonNegative(Shift(cs)) && (Missing(Shift(cs), reader) <==> Missing(cs, reader))
  {
    assert forall i | 0 <= i < |cs| :: Shift(cs)[i].handle == cs[i].handle;
  }

  lemma PostOk(s: State, step: Step)
    requires CursorsOk(s)
    ensures CursorsOk(AfterPost(s, step)) && PostIndex(s, step) >= 0
  {
    hide Shift, NonNegative;
    ShiftKeeps(s.cursors, "");
  }

  lemma WithCursorOk(s: State, handle: string, index: int)
    requires CursorsOk(s) && index >= 0
    ensures CursorsOk(WithCursor(s, handle, index))
  {
    hide Put, NonNegative;
    PutBounds(s.cursors, handle, index);
  }

  lemma StepOk(s: State, op: Op)
    requires CursorsOk(s)
    ensures CursorsOk(After(s, op))
  {
    hide CursorsOk, WithCursor, AfterPost, PostIndex, Get;
    Basics(s);
    match op
    case Send(author, step) =>
      PostOk(s, step);
      WithCursorOk(AfterPost(s, step), author, PostIndex(s, step));
    case Post(_, step) => PostOk(s, step);
    case Read(handle, _) =>
      var count := s.total - s.cut;
      var (start, clamped) := UnreadFrom(count, Get(s.cursors, handle));
      if clamped.Some? {
        WithCursorOk(s, handle, clamped.value);
      } else if count > start {
        WithCursorOk(s, handle, count - 1);
      }
    case Truncated(keep) => ShorterOk(s, keep);
    case SetCursor(handle, index) => WithCursorOk(s, handle, index);
  }

  lemma Basics(s: State)
    requires CursorsOk(s)
    ensures s.cut <= s.total
  {
  }

  lemma ShorterOk(s: State, keep: nat)
    requires CursorsOk(s)
    ensures CursorsOk(s.(total := Least(s.total, s.cut + keep)))
  {
  }

  /** The position of a reader with an entry behind the archive step of a send, its own cursor write left aside. */
  function Carried(s: State, step: Step, reader: string): int {
    if !Archives(s, step) then Position(s, reader)
    else if step != Done then Position(s, reader) + ARCHIVE_CLEAVE
    else if Get(s.cursors, reader) < ARCHIVE_CLEAVE then s.cut + ARCHIVE_CLEAVE + 1
    else Position(s, reader)
  }

  /**
   * Where a step puts a reader with an entry. Its own message carries it behind that message; an archive step
   * moves a cursor c below 1000 to the message k + 1001, and one that leaves the cursors alone moves every
   * reader a thousand on; a read goes to the end; a truncation leaves the cursor where it was.
   */
  function Goal(s: State, op: Op, reader: string): int {
    match op
    case Send(author, step) =>
      if author != reader then Carried(s, step, reader)
      else if Archives(s, step) && step == UnshiftedFailed then s.total + 1 + ARCHIVE_CLEAVE
      else s.total + 1
    case Post(_, step) => Carried(s, step, reader)
    case Read(handle, wrote) =>
      if handle != reader || !wrote then Position(s, reader)
      else if s.total == s.cut then s.total + 1
      else s.total
    case Truncated(_) => Position(s, reader)
    case SetCursor(handle, index) => if handle == reader then s.cut + index + 1 else Position(s, reader)
  }

  lemma PostMoves(s: State, step: Step, reader: string)
    requires CursorsOk(s) && !Missing(s.cursors, reader)
    ensures !Missing(AfterPost(s, step).cursors, reader)
            && Position(AfterPost(s, step), reader) == Carried(s, step, reader)
  {
    hide Shift, Get, Missing;
    GetBounds(s.cursors, reader);
    GetShift(s.cursors, reader);
    ShiftKeeps(s.cursors, reader);
  }

  lemma WithCursorMoves(s: State, handle: string, index: int, reader: string)
    requires !Missing(s.cursors, reader)
    ensures var t := WithCursor(s, handle, index);
            && !Missing(t.cursors, reader)
            && Position(t, reader) == if handle == reader then s.cut + index + 1 else Position(s, reader)
  {
    hide Put, Get, Missing;
    GetPut(s.cursors, handle, index, reader);
    PutKeeps(s.cursors, handle, index, reader);
  }

  lemma ReadPosition(s: State, handle: string, reader: string)
    requires CursorsOk(s) && !Missing(s.cursors, reader)
    ensures var t := AfterRead(s, handle).0;
            && !Missing(t.cursors, reader) && t.cut == s.cut && t.total == s.total
            && Position(t, reader) == Goal(s, Read(handle, true), reader)
  {
    hide Get, Missing, WithCursor;
    GetBounds(s.cursors, handle);
    GetBounds(s.cursors, reader);
    var count := s.total - s.cut;
    var (start, clamped) := UnreadFrom(count, Get(s.cursors, handle));
    var index := if clamped.Some? then clamped.value else count - 1;
    WithCursorMoves(s, handle, index, reader);
    SameChat(s, handle, index);
  }

  lemma SameChat(s: State, handle: string, index: int)
    ensures WithCursor(s, handle, index).cut == s.cut && WithCursor(s, handle, index).total == s.total
  {
  }

  lemma OpMoves(s: State, op: Op, reader: string)
    requires CursorsOk(s) && !Missing(s.cursors, reader)
    ensures !Missing(After(s, op).cursors, reader) && Position(After(s, op), reader) == Goal(s, op, reader)
  {
    hide Get, Missing, WithCursor, AfterPost, PostIndex, NonNegative;
    match op
    case Send(author, step) =>
      PostMoves(s, step, reader);
      WithCursorMoves(AfterPost(s, step), author, PostIndex(s, step), reader);
      OwnPlace(s, step);
    case Post(_, step) => PostMoves(s, step, reader);
    case Read(handle, _) => ReadPosition(s, handle, reader);
    case Truncated(_) =>
    case SetCursor(handle, index) => WithCursorMoves(s, handle, index, reader);
  }

  lemma OwnPlace(s: State, step: Step)
    ensures AfterPost(s, step).cut + PostIndex(s, step)
         == s.total + if Archives(s, step) && step == UnshiftedFailed then ARCHIVE_CLEAVE else 0
  {
  }

  /** What a step of any kind, a read of its own apart, makes a reader miss, and what it will be shown again. */
  lemma StepMisses(s: State, op: Op, reader: string)
    requires CursorsOk(s) && !Missing(s.cursors, reader) && !(op.Read? && op.handle == reader)
    ensures var t := Next(s, reader, op);
            var to := Least(Goal(s, op, reader), t.total);
            && t.printed == s.printed && Reached(t, reader) == to
            && t.skipped == s.skipped + Range(Reached(s, reader), to)
               && t.rewound == s.rewound + Range(to, Reached(s, reader))
  {
    OpMoves(s, op, reader);
    SamePrinted(s, op);
    NextReached(s, reader, op);
    hide After, Goal;
  }

  /**
   * A read shows its reader exactly the messages that its cursor has not passed; without its cursor write it
   * will show them again.
   */
  lemma ReadShows(s: State, reader: string, wrote: bool)
    requires CursorsOk(s) && !Missing(s.cursors, reader)
    ensures var t := Next(s, reader, Read(reader, wrote));
            && t.printed == s.printed + Range(Reached(s, reader), s.total) && t.skipped == s.skipped
            && Reached(t, reader) == (if wrote then s.total else Reached(s, reader))
            && t.rewound == s.rewound + if wrote then [] else Range(Reached(s, reader), s.total)
  {
    OpMoves(s, Read(reader, wrote), reader);
    NextReached(s, reader, Read(reader, wrote));
    OwnRead(s, reader, wrote);
    SameTotal(s, reader, wrote);
    hide Next, Missing, AfterRead, Get, Range;
    NoRange(s.total);
    assert s.rewound + [] == s.rewound;
  }

  lemma NoRange(a: int)
    ensures Range(a, a) == []
  {
  }

  lemma StartReached(s: State, reader: string)
    requires CursorsOk(s)
    ensures var (_, start, end) := AfterRead(s, reader); s.cut + start == Reached(s, reader) && s.cut + end == s.total
  {
    hide Get, Put;
    GetBounds(s.cursors, reader);
  }

  lemma SameTotal(s: State, reader: string, wrote: bool)
    requires CursorsOk(s)
    ensures After(s, Read(reader, wrote)).total == s.total && After(s, Read(reader, wrote)).cut == s.cut
    ensures After(s, Read(reader, wrote)).skipped == s.skipped
  {
    hide Get, Put;
  }

  // ---------- the ledger ----------

  function Times(q: seq<int>, i: int): nat { multiset(q)[i] }

  lemma TimesConcat(a: seq<int>, b: seq<int>, i: int)
    ensures Times(a + b, i) == Times(a, i) + Times(b, i)
  {
  }

  lemma {:induction false} RangeTimes(a: int, b: int, i: int)
    ensures Times(Range(a, b), i) == if a <= i < b then 1 else 0
    decreases b - a
  {
    if a < b {
      assert Range(a, b) == Range(a, b - 1) + [b - 1];
      RangeTimes(a, b - 1, i);
    } else {
      assert Range(a, b) == [];
    }
  }

  /** What the reader was shown or missed, less what its cursor went back over, is what its cursor has passed. */
  predicate Balanced(s: State, reader: string, i: int) {
    Times(s.printed, i) + Times(s.skipped, i) == Times(s.rewound, i) + if i < Reached(s, reader) then 1 else 0
  }

  lemma StepBalances(s: State, reader: string, op: Op, i: nat)
    requires CursorsOk(s) && Balanced(s, reader, i)
    ensures Balanced(Next(s, reader, op), reader, i)
  {
    var t := After(s, op);
    var a, b := Reached(s, reader), Reached(t, reader);
    if op.Read? && op.handle == reader {
      hide *;
      ReadBalances(s, reader, op.wrote, i);
    } else {
      hide *;
      MoveBalances(s, reader, op, i, a, b);
    }
  }

  lemma OwnRead(s: State, reader: string, wrote: bool)
    requires CursorsOk(s)
    ensures var t := Next(s, reader, Read(reader, wrote));
            && t.printed == s.printed + Range(Reached(s, reader), s.total) && t.skipped == s.skipped
            && t.rewound == s.rewound + Range(Reached(t, reader), s.total) && Reached(t, reader) <= s.total
  {
    StartReached(s, reader);
    SameTotal(s, reader, wrote);
    NextReached(s, reader, Read(reader, wrote));
    Beneath(After(s, Read(reader, wrote)), reader);
    hide After, AfterRead, Reached, Range, CursorsOk;
  }

  lemma ReadBalances(s: State, reader: string, wrote: bool, i: nat)
    requires CursorsOk(s) && Balanced(s, reader, i)
    ensures Balanced(Next(s, reader, Read(reader, wrote)), reader, i)
  {
    OwnRead(s, reader, wrote);
    Beneath(s, reader);
    var t := Next(s, reader, Read(reader, wrote));
    var a, b := Reached(s, reader), Reached(t, reader);
    hide Next, Times, Reached, Range, CursorsOk;
    TimesConcat(s.printed, Range(a, s.total), i);
    TimesConcat(s.rewound, Range(b, s.total), i);
    RangeTimes(a, s.total, i);
    RangeTimes(b, s.total, i);
  }

  lemma MoveBalances(s: State, reader: string, op: Op, i: nat, a: int, b: int)
    requires s.cut <= s.total && Balanced(s, reader, i) && !(op.Read? && op.handle == reader)
    requires a == Reached(s, reader) && b == Reached(After(s, op), reader)
    ensures Balanced(Next(s, reader, op), reader, i)
  {
    NextReached(s, reader, op);
    SamePrinted(s, op);
    hide After, Times, Reached, Range;
    TimesConcat(s.skipped, Range(a, b), i);
    TimesConcat(s.rewound, Range(b, a), i);
    RangeTimes(a, b, i);
    RangeTimes(b, a, i);
  }

  lemma SamePrinted(s: State, op: Op)
    requires s.cut <= s.total
    ensures After(s, op).printed == s.printed
  {
    hide Get, Put;
  }

  lemma Beneath(s: State, reader: string)
    ensures Reached(s, reader) <= s.total
  {
  }

  lemma NextReached(s: State, reader: string, op: Op)
    requires s.cut <= s.total
    ensures Reached(Next(s, reader, op), reader) == Reached(After(s, op), reader)
    ensures op.Read? ==> After(s, op).total == s.total
  {
    hide AfterPost, Put, Get, Range;
  }

  /**
   * Over every run of every kind of step, for any reader, with an entry or without: each message was shown or
   * missed once, and once more for each time that the cursor went back over it; or not yet, if the cursor has
   * not passed it.
   */
  lemma {:induction false} RunBalances(s: State, reader: string, ops: seq<Op>, i: nat)
    requires CursorsOk(s) && Balanced(s, reader, i)
    ensures CursorsOk(Run(s, reader, ops)) && Balanced(Run(s, reader, ops), reader, i)
    decreases |ops|
  {
    hide Next, Balanced, CursorsOk;
    Basics(s);
    if ops != [] {
      var t := Next(s, reader, ops[0]);
      StepBalances(s, reader, ops[0], i);
      NextOk(s, reader, ops[0]);
      Basics(t);
      RunBalances(t, reader, ops[1..], i);
    }
  }

  lemma NextOk(s: State, reader: string, op: Op)
    requires CursorsOk(s)
    ensures CursorsOk(Next(s, reader, op))
  {
    StepOk(s, op);
    hide After, AfterRead, NonNegative;
  }

  // ---------- runs in which nothing goes wrong with the cursors ----------

  predicate Increasing(q: seq<int>) {
    forall i, j | 0 <= i < j < |q| :: q[i] < q[j]
  }

  /** Both lists are in order, they have nothing in common, and together they are everything below `n`. */
  predicate Partition(p: seq<int>, q: seq<int>, n: int) {
    && Increasing(p) && Increasing(q)
    && (forall i | 0 <= i < |p| :: 0 <= p[i] < n && p[i] !in q)
    && (forall i | 0 <= i < |q| :: 0 <= q[i] < n)
    && forall i | 0 <= i < n :: i in p || i in q
  }

  predicate Inv(s: State, reader: string) {
    CursorsOk(s) && !Missing(s.cursors, reader) && Partition(s.printed, s.skipped, Reached(s, reader))
  }

  lemma ExtendPartition(p: seq<int>, q: seq<int>, n: nat, m: nat)
    requires Partition(p, q, n) && n <= m
    ensures Partition(p + Range(n, m), q, m) && Partition(p, q + Range(n, m), m)
  {
    var r := Range(n, m);
    forall i | 0 <= i < m ensures (i in p || i in q) || i in r {
      if n <= i { assert r[i - n] == i; }
    }
    assert forall i | i in r :: n <= i && i !in p && i !in q;
  }

  /** Sends and reads that write their cursors before anything else happens. */
  predicate Calm(op: Op) {
    op.Send? || (op.Read? && op.wrote)
  }

  predicate AllCalm(ops: seq<Op>) {
    forall i | 0 <= i < |ops| :: Calm(ops[i])
  }

  lemma GoesOn(s: State, op: Op, reader: string)
    requires CursorsOk(s) && Calm(op)
    ensures 0 <= Reached(s, reader) <= Least(Goal(s, op, reader), After(s, op).total) && s.total <= After(s, op).total
  {
    hide Get, Put, Shift;
    GetBounds(s.cursors, reader);
  }

  lemma CalmStep(s: State, op: Op, reader: string)
    requires Inv(s, reader) && Calm(op)
    ensures var t := Next(s, reader, op);
            && Inv(t, reader) && s.printed <= t.printed && s.skipped <= t.skipped && s.rewound == t.rewound
               && s.total <= t.total
  {
    hide Partition, Missing, After, Goal, Reached, CursorsOk;
    Basics(s);
    NextOk(s, reader, op);
    GoesOn(s, op, reader);
    OpMoves(s, op, reader);
    if op.Read? && op.handle == reader {
      ReadShows(s, reader, true);
      Beneath(s, reader);
      ExtendPartition(s.printed, s.skipped, Reached(s, reader), s.total);
      SameRead(s, reader);
    } else {
      StepMisses(s, op, reader);
      ExtendPartition(s.printed, s.skipped, Reached(s, reader), Least(Goal(s, op, reader), After(s, op).total));
    }
  }

  lemma SameRead(s: State, reader: string)
    requires CursorsOk(s)
    ensures Next(s, reader, Read(reader, true)).cursors == After(s, Read(reader, true)).cursors
    ensures Next(s, reader, Read(reader, true)).total == s.total
  {
    SameTotal(s, reader, true);
    hide After, AfterRead;
  }

  /**
   * Over every such run a reader with a cursor entry is shown no message twice and all in order, and what its
   * cursor has passed is exactly what it was shown and what it was made to miss.
   */
  lemma {:induction false} RunDelivers(s: State, reader: string, ops: seq<Op>)
    requires Inv(s, reader) && AllCalm(ops)
    ensures var t := Run(s, reader, ops);
            && Inv(t, reader) && Increasing(t.printed) && s.printed <= t.printed && s.skipped <= t.skipped
               && t.rewound == s.rewound
    decreases |ops|
  {
    hide Next, Inv;
    InvBasics(s, reader);
    if ops != [] {
      var t := Next(s, reader, ops[0]);
      CalmStep(s, ops[0], reader);
      InvBasics(t, reader);
      RunDelivers(t, reader, ops[1..]);
    }
  }

  lemma InvBasics(s: State, reader: string)
    requires Inv(s, reader)
    ensures s.cut <= s.total && Increasing(s.printed)
  {
  }

  /** Without an entry and without room for one a reader is shown the same messages every time. */
  lemma FullTableRepeats(s: State, reader: string)
    requires CursorsOk(s) && |s.cursors| == MAX_PARTICIPANTS && Missing(s.cursors, reader)
    ensures var t := Next(s, reader, Read(reader, true));
            && t.cursors == s.cursors && t.printed == s.printed + Range(s.cut, s.total)
            && Next(t, reader, Read(reader, true)).printed == t.printed + Range(s.cut, s.total)
  {
    GetMissing(s.cursors, reader);
  }

  // ---------- cursors beyond the file ----------

  predicate Below(cs: seq<Cursor>, count: int) {
    forall i | 0 <= i < |cs| :: cs[i].index < count
  }

  /** Every cursor points to a message of the live file. */
  predicate InRange(s: State) {
    CursorsOk(s) && Below(s.cursors, Lines(s))
  }

  /**
   * The steps that keep it so: no trim without a shift, no truncation below a cursor, no cursor set beyond the
   * file.
   */
  predicate Keeps(s: State, op: Op) {
    match op
    case Send(_, step) => !Archives(s, step) || step == Done
    case Post(_, step) => !Archives(s, step) || step == Done
    case Read(_, _) => true
    case Truncated(keep) => keep >= Lines(s) || Below(s.cursors, keep)
    case SetCursor(_, index) => index < Lines(s)
  }

  lemma PutBelow(cs: seq<Cursor>, handle: string, index: int, count: int)
    requires index < count && Below(cs, count)
    ensures Below(Put(cs, handle, index), count)
  {
  }

  lemma ShiftBelow(cs: seq<Cursor>, count: int)
    requires count > ARCHIVE_CLEAVE && Below(cs, count)
    ensures Below(Shift(cs), count - ARCHIVE_CLEAVE)
  {
  }

  lemma BelowMore(cs: seq<Cursor>, count: int, more: int)
    requires Below(cs, count) && count <= more
    ensures Below(cs, more)
  {
  }

  lemma {:induction false} GetBelow(cs: seq<Cursor>, handle: string, count: nat)
    requires Below(cs, count)
    ensures Get(cs, handle) < count
  {
    if cs != [] {
      GetBelow(cs[1..], handle, count);
    }
  }

  lemma PostInRange(s: State, step: Step)
    requires InRange(s) && (!Archives(s, step) || step == Done)
    ensures Below(AfterPost(s, step).cursors, Lines(AfterPost(s, step)))
            && PostIndex(s, step) < Lines(AfterPost(s, step))
  {
    hide Shift, Below, NonNegative;
    BelowMore(s.cursors, Lines(s), Lines(s) + 1);
    if Archives(s, step) {
      ShiftBelow(s.cursors, Lines(s) + 1);
    }
  }

  /**
   * Cursors get beyond the file, so that a read has to set one back, only by a step that is not among those;
   * and a truncation below a cursor, or a setting beyond the file that takes effect, always does it.
   */
  lemma StaysInRange(s: State, op: Op)
    requires InRange(s)
    ensures Keeps(s, op) ==> InRange(After(s, op))
    ensures op.Truncated? ==> (InRange(After(s, op)) <==> Keeps(s, op))
    ensures op.SetCursor? && !Missing(s.cursors, op.handle) ==> (InRange(After(s, op)) <==> Keeps(s, op))
    ensures op.Read? ==> UnreadFrom(s.total - s.cut, Get(s.cursors, op.handle)).1 == None
  {
    hide Put, Get, Shift, NonNegative, AfterPost, PostIndex, Below, Missing;
    StepOk(s, op);
    match op
    case Send(author, step) =>
      if Keeps(s, op) {
        PostInRange(s, step);
        PutBelow(AfterPost(s, step).cursors, author, PostIndex(s, step), Lines(AfterPost(s, step)));
      }
    case Post(_, step) =>
      if Keeps(s, op) { PostInRange(s, step); }
    case Read(handle, _) =>
      GetBelow(s.cursors, handle, s.total - s.cut);
      if s.total > s.cut {
        PutBelow(s.cursors, handle, s.total - s.cut - 1, s.total - s.cut);
      }
    case Truncated(keep) =>
    case SetCursor(handle, index) =>
      if Keeps(s, op) {
        PutBelow(s.cursors, handle, index, Lines(s));
      } else if !Missing(s.cursors, handle) {
        PutBeyond(s.cursors, handle, index, Lines(s));
      }
  }

  lemma PutBeyond(cs: seq<Cursor>, handle: string, index: int, count: int)
    requires index >= count && !Missing(cs, handle)
    ensures !Below(Put(cs, handle, index), count)
  {
    var i :| 0 <= i < |cs| && cs[i].handle == handle;
    assert Put(cs, handle, index)[i].index == index;
  }

  /** A cursor beyond the file: what is sent next is missed, unless a read sets the cursor back before. */
  lemma BeyondMisses(s: State, author: string, reader: string)
    requires CursorsOk(s) && !Missing(s.cursors, reader) && Position(s, reader) > s.total && author != reader
    requires !Archives(s, Abandoned)
    ensures var t := Next(s, reader, Send(author, Abandoned));
            t.skipped == s.skipped + [s.total] && t.rewound == s.rewound
    ensures s.total > s.cut ==>
              var r := Next(s, reader, Read(reader, true));
              Next(r, reader, Send(author, Abandoned)).skipped == s.skipped
  {
    hide After, Get, Missing;
    StepMisses(s, Send(author, Abandoned), reader);
    SentTotal(s, author);
    assert Range(s.total, s.total + 1) == [s.total];
    if s.total > s.cut {
      var r := Next(s, reader, Read(reader, true));
      OpMoves(s, Read(reader, true), reader);
      ReadShows(s, reader, true);
      SameRead(s, reader);
      NextOk(s, reader, Read(reader, true));
      StepMisses(r, Send(author, Abandoned), reader);
      SentTotal(r, author);
      assert r.skipped + [] == r.skipped;
    }
  }

  lemma SentTotal(s: State, author: string)
    requires s.cut <= s.total
    ensures After(s, Send(author, Abandoned)).total == s.total + 1 && After(s, Send(author, Abandoned)).cut == s.cut
  {
    hide Put;
  }

  /** After everything was deleted the reader's own read does not help: it never sees the first message that comes. */
  lemma EmptiedMisses(s: State, author: string, reader: string)
    requires CursorsOk(s) && !Missing(s.cursors, reader) && author != reader
    ensures var t := Next(s, reader, Truncated(0));
            t.cut <= t.total && var r := Next(t, reader, Read(reader, true));
            r.cut <= r.total && Next(r, reader, Send(author, Done)).skipped == r.skipped + [s.cut]
  {
    hide Get, Missing, Put, Shift;
    var t := Next(s, reader, Truncated(0));
    NextOk(s, reader, Truncated(0));
    OpMoves(t, Read(reader, true), reader);
    SameRead(t, reader);
    NextOk(t, reader, Read(reader, true));
    var r := Next(t, reader, Read(reader, true));
    GetBounds(s.cursors, reader);
    StepMisses(r, Send(author, Done), reader);
    assert Range(s.cut, s.cut + 1) == [s.cut];
  }

  // ---------- late cursors ----------

  lemma {:induction false} CutGrows(s: State, reader: string, ops: seq<Op>)
    requires CursorsOk(s)
    ensures s.cut <= Run(s, reader, ops).cut && CursorsOk(Run(s, reader, ops))
    decreases |ops|
  {
    hide CursorsOk, Next;
    Basics(s);
    if ops != [] {
      var t := Next(s, reader, ops[0]);
      NextOk(s, reader, ops[0]);
      Basics(t);
      CutStep(s, reader, ops[0]);
      CutGrows(t, reader, ops[1..]);
    }
  }

  lemma CutStep(s: State, reader: string, op: Op)
    requires CursorsOk(s)
    ensures s.cut <= Next(s, reader, op).cut
  {
    hide Get, Put, Shift;
  }

  lemma {:induction false} StaysKnown(s: State, reader: string, ops: seq<Op>)
    requires CursorsOk(s) && !Missing(s.cursors, reader)
    ensures !Missing(Run(s, reader, ops).cursors, reader)
    decreases |ops|
  {
    hide CursorsOk, Next, Missing;
    Basics(s);
    if ops != [] {
      var t := Next(s, reader, ops[0]);
      NextOk(s, reader, ops[0]);
      Basics(t);
      KnownStep(s, ops[0], reader);
      StaysKnown(t, reader, ops[1..]);
    }
  }

  lemma KnownStep(s: State, op: Op, reader: string)
    requires CursorsOk(s) && !Missing(s.cursors, reader)
    ensures !Missing(Next(s, reader, op).cursors, reader)
  {
    OpMoves(s, op, reader);
    hide After, AfterRead, Missing;
  }

  /**
   * A send that gives the lock back at `s` and writes its cursor only after a run of other steps: the cursor
   * then stands behind its message plus as many messages as were archived in between, and where its author
   * had read on in the meantime it goes back.
   */
  lemma LateCursor(s: State, step: Step, ops: seq<Op>, author: string)
    requires CursorsOk(s) && !Missing(s.cursors, author) && (Archives(s, step) ==> step != UnshiftedFailed)
    ensures CursorsOk(AfterPost(s, step)) && PostIndex(s, step) >= 0
    ensures var sent := AfterPost(s, step);
            var t := Run(sent, author, ops);
            t.cut <= t.total && sent.cut <= t.cut
            && Position(Next(t, author, SetCursor(author, PostIndex(s, step))), author) == s.total + 1
               + (t.cut - sent.cut)
  {
    hide Get, Missing, AfterPost, PostIndex, WithCursor, CursorsOk;
    var sent := AfterPost(s, step);
    PostOk(s, step);
    PostMoves(s, step, author);
    Basics(sent);
    CutGrows(sent, author, ops);
    StaysKnown(sent, author, ops);
    var t := Run(sent, author, ops);
    Basics(t);
    OwnPlace(s, step);
    WithCursorMoves(t, author, PostIndex(s, step), author);
  }
}
