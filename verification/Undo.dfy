/** Marking messages for deletion, undo and redo: src/nbs-chat-edit/editor.c. */
module Undo {

  const MAX_UNDO: nat := 256

  datatype Entry = Entry(index: nat, wasDeleted: bool)

  /**
   * The editor as a value. `lost` observes the changes that a full undo stack refused to record: a message
   * enters or leaves it with every refused change, as long as the stack has no older entry for it.
   */
  datatype State = State(flags: seq<bool>, cursor: int, dirty: bool, undo: seq<Entry>, redo: seq<Entry>, lost: set<nat>)

  predicate Touched(stack: seq<Entry>, i: nat) {
    exists k :: 0 <= k < |stack| && stack[k].index == i
  }

  function Flip(lost: set<nat>, i: nat): set<nat> {
    if i in lost then lost - {i} else lost + {i}
  }

  function Lose(s: State, i: nat): set<nat> {
    if Touched(s.undo, i) then s.lost else Flip(s.lost, i)
  }

  function Push(s: State, e: Entry): State {
    if |s.undo| < MAX_UNDO then s.(undo := s.undo + [e], redo := []) else s.(redo := [], lost := Lose(s, e.index))
  }

  predicate AnyMarked(flags: seq<bool>) {
    exists i :: 0 <= i < |flags| && flags[i]
  }

  predicate OnMessage(s: State) {
    0 <= s.cursor < |s.flags|
  }

  /** Key d: toggle the mark and move on. */
  function Toggle(s: State): State {
    if OnMessage(s) then
      var p := Push(s, Entry(s.cursor, s.flags[s.cursor]));
      p.(flags := s.flags[s.cursor := !s.flags[s.cursor]], dirty := true,
         cursor := if s.cursor < |s.flags| - 1 then s.cursor + 1 else s.cursor)
    else s
  }

  function MarkFrom(s: State, i: nat): (r: State)
    ensures |r.flags| == |s.flags|
    decreases |s.flags| - i
  {
    if i >= |s.flags| then s
    else if s.flags[i] then MarkFrom(s, i + 1)
    else MarkFrom(Push(s, Entry(i, false)).(flags := s.flags[i := true]), i + 1)
  }

  /** Key t: mark this message and all behind it. */
  function MarkRest(s: State): State {
    if OnMessage(s) then MarkFrom(s, s.cursor).(dirty := true) else s
  }

  /** One entry moves from the top of one stack to the other, with the mark as it was before the move. */
  function Swap(flags: seq<bool>, e: Entry): Entry {
    if e.index < |flags| then Entry(e.index, flags[e.index]) else e
  }

  function Set(flags: seq<bool>, e: Entry): (r: seq<bool>)
    ensures |r| == |flags|
  {
    if e.index < |flags| then flags[e.index := e.wasDeleted] else flags
  }

  /** Key u. */
  function UndoOne(s: State): State {
    if s.undo == [] then s
    else
      var e, flags := s.undo[|s.undo| - 1], Set(s.flags, s.undo[|s.undo| - 1]);
      State(flags, e.index, AnyMarked(flags), s.undo[..|s.undo| - 1],
            if |s.redo| < MAX_UNDO then s.redo + [Swap(s.flags, e)] else s.redo, s.lost)
  }

  /** Key Ctrl-R. */
  function RedoOne(s: State): State {
    if s.redo == [] then s
    else
      var e, flags := s.redo[|s.redo| - 1], Set(s.flags, s.redo[|s.redo| - 1]);
      State(flags, e.index, AnyMarked(flags),
            if |s.undo| < MAX_UNDO then s.undo + [Swap(s.flags, e)] else s.undo, s.redo[..|s.redo| - 1], s.lost)
  }

  // ---------- the editor in place ----------

  class Editor {
    const flags: array<bool>
    var cursor: int
    var dirty: bool
    const undoStack: array<Entry>
    var undoTop: nat
    const redoStack: array<Entry>
    var redoTop: nat
    ghost var lost: set<nat>

    ghost predicate Valid()
      reads this, undoStack, redoStack
    {
      && undoStack != redoStack && undoStack.Length == redoStack.Length == MAX_UNDO
      && undoTop <= MAX_UNDO && redoTop <= MAX_UNDO
      && (forall i | 0 <= i < undoTop :: undoStack[i].index < flags.Length)
      && forall i | 0 <= i < redoTop :: redoStack[i].index < flags.Length
    }

    ghost function View(): State
      reads this, flags, undoStack, redoStack
      requires Valid()
    {
      State(flags[..], cursor, dirty, undoStack[..undoTop], redoStack[..redoTop], lost)
    }

    constructor (count: nat)
      ensures Valid() && fresh(flags) && fresh(undoStack) && fresh(redoStack)
      ensures View() == State(seq(count, _ => false), 0, false, [], [], {})
    {
      flags := new bool[count](_ => false);
      undoStack := new Entry[MAX_UNDO](_ => Entry(0, false));
      redoStack := new Entry[MAX_UNDO](_ => Entry(0, false));
      cursor, dirty, undoTop, redoTop, lost := 0, false, 0, 0, {};
      new;
      assert flags[..] == seq(count, _ => false);
    }

    method UndoPush(e: Entry)
      requires Valid() && e.index < flags.Length
      modifies this, undoStack
      ensures Valid() && View() == Push(old(View()), e)
    {
      if undoTop < MAX_UNDO {
        undoStack[undoTop] := e;
        undoTop := undoTop + 1;
      } else {
        lost := Lose(View(), e.index);
      }
      redoTop := 0;
    }

    method KeyD()
      requires Valid()
      modifies this, flags, undoStack
      ensures Valid() && View() == Toggle(old(View()))
    {
      if 0 <= cursor < flags.Length {
        UndoPush(Entry(cursor, flags[cursor]));
        flags[cursor] := !flags[cursor];
        dirty := true;
        if cursor < flags.Length - 1 { cursor := cursor + 1; }
      }
    }

    method KeyT()
      requires Valid()
      modifies this, flags, undoStack
      ensures Valid() && View() == MarkRest(old(View()))
    {
      if 0 <= cursor < flags.Length {
        var i := cursor;
        while i < flags.Length
          invariant Valid() && cursor == old(cursor) <= i <= flags.Length
          invariant MarkFrom(View(), i) == MarkFrom(old(View()), old(cursor))
        {
          if !flags[i] {
            UndoPush(Entry(i, false));
            flags[i] := true;
          }
          i := i + 1;
        }
        dirty := true;
      }
    }

    method CheckDirty()
      requires Valid()
      modifies this`dirty
      ensures Valid() && View() == old(View()).(dirty := AnyMarked(flags[..]))
    {
      dirty := false;
      var i := 0;
      while i < flags.Length
        invariant 0 <= i <= flags.Length && !dirty && Valid() && View() == old(View()).(dirty := false)
        invariant forall k | 0 <= k < i :: !flags[k]
      {
        if flags[i] {
          dirty := true;
          assert flags[..][i];
          return;
        }
        i := i + 1;
      }
    }

    method KeyU()
      requires Valid()
      modifies this, flags, redoStack
      ensures Valid() && View() == UndoOne(old(View()))
    {
      if undoTop > 0 {
        undoTop := undoTop - 1;
        var e := undoStack[undoTop];
        if redoTop < MAX_UNDO {
          redoStack[redoTop] := Entry(e.index, flags[e.index]);
          redoTop := redoTop + 1;
        }
        flags[e.index] := e.wasDeleted;
        cursor := e.index;
        CheckDirty();
      }
    }

    method KeyCtrlR()
      requires Valid()
      modifies this, flags, undoStack
      ensures Valid() && View() == RedoOne(old(View()))
    {
      if redoTop > 0 {
        redoTop := redoTop - 1;
        var e := redoStack[redoTop];
        if undoTop < MAX_UNDO {
          undoStack[undoTop] := Entry(e.index, flags[e.index]);
          undoTop := undoTop + 1;
        }
        flags[e.index] := e.wasDeleted;
        cursor := e.index;
        CheckDirty();
      }
    }

    /** Key q: no mark is thrown away in any state that a run of keys can reach. */
    method KeyQ() returns (quits: bool)
      requires Valid()
      ensures quits && (exists base :: Inv(View(), base)) ==> !AnyMarked(View().flags)
      ensures !dirty ==> quits
    {
      quits := !dirty;
    }
  }

  // ---------- over all runs of keys ----------

  /** Navigation of the viewer may put the cursor anywhere. */
  datatype Key = D | T | U | CtrlR | GoTo(cursor: int)

  function Next(s: State, k: Key): State {
    match k
    case D => Toggle(s)
    case T => MarkRest(s)
    case U => UndoOne(s)
    case CtrlR => RedoOne(s)
    case GoTo(c) => s.(cursor := c)
  }

  function Run(s: State, keys: seq<Key>): (r: State)
    ensures |r.flags| == |s.flags|
    decreases |keys|
  {
    if keys == [] then s else Run(Next(s, keys[0]), keys[1..])
  }

  /** The marks after the whole undo stack has been popped. */
  function Unwind(flags: seq<bool>, stack: seq<Entry>): (r: seq<bool>)
    ensures |r| == |flags|
    decreases |stack|
  {
    if stack == [] then flags else Unwind(Set(flags, stack[|stack| - 1]), stack[..|stack| - 1])
  }

  predicate DiffersIn(a: seq<bool>, b: seq<bool>, where: set<nat>) {
    |a| == |b| && forall i | 0 <= i < |a| :: a[i] != b[i] <==> i in where
  }

  predicate Inv(s: State, base: seq<bool>) {
    && |s.undo| + |s.redo| <= MAX_UNDO
    && (forall i | 0 <= i < |s.undo| :: s.undo[i].index < |s.flags|)
    && (forall i | 0 <= i < |s.redo| :: s.redo[i].index < |s.flags|)
    && (AnyMarked(s.flags) ==> s.dirty)
    && DiffersIn(Unwind(s.flags, s.undo), base, s.lost)
  }

  /** Pushing the old mark before changing it keeps what undoing everything leads to. */
  lemma PushKeepsBase(flags: seq<bool>, undo: seq<Entry>, i: nat, mark: bool)
    requires i < |flags|
    ensures Unwind(flags[i := mark], undo + [Entry(i, flags[i])]) == Unwind(flags, undo)
  {
    assert (undo + [Entry(i, flags[i])])[..|undo|] == undo;
    assert flags[i := mark][i := flags[i]] == flags;
  }

  /** Undoing everything leaves a mark alone exactly when the stack has no entry for it. */
  lemma {:induction false} UnwindAt(flags: seq<bool>, other: seq<bool>, stack: seq<Entry>, i: nat)
    requires |flags| == |other| && i < |flags| && forall j | 0 <= j < |flags| && j != i :: flags[j] == other[j]
    ensures Touched(stack, i) ==> Unwind(flags, stack) == Unwind(other, stack)
    ensures !Touched(stack, i) ==> Unwind(flags, stack)[i] == flags[i] && Unwind(other, stack)[i] == other[i]
    ensures forall j | 0 <= j < |flags| && j != i :: Unwind(flags, stack)[j] == Unwind(other, stack)[j]
    decreases |stack|
  {
    if stack != [] {
      var n := |stack| - 1;
      var rest, e := stack[..n], stack[n];
      assert stack == rest + [e];
      assert Touched(rest, i) ==> Touched(stack, i);
      if e.index == i {
        assert Touched(stack, i);
        assert Set(flags, e) == Set(other, e);
      } else {
        assert Touched(stack, i) ==> Touched(rest, i) by {
          if Touched(stack, i) {
            var k :| 0 <= k < |stack| && stack[k].index == i;
            assert rest[k].index == i;
          }
        }
        UnwindAt(Set(flags, e), Set(other, e), rest, i);
      }
    } else {
      assert !Touched(stack, i);
    }
  }

  /** A change of mark that the full stack refuses to record: undoing everything then ends elsewhere, in `lost`. */
  lemma RefusedPush(s: State, i: nat, base: seq<bool>)
    requires |s.undo| >= MAX_UNDO && i < |s.flags| && DiffersIn(Unwind(s.flags, s.undo), base, s.lost)
    ensures var t := Push(s, Entry(i, s.flags[i])).(flags := s.flags[i := !s.flags[i]]);
            t.undo == s.undo && DiffersIn(Unwind(t.flags, t.undo), base, t.lost)
  {
    hide Touched, Unwind;
    UnwindAt(s.flags[i := !s.flags[i]], s.flags, s.undo, i);
  }

  /** Every change of mark, recorded or refused. */
  lemma PushKeeps(s: State, i: nat, base: seq<bool>)
    requires i < |s.flags| && DiffersIn(Unwind(s.flags, s.undo), base, s.lost)
    ensures var t := Push(s, Entry(i, s.flags[i])).(flags := s.flags[i := !s.flags[i]]);
            DiffersIn(Unwind(t.flags, t.undo), base, t.lost)
  {
    hide Touched, Unwind, DiffersIn, Lose;
    if |s.undo| < MAX_UNDO {
      PushKeepsBase(s.flags, s.undo, i, !s.flags[i]);
    } else {
      RefusedPush(s, i, base);
    }
  }

  lemma {:induction false} MarkFromKeeps(s: State, i: nat, base: seq<bool>)
    requires Inv(s.(dirty := true), base)
    ensures Inv(MarkFrom(s, i).(dirty := true), base)
    decreases |s.flags| - i
  {
    hide Unwind, AnyMarked, DiffersIn, Lose;
    if i < |s.flags| {
      if s.flags[i] {
        MarkFromKeeps(s, i + 1, base);
      } else {
        PushKeeps(s, i, base);
        MarkFromKeeps(Push(s, Entry(i, false)).(flags := s.flags[i := true]), i + 1, base);
      }
    }
  }

  lemma RedoKeepsBase(s: State)
    requires s.redo != [] && s.redo[|s.redo| - 1].index < |s.flags|
    ensures var e := s.redo[|s.redo| - 1];
            Unwind(Set(s.flags, e), s.undo + [Swap(s.flags, e)]) == Unwind(s.flags, s.undo)
  {
    var e := s.redo[|s.redo| - 1];
    PushKeepsBase(s.flags, s.undo, e.index, e.wasDeleted);
  }

  lemma ToggleKeeps(s: State, base: seq<bool>)
    requires Inv(s, base)
    ensures Inv(Toggle(s), base)
  {
    hide Unwind, AnyMarked, DiffersIn, Lose;
    if OnMessage(s) {
      PushKeeps(s, s.cursor, base);
    }
  }

  lemma MarkRestKeeps(s: State, base: seq<bool>)
    requires Inv(s, base)
    ensures Inv(MarkRest(s), base)
  {
    hide Unwind, AnyMarked, MarkFrom;
    if OnMessage(s) {
      MarkFromKeeps(s, s.cursor, base);
    }
  }

  lemma UndoKeeps(s: State, base: seq<bool>)
    requires Inv(s, base)
    ensures Inv(UndoOne(s), base)
  {
    hide AnyMarked;
  }

  lemma RedoKeeps(s: State, base: seq<bool>)
    requires Inv(s, base)
    ensures Inv(RedoOne(s), base)
  {
    hide Unwind, AnyMarked;
    if s.redo != [] {
      RedoKeepsBase(s);
    }
  }

  lemma NextKeeps(s: State, k: Key, base: seq<bool>)
    requires Inv(s, base)
    ensures Inv(Next(s, k), base)
  {
    hide Unwind, AnyMarked, Toggle, MarkRest, UndoOne, RedoOne;
    match k
    case D => ToggleKeeps(s, base);
    case T => MarkRestKeeps(s, base);
    case U => UndoKeeps(s, base);
    case CtrlR => RedoKeeps(s, base);
    case GoTo(_) =>
  }

  lemma {:induction false} RunKeeps(s: State, keys: seq<Key>, base: seq<bool>)
    requires Inv(s, base)
    ensures Inv(Run(s, keys), base)
    decreases |keys|
  {
    hide Inv, Next;
    if keys != [] {
      NextKeeps(s, keys[0], base);
      RunKeeps(Next(s, keys[0]), keys[1..], base);
    }
  }

  predicate Fresh(s: State) {
    s.undo == [] && s.redo == [] && s.lost == {} && !AnyMarked(s.flags)
  }

  function UndoTimes(s: State, n: nat): (r: State)
    ensures |r.flags| == |s.flags|
    decreases n
  {
    if n == 0 then s else UndoTimes(UndoOne(s), n - 1)
  }

  lemma {:induction false} UndoTimesUnwinds(s: State)
    ensures UndoTimes(s, |s.undo|).flags == Unwind(s.flags, s.undo) && UndoTimes(s, |s.undo|).undo == []
    decreases |s.undo|
  {
    if s.undo != [] {
      UndoTimesUnwinds(UndoOne(s));
    }
  }

  /**
   * After any run of keys: pressing u until nothing is left to undo gives the marks that the run began with
   * except for the messages in `lost`, and the two stacks together never hold more than 256 entries.
   */
  lemma UndoRestores(s: State, keys: seq<Key>)
    requires Fresh(s)
    ensures var t := Run(s, keys);
            && DiffersIn(UndoTimes(t, |t.undo|).flags, s.flags, t.lost)
            && |t.undo| + |t.redo| <= MAX_UNDO
  {
    RunKeeps(s, keys, s.flags);
    UndoTimesUnwinds(Run(s, keys));
  }

  /** After any run of keys q quits only with nothing marked, so it never throws a mark away. */
  lemma QuitLosesNothing(s: State, keys: seq<Key>)
    requires Fresh(s)
    ensures var t := Run(s, keys); !t.dirty ==> t.flags == s.flags
  {
    hide Run;
    RunKeeps(s, keys, s.flags);
  }

  /** The other way q is cautious: it refuses with nothing marked only after a d took the last mark off. */
  lemma FalseAlarm(s: State, k: Key, base: seq<bool>)
    requires Inv(s, base) && !(s.dirty && !AnyMarked(s.flags))
    ensures var t := Next(s, k);
            t.dirty && !AnyMarked(t.flags)
            <==> k == D && OnMessage(s) && s.flags[s.cursor] && !AnyMarked(s.flags[s.cursor := false])
  {
    hide Unwind, DiffersIn, Lose;
    if k == D && OnMessage(s) {
      assert !s.flags[s.cursor] ==> Toggle(s).flags[s.cursor];
    } else if k == T && OnMessage(s) {
      MarksAll(s, s.cursor);
      assert MarkRest(s).flags[s.cursor];
    }
  }

  lemma {:induction false} MarksAll(s: State, i: nat)
    ensures forall j | 0 <= j < |s.flags| :: MarkFrom(s, i).flags[j] == (s.flags[j] || i <= j)
    decreases |s.flags| - i
  {
    hide Lose;
    if i < |s.flags| {
      MarksAll(if s.flags[i] then s else Push(s, Entry(i, false)).(flags := s.flags[i := true]), i + 1);
    }
  }

  /** Ctrl-R after u restores the marks and both stacks. */
  lemma RedoAfterUndo(s: State, base: seq<bool>)
    requires Inv(s, base) && s.undo != []
    ensures var t := RedoOne(UndoOne(s)); t.flags == s.flags && t.undo == s.undo && t.redo == s.redo
  {
    hide AnyMarked, Unwind;
  }

  /** So does u after Ctrl-R. */
  lemma UndoAfterRedo(s: State, base: seq<bool>)
    requires Inv(s, base) && s.redo != []
    ensures var t := UndoOne(RedoOne(s)); t.flags == s.flags && t.undo == s.undo && t.redo == s.redo
  {
    hide AnyMarked, Unwind;
  }

  // ---------- what each key does to the marks ----------

  /** d changes the mark under the cursor and no other, and goes on to the next message if there is one. */
  lemma TogglesOne(s: State)
    requires OnMessage(s)
    ensures var t := Toggle(s);
            && |t.flags| == |s.flags|
               && (forall j | 0 <= j < |s.flags| :: t.flags[j] == (s.flags[j] != (j == s.cursor)))
            && t.cursor == (if s.cursor + 1 < |s.flags| then s.cursor + 1 else s.cursor) && t.dirty
  {
    hide Lose;
  }

  lemma {:induction false} SameCursor(s: State, i: nat)
    ensures MarkFrom(s, i).cursor == s.cursor
    decreases |s.flags| - i
  {
    hide Lose;
    if i < |s.flags| {
      SameCursor(if s.flags[i] then s else Push(s, Entry(i, false)).(flags := s.flags[i := true]), i + 1);
    }
  }

  /** t marks the message under the cursor and all behind it, leaves those in front as they are, and the cursor. */
  lemma MarksRest(s: State)
    requires OnMessage(s)
    ensures var t := MarkRest(s);
            && |t.flags| == |s.flags| && (forall j | 0 <= j < |s.flags| :: t.flags[j] == (s.flags[j] || s.cursor <= j))
            && t.cursor == s.cursor && t.dirty
  {
    MarksAll(s, s.cursor);
    SameCursor(s, s.cursor);
  }

  /** The marks and the cursor when one entry is put back: no other mark changes. */
  predicate PutBack(s: State, t: State, e: Entry) {
    && |t.flags| == |s.flags| && t.cursor == e.index
    && forall j | 0 <= j < |s.flags| :: t.flags[j] == if j == e.index then e.wasDeleted else s.flags[j]
  }

  /** u puts back the last entry of its stack, Ctrl-R the last of its own; without one they do nothing. */
  lemma PutsBack(s: State)
    ensures s.undo != [] ==> PutBack(s, UndoOne(s), s.undo[|s.undo| - 1]) && UndoOne(s).undo == s.undo[..|s.undo| - 1]
    ensures s.redo != [] ==> PutBack(s, RedoOne(s), s.redo[|s.redo| - 1]) && RedoOne(s).redo == s.redo[..|s.redo| - 1]
    ensures (s.undo == [] ==> UndoOne(s) == s) && (s.redo == [] ==> RedoOne(s) == s)
  {
    hide AnyMarked;
  }

  // ---------- marks that undoing does not take off ----------

  /** Key t on its way through a chat without marks, before message `i`. */
  ghost predicate Swept(s: State, i: nat) {
    && i <= |s.flags| && |s.undo| == (if i < MAX_UNDO then i else MAX_UNDO)
    && (forall j | 0 <= j < |s.undo| :: s.undo[j].index == j)
    && (forall j | i <= j < |s.flags| :: !s.flags[j])
    && forall j: nat :: j in s.lost <==> MAX_UNDO <= j < i
  }

  lemma SweepStep(s: State, i: nat)
    requires Swept(s, i) && i < |s.flags|
    ensures Swept(Push(s, Entry(i, false)).(flags := s.flags[i := true]), i + 1)
  {
    assert !Touched(s.undo, i);
  }

  lemma {:induction false} SweepAll(s: State, i: nat)
    requires Swept(s, i)
    ensures Swept(MarkFrom(s, i), |s.flags|)
    decreases |s.flags| - i
  {
    hide Swept, Push;
    if i < |s.flags| {
      SweepStep(s, i);
      Unmarked(s, i);
      SweepAll(Push(s, Entry(i, false)).(flags := s.flags[i := true]), i + 1);
    } else {
      SweptEnd(s, i);
    }
  }

  lemma Unmarked(s: State, i: nat)
    requires Swept(s, i) && i < |s.flags|
    ensures !s.flags[i]
  {
  }

  lemma SweptEnd(s: State, i: nat)
    requires Swept(s, i) && i >= |s.flags|
    ensures i == |s.flags|
  {
  }

  /** In a longer chat than the stack t on the first message marks more than undoing everything takes off again. */
  lemma MarksStay(s: State, i: nat)
    requires Fresh(s) && s.cursor == 0 && MAX_UNDO <= i < |s.flags|
    ensures var t := Run(s, [T]); i in t.lost && UndoTimes(t, |t.undo|).flags[i] && !s.flags[i]
  {
    hide AnyMarked;
    NoneMarked(s);
    SweepAll(s, 0);
    OneKey(s, T);
    hide Run, Next, MarkFrom;
    UndoRestores(s, [T]);
  }

  lemma NoneMarked(s: State)
    requires Fresh(s)
    ensures forall i | 0 <= i < |s.flags| :: !s.flags[i]
  {
  }

  lemma OneKey(s: State, k: Key)
    ensures Run(s, [k]) == Next(s, k)
  {
    hide Next;
    assert [k][1..] == [];
  }
}
