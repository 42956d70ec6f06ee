/** Chats of the machine of ChatStore that take no more messages, from anybody or from one author, and never will. */
module ChatFull {
  import opened Bytes
  import opened Limits
  import opened TextFile
  import Participants
  import opened Wire
  import opened ChatFile
  import opened ChatStore

  // ---------- what most steps leave alone ----------

  lemma ComputeKeepsChat(s: Store, id: nat, c: Call, first: string, t: Store)
    requires id in s.calls && Compute(s, id, c, first) == Some(t)
    ensures t.live == s.live && t.history == s.history && t.cut == s.cut && t.owners == s.owners
    ensures !Archiving(t.calls[id].phase)
    ensures forall j | j in t.calls && j != id :: j in s.calls && t.calls[j] == s.calls[j]
  {
    hide Fits, EncodedLine, Read, SendFrom, Participants.Update, Lines, Collect;
  }

  /** A call between its rename and the end of its archive step. */
  predicate Archiving(p: Phase) {
    p.Committed? || p.Archived? || p.TrimWriting? || p.TrimClosed?
  }

  ghost predicate NobodyArchives(s: Store) {
    forall id | id in s.calls :: !Archiving(s.calls[id].phase)
  }

  /** A step of one call that neither renames nor archives. */
  ghost predicate Aside(s: Store, id: nat, t: Store) {
    && t.live == s.live && t.history == s.history && t.cut == s.cut && t.owners == s.owners && id in t.calls
    && (Archiving(t.calls[id].phase) ==> id in s.calls && Archiving(s.calls[id].phase))
    && forall j | j in t.calls && j != id :: j in s.calls && t.calls[j] == s.calls[j]
  }

  lemma FirstSteps(s: Store, id: nat, a: Action, t: Store)
    requires Next(s, id, a) == Some(t)
    requires a.Begin? || a.Acquire? || a.ReadState? || a.ReadLines? || a.OpenTmp? || a.WriteTmp?
    ensures Aside(s, id, t)
  {
    hide Fits, LegalField, Compute, Holds, MayFail;
    if a.ReadLines? {
      ComputeKeepsChat(s, id, s.calls[id], s.calls[id].phase.first, t);
    }
  }

  lemma CloseStep(s: Store, id: nat, t: Store)
    requires Next(s, id, CloseTmp) == Some(t)
    ensures Aside(s, id, t)
  {
    hide Fits, LegalField, Compute, Holds, MayFail;
  }

  lemma FailStep(s: Store, id: nat, rc: int, t: Store)
    requires Next(s, id, Fail(rc)) == Some(t)
    ensures Aside(s, id, t)
  {
    hide Fits, LegalField, Compute, Holds, MayFail;
  }

  lemma LastSteps(s: Store, id: nat, a: Action, t: Store)
    requires Next(s, id, a) == Some(t)
    requires a.EndArchive? || a.Release? || a.AcquireForCursor? || a.Return? || a.Crash?
    ensures Aside(s, id, t)
  {
    hide Fits, LegalField, Compute, Holds, MayFail;
  }

  lemma OtherSteps(s: Store, id: nat, a: Action, t: Store)
    requires Next(s, id, a) == Some(t) && !a.Rename? && !a.RenameArchive? && !a.OpenTrim? && !a.RenameTrim?
    ensures Aside(s, id, t)
  {
    hide Next, Aside;
    match a
    case CloseTmp => CloseStep(s, id, t);
    case Fail(rc) => FailStep(s, id, rc, t);
    case EndArchive => LastSteps(s, id, a, t);
    case Release => LastSteps(s, id, a, t);
    case AcquireForCursor => LastSteps(s, id, a, t);
    case Return => LastSteps(s, id, a, t);
    case Crash => LastSteps(s, id, a, t);
    case _ => FirstSteps(s, id, a, t);
  }

  lemma ArchiveSteps(s: Store, id: nat, a: Action, t: Store)
    requires Next(s, id, a) == Some(t) && (a.RenameArchive? || a.OpenTrim? || a.RenameTrim?)
    ensures id in s.calls && Archiving(s.calls[id].phase) && t.history == s.history && t.owners == s.owners
  {
    hide Fits, LegalField, Compute, HeaderFits, ArchiveText, TrimmedText, Truncate, Participants.Format, Holds, MayFail;
  }

  lemma RenameStep(s: Store, id: nat, t: Store)
    requires Next(s, id, Rename) == Some(t)
    ensures id in s.calls && s.calls[id].phase.Closed?
    ensures t.history == s.history + [s.calls[id].msg] && t.owners == s.owners + [id]
  {
    hide Fits, LegalField, Compute, Holds, MayFail;
  }

  // ---------- 10001 lines ----------

  /** The live file has the one line more than chat_send can read, and no archive step is under way. */
  ghost predicate Frozen(s: Store) {
    |s.history| - s.cut == MAX_MESSAGES + 1 && NobodyArchives(s)
  }

  lemma NoRename(s: Store, id: nat)
    requires Inv(s) && Frozen(s) && id in s.calls
    ensures !s.calls[id].phase.Closed?
  {
    hide Inv, NobodyArchives;
    if s.calls[id].phase.Closed? {
      HolderPrepared(s, id);
    }
  }

  lemma FrozenStep(s: Store, id: nat, a: Action, t: Store)
    requires Inv(s) && Frozen(s) && Next(s, id, a) == Some(t)
    ensures Frozen(t) && t.live == s.live && t.history == s.history && t.cut == s.cut && t.owners == s.owners
  {
    hide Inv, Next, Archiving;
    if a.Rename? {
      RenameStep(s, id, t);
      NoRename(s, id);
    } else if a.RenameArchive? || a.OpenTrim? || a.RenameTrim? {
      ArchiveSteps(s, id, a, t);
    } else {
      OtherSteps(s, id, a, t);
      SamePhases(s, id, t);
    }
  }

  lemma SamePhases(s: Store, id: nat, t: Store)
    requires NobodyArchives(s) && Aside(s, id, t)
    ensures NobodyArchives(t)
  {
    hide Archiving;
  }

  /** From then on nothing changes the chat any more: whatever runs, the live file and the history stay as they are. */
  lemma {:induction false} FrozenForGood(s: Store, events: seq<Event>, t: Store)
    requires Inv(s) && Frozen(s) && Run(s, events) == Some(t)
    ensures Inv(t) && Frozen(t) && t.live == s.live && t.history == s.history && t.cut == s.cut && t.owners == s.owners
    decreases |events|
  {
    hide Inv, Next, Frozen;
    if events != [] {
      var e := events[0];
      var next := Next(s, e.id, e.action).value;
      StepKeepsInv(s, e.id, e.action, next);
      FrozenStep(s, e.id, e.action, next);
      FrozenForGood(next, events[1..], t);
    }
  }

  // ---------- too many authors ----------

  function Table(s: Store): seq<Participants.Participant> { Participants.Tally(Authors(s.history), MAX_PARTICIPANTS) }

  /** With this author the participants would not fit in chat_send's buffer. */
  predicate Barred(s: Store, handle: string) {
    |Participants.Update(Table(s), handle, MAX_PARTICIPANTS)| * (MAX_HANDLE_LEN + 14) >= PARTS_BUFFER
  }

  /** Another author's message does not make room. */
  lemma UpdateKeepsBarred(ps: seq<Participants.Participant>, other: string, handle: string)
    requires |Participants.Update(ps, handle, MAX_PARTICIPANTS)| * (MAX_HANDLE_LEN + 14) >= PARTS_BUFFER
    requires |Participants.Update(ps, other, MAX_PARTICIPANTS)| * (MAX_HANDLE_LEN + 14) < PARTS_BUFFER
    ensures other != handle
    ensures var qs := Participants.Update(ps, other, MAX_PARTICIPANTS);
            |Participants.Update(qs, handle, MAX_PARTICIPANTS)| * (MAX_HANDLE_LEN + 14) >= PARTS_BUFFER
  {
    assert PARTS_BUFFER == 52 * (MAX_HANDLE_LEN + 14) + 40;
    var qs := Participants.Update(ps, other, MAX_PARTICIPANTS);
    assert |qs| == |ps| == 52;
    assert forall k | 0 <= k < |qs| :: qs[k].handle == ps[k].handle;
  }

  lemma BarredRename(s: Store, id: nat, t: Store, handle: string)
    requires Inv(s) && Barred(s, handle) && Next(s, id, Rename) == Some(t)
    ensures Barred(t, handle) && id in s.calls && s.calls[id].msg.handle != handle
  {
    hide Inv, Next, Participants.Update, Participants.Tally;
    RenameStep(s, id, t);
    HolderPrepared(s, id);
    PreparedFits(s, s.calls[id]);
    AuthorsSnoc(s.history, s.calls[id].msg);
    UpdateKeepsBarred(Table(s), s.calls[id].msg.handle, handle);
  }

  lemma PreparedFits(s: Store, c: Call)
    requires ChatOk(s) && c.phase.Closed? && Prepared(s, c, c.phase.text, c.phase.lines, c.phase.parts)
    ensures |Participants.Update(Table(s), c.msg.handle, MAX_PARTICIPANTS)| * (MAX_HANDLE_LEN + 14) < PARTS_BUFFER
  {
    hide Render, Participants.Update, Participants.Tally, EncodedLine;
  }

  /** The messages behind the first `n` are not by this author. */
  predicate NoneBy(history: seq<Message>, n: nat, handle: string) {
    forall i | n <= i < |history| :: history[i].handle != handle
  }

  lemma BarredStep(s: Store, id: nat, a: Action, t: Store, handle: string, n: nat)
    requires Inv(s) && Barred(s, handle) && Next(s, id, a) == Some(t) && NoneBy(s.history, n, handle)
    ensures Barred(t, handle) && NoneBy(t.history, n, handle) && s.owners <= t.owners
  {
    hide Inv, Next, Participants.Update, Participants.Tally;
    if a.Rename? {
      RenameStep(s, id, t);
      BarredRename(s, id, t, handle);
    } else if a.RenameArchive? || a.OpenTrim? || a.RenameTrim? {
      ArchiveSteps(s, id, a, t);
    } else {
      OtherSteps(s, id, a, t);
    }
  }

  /** An author for whom there is no room never gets a message in, whatever the others do. */
  lemma {:induction false} BarredForGood(s: Store, events: seq<Event>, t: Store, handle: string, n: nat)
    requires Inv(s) && Barred(s, handle) && Run(s, events) == Some(t) && NoneBy(s.history, n, handle)
    ensures Inv(t) && Barred(t, handle) && NoneBy(t.history, n, handle) && s.owners <= t.owners
    decreases |events|
  {
    hide Inv, Next, Barred, NoneBy;
    if events != [] {
      var e := events[0];
      var next := Next(s, e.id, e.action).value;
      StepKeepsInv(s, e.id, e.action, next);
      BarredStep(s, e.id, e.action, next, handle, n);
      BarredForGood(next, events[1..], t, handle, n);
    }
  }

  // ---------- when a send can succeed ----------

  predicate HasSent(t: Store, id: nat, m: Message) {
    id in t.calls && t.calls[id].msg == m && t.calls[id].phase == Returned(0)
  }

  /** Some run, of this call and of any others, makes the call return 0. */
  ghost predicate CanSend(s: Store, id: nat, m: Message) {
    exists events, t :: Run(s, events) == Some(t) && HasSent(t, id, m)
  }

  /**
   * From a reachable state with the lock free a new call has a run in which it stores its message and returns 0
   * exactly if the chat is not too full for it; if it is, no run of any calls changes that.
   */
  lemma SendPossible(s: Store, id: nat, m: Message, stamp: string)
    requires Reachable(s) && s.lock == None && id !in s.calls && Fits(m) && LegalField(stamp)
             && s.cut <= |s.history| < INT_MAX
    ensures CanSend(s, id, m) <==> !TooFull(LiveChat(s), m.handle)
  {
    ReachableInv(s);
    hide Reachable, Inv, Fits, LegalField, OrderOk, Run, HasSent, LiveChat, TooFull;
    if TooFull(LiveChat(s), m.handle) {
      forall events, t | Run(s, events) == Some(t) ensures !HasSent(t, id, m) {
        NotSent(s, id, m, events, t);
      }
    } else {
      SendCompletes(s, id, m, stamp);
      var events := Preparing(id, m, stamp) + (Installing(id) + Leaving(id));
      Sent(Run(s, events).value, id, m);
    }
  }

  lemma Sent(t: Store, id: nat, m: Message)
    requires id in t.calls && t.calls[id].msg == m && t.calls[id].phase == Returned(0)
    ensures HasSent(t, id, m)
  {
  }

  lemma NotSent(s: Store, id: nat, m: Message, events: seq<Event>, t: Store)
    requires Inv(s) && s.lock == None && id !in s.calls && Run(s, events) == Some(t) && s.cut <= |s.history|
    requires TooFull(LiveChat(s), m.handle)
    ensures !HasSent(t, id, m)
  {
    hide Inv, Run, Barred, Participants.Update, Participants.Tally, Frozen;
    FullEither(s, m.handle);
    InvOwners(s);
    if Barred(s, m.handle) {
      BarredForGood(s, events, t, m.handle, |s.history|);
    } else {
      FrozenForGood(s, events, t);
    }
    InvOwners(t);
    hide OwnersOk;
    OwnsNothing(s, id, m, t);
  }

  lemma FullEither(s: Store, handle: string)
    requires Inv(s) && s.lock == None && s.cut <= |s.history| && TooFull(LiveChat(s), handle)
    ensures Barred(s, handle) || Frozen(s)
  {
    hide ArchivesOk, OwnersOk, HolderOk, LegalChat, Render, Participants.Update, Participants.Tally, AllFit;
    NoHolder(s);
    forall id | id in s.calls ensures !Archiving(s.calls[id].phase) {
      assert !Holds(s.calls[id].phase);
    }
  }

  lemma OwnsNothing(s: Store, id: nat, m: Message, t: Store)
    requires OwnersOk(s) && OwnersOk(t) && id !in s.calls && s.owners <= t.owners
             && NoneBy(t.history, |s.history|, m.handle)
    ensures !HasSent(t, id, m)
  {
    forall i | 0 <= i < |t.owners| ensures t.owners[i] == id ==> t.history[i].handle != m.handle {
      assert i < |s.owners| ==> t.owners[i] == s.owners[i];
    }
  }
}
