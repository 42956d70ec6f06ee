/**
 * The archive files over whole runs of the machine of ChatStore: which messages each of them holds, when two
 * hold the same ones, and runs that archive.
 */
module ChatArchives {
  import opened Bytes
  import opened Limits
  import Participants
  import opened TextFile
  import opened Wire
  import opened ChatFile
  import opened ChatStore
  import HeaderRoom

  // ---------- where archives begin ----------

  predicate Aligned(n: nat) { n % ARCHIVE_CLEAVE == 0 }

  /** Two archives begin at the same message. */
  ghost predicate Shared(starts: map<string, nat>) {
    exists a, b :: a in starts && b in starts && a != b && starts[a] == starts[b]
  }

  ghost predicate StartsOk(s: Store) {
    && Aligned(s.cut)
    && (forall name | name in s.starts :: Aligned(s.starts[name]) && s.starts[name] <= s.cut)
    && (forall name | name in s.starts :: name in s.loose <==> s.starts[name] == s.cut)
    && (forall name | name in s.loose :: name in s.starts)
    && (s.again <==> Shared(s.starts))
  }

  lemma AlignedNext(n: nat)
    requires Aligned(n)
    ensures Aligned(n + ARCHIVE_CLEAVE)
  {
  }

  lemma AlignedApart(m: nat, n: nat)
    requires Aligned(m) && Aligned(n) && m < n
    ensures m + ARCHIVE_CLEAVE <= n
  {
  }

  lemma InitStarts(s: Store)
    requires Init(s)
    ensures StartsOk(s)
  {
    hide FileText;
  }

  lemma ComputeKeepsStarts(s: Store, id: nat, c: Call, first: string, t: Store)
    requires id in s.calls && Compute(s, id, c, first) == Some(t)
    ensures t.cut == s.cut && t.starts == s.starts && t.loose == s.loose && t.again == s.again
  {
    hide Fits, EncodedLine, Read, SendFrom, Participants.Update, Lines, Collect;
  }

  predicate SameStarts(s: Store, t: Store) {
    t.cut == s.cut && t.starts == s.starts && t.loose == s.loose && t.again == s.again
  }

  lemma FirstKeepStarts(s: Store, id: nat, a: Action, t: Store)
    requires Next(s, id, a) == Some(t)
    requires a.Begin? || a.Acquire? || a.ReadState? || a.ReadLines? || a.OpenTmp? || a.WriteTmp?
    ensures SameStarts(s, t)
  {
    hide Fits, LegalField, Compute, Holds, MayFail;
    if a.ReadLines? {
      ComputeKeepsStarts(s, id, s.calls[id], s.calls[id].phase.first, t);
    }
  }

  lemma RenamesKeepStarts(s: Store, id: nat, a: Action, t: Store)
    requires Next(s, id, a) == Some(t) && (a.CloseTmp? || a.Rename? || a.Fail? || a.OpenTrim?)
    ensures SameStarts(s, t)
  {
    hide Fits, LegalField, HeaderFits, Compute, TrimmedText, Truncate, Participants.Format, Holds, MayFail;
  }

  lemma LastKeepStarts(s: Store, id: nat, a: Action, t: Store)
    requires Next(s, id, a) == Some(t) && (a.EndArchive? || a.Release? || a.AcquireForCursor? || a.Return? || a.Crash?)
    ensures SameStarts(s, t)
  {
    hide Fits, LegalField, Compute, Holds, MayFail;
  }

  lemma OthersKeepStarts(s: Store, id: nat, a: Action, t: Store)
    requires Next(s, id, a) == Some(t) && !a.RenameArchive? && !a.RenameTrim?
    ensures SameStarts(s, t)
  {
    hide Next, SameStarts;
    if a.Begin? || a.Acquire? || a.ReadState? || a.ReadLines? || a.OpenTmp? || a.WriteTmp? {
      FirstKeepStarts(s, id, a, t);
    } else if a.CloseTmp? || a.Rename? || a.Fail? || a.OpenTrim? {
      RenamesKeepStarts(s, id, a, t);
    } else {
      LastKeepStarts(s, id, a, t);
    }
  }

  lemma ArchiveSets(s: Store, id: nat, a: Action, t: Store)
    requires Next(s, id, a) == Some(t) && a.RenameArchive?
    ensures a.name !in s.archives && t.cut == s.cut && t.starts == s.starts[a.name := s.cut]
    ensures t.loose == s.loose + {a.name} && t.again == (s.again || s.loose != {})
  {
    hide Fits, LegalField, HeaderFits, Compute, ArchiveText, TrimmedText, Truncate, Participants.Format, Holds, MayFail;
  }

  lemma TrimSets(s: Store, id: nat, t: Store)
    requires Next(s, id, RenameTrim) == Some(t)
    ensures t.cut == s.cut + ARCHIVE_CLEAVE && t.starts == s.starts && t.loose == {} && t.again == s.again
  {
    hide Fits, LegalField, HeaderFits, Compute, ArchiveText, TrimmedText, Truncate, Participants.Format, Holds, MayFail;
  }

  lemma SharedMore(starts: map<string, nat>, name: string, start: nat)
    requires name !in starts
    ensures Shared(starts[name := start])
            <==> Shared(starts) || exists other :: other in starts && starts[other] == start
  {
    var more := starts[name := start];
    if Shared(more) {
      var a, b :| a in more && b in more && a != b && more[a] == more[b];
      if a == name {
        assert b in starts && starts[b] == start;
      } else if b == name {
        assert a in starts && starts[a] == start;
      }
    }
    if Shared(starts) {
      var a, b :| a in starts && b in starts && a != b && starts[a] == starts[b];
      assert more[a] == more[b];
    }
    if other :| other in starts && starts[other] == start {
      assert more[other] == more[name];
    }
  }

  lemma ArchiveKeepsStarts(s: Store, t: Store, name: string)
    requires StartsOk(s) && name !in s.starts && t.cut == s.cut && t.starts == s.starts[name := s.cut]
    requires t.loose == s.loose + {name} && t.again == (s.again || s.loose != {})
    ensures StartsOk(t)
  {
    hide Aligned, Shared;
    SharedMore(s.starts, name, s.cut);
    if s.loose != {} {
      var other :| other in s.loose;
      assert other in s.starts && s.starts[other] == s.cut;
    }
  }

  lemma TrimKeepsStarts(s: Store, t: Store)
    requires StartsOk(s) && t.cut == s.cut + ARCHIVE_CLEAVE && t.starts == s.starts && t.loose == {}
             && t.again == s.again
    ensures StartsOk(t)
  {
    AlignedNext(s.cut);
    hide Aligned, Shared;
  }

  lemma SameKeepsStarts(s: Store, t: Store)
    requires StartsOk(s) && t.cut == s.cut && t.starts == s.starts && t.loose == s.loose && t.again == s.again
    ensures StartsOk(t)
  {
    hide Aligned, Shared;
  }

  lemma StepKeepsStarts(s: Store, id: nat, a: Action, t: Store)
    requires Inv(s) && StartsOk(s) && Next(s, id, a) == Some(t)
    ensures StartsOk(t)
  {
    hide Next, Inv, StartsOk;
    if a.RenameArchive? {
      ArchiveSets(s, id, a, t);
      StartNames(s);
      ArchiveKeepsStarts(s, t, a.name);
    } else if a.RenameTrim? {
      TrimSets(s, id, t);
      TrimKeepsStarts(s, t);
    } else {
      OthersKeepStarts(s, id, a, t);
      SameKeepsStarts(s, t);
    }
  }

  lemma StartNames(s: Store)
    requires Inv(s)
    ensures forall name | name in s.starts :: name in s.archives
    ensures forall name | name in s.archives :: name in s.starts
  {
    hide ChatOk, OwnersOk, LockOk, HolderOk, IsArchive, Covered;
    forall name | name in s.archives ensures name in s.starts {
      assert Slice(s, name);
    }
  }

  lemma {:induction false} RunKeepsStarts(s: Store, events: seq<Event>, t: Store)
    requires Inv(s) && StartsOk(s) && Run(s, events) == Some(t)
    ensures StartsOk(t)
    decreases |events|
  {
    hide Inv, StartsOk, Next;
    if events != [] {
      var e := events[0];
      var next := Next(s, e.id, e.action).value;
      StepKeepsInv(s, e.id, e.action, next);
      StepKeepsStarts(s, e.id, e.action, next);
      RunKeepsStarts(next, events[1..], t);
    }
  }

  lemma ReachableStarts(t: Store)
    requires Reachable(t)
    ensures StartsOk(t) && Inv(t)
  {
    hide Init, Run, Inv, StartsOk;
    ReachableInv(t);
    var s, events :| Init(s) && Run(s, events) == Some(t);
    InitInv(s);
    InitStarts(s);
    RunKeepsStarts(s, events, t);
  }

  /** Two archive files hold the same thousand messages or have none in common. */
  lemma SlicesApart(t: Store, a: string, b: string)
    requires Reachable(t) && a in t.archives && b in t.archives
    ensures a in t.starts && b in t.starts && Read(t.archives[a]).Some? && Read(t.archives[b]).Some?
    ensures var m, n := t.starts[a], t.starts[b];
            if m == n then Read(t.archives[a]).value.messages == Read(t.archives[b]).value.messages
            else m + ARCHIVE_CLEAVE <= n || n + ARCHIVE_CLEAVE <= m
  {
    ReachableStarts(t);
    ArchiveOf(t, a);
    ArchiveOf(t, b);
    var m, n := t.starts[a], t.starts[b];
    if m < n {
      AlignedApart(m, n);
    } else if n < m {
      AlignedApart(n, m);
    }
  }

  lemma ArchiveOf(t: Store, name: string)
    requires Inv(t) && name in t.archives
    ensures name in t.starts && t.starts[name] + ARCHIVE_CLEAVE <= |t.history| && Read(t.archives[name]).Some?
    ensures Read(t.archives[name]).value.messages == SeenAll(t.history[t.starts[name]..t.starts[name] + ARCHIVE_CLEAVE])
  {
    hide ChatOk, OwnersOk, LockOk, HolderOk, IsArchive, Covered, Read;
    assert Slice(t, name);
    ArchiveReads(t.archives[name], t.history[t.starts[name]..t.starts[name] + ARCHIVE_CLEAVE]);
  }

  /**
   * An archive repeats messages that are still in the live file exactly when no trim has followed it, and two
   * archives hold the same messages exactly when one was made while there was already such a loose one.
   */
  lemma ArchivedTwice(t: Store)
    requires Reachable(t)
    ensures t.archives.Keys == t.starts.Keys && (t.again <==> Shared(t.starts))
    ensures forall name | name in t.starts :: name in t.loose <==> t.starts[name] == t.cut
  {
    hide *;
    ReachableStarts(t);
    StartNames(t);
    StartsAre(t);
  }

  lemma StartsAre(t: Store)
    requires StartsOk(t)
    ensures (t.again <==> Shared(t.starts)) && forall name | name in t.starts ::
              name in t.loose <==> t.starts[name] == t.cut
  {
    hide Aligned, Shared;
  }

  // ---------- runs that archive ----------

  /** From the rename of the sent message through the archive step to the return. */
  function Archiving(id: nat, name: string, stamp: string): seq<Event> {
    [Event(id, RenameArchive(name, stamp))] + ([Event(id, OpenTrim)] + ([Event(id, CloseTmp)] + []))
  }

  function Finishing(id: nat): seq<Event> {
    [Event(id, RenameTrim)] + ([Event(id, Release)] + ([Event(id, Return)] + []))
  }

  lemma Trims(s: Store, id: nat, name: string, stamp: string)
    requires id in s.calls && s.calls[id].phase.Committed? && s.lock == Some(id) && LegalField(stamp)
    requires var c := s.calls[id];
             && |c.phase.lines| > ARCHIVE_THRESHOLD && name !in s.archives
             && HeaderFits(c.msg.handle, c.stamp, Truncate(Participants.Format(c.phase.parts), PARTS_BUFFER - 1))
    ensures var t := Run(s, Archiving(id, name, stamp));
            && t.Some? && id in t.value.calls && t.value.calls[id].phase.TrimClosed? && t.value.lock == Some(id)
               && t.value.tmp.Some?
            && t.value.history == s.history && t.value.cut == s.cut && t.value.archives.Keys == s.archives.Keys + {name}
  {
    hide Fits, LegalField, Compute, Run, HeaderFits, ArchiveText, TrimmedText, Participants.Format, Truncate;
    var s1 := Next(s, id, RenameArchive(name, stamp)).value;
    var s2 := Next(s1, id, OpenTrim).value;
    var s3 := Next(s2, id, CloseTmp).value;
    RunThree(s, Event(id, RenameArchive(name, stamp)), Event(id, OpenTrim), Event(id, CloseTmp));
  }

  lemma Finishes(s: Store, id: nat)
    requires id in s.calls && s.calls[id].phase.TrimClosed? && s.lock == Some(id) && s.tmp.Some?
    ensures var t := Run(s, Finishing(id));
            && t.Some? && id in t.value.calls && t.value.calls[id].phase == Returned(0) && t.value.lock == None
            && t.value.history == s.history && t.value.cut == s.cut + ARCHIVE_CLEAVE && t.value.archives == s.archives
  {
    hide Fits, LegalField, Compute, Run, HeaderFits, ArchiveText, TrimmedText, Participants.Format, Truncate;
    var s1 := Next(s, id, RenameTrim).value;
    var s2 := Next(s1, id, Release).value;
    var s3 := Next(s2, id, Return).value;
    RunThree(s, Event(id, RenameTrim), Event(id, Release), Event(id, Return));
  }

  lemma Committed(s: Store, id: nat)
    requires Inv(s) && id in s.calls && s.calls[id].phase.Committed?
    ensures s.lock == Some(id) && s.cut <= |s.history| && |s.calls[id].phase.lines| == |s.history| - s.cut
    ensures s.calls[id].msg.handle == s.writer && s.calls[id].stamp == s.written
    ensures s.calls[id].phase.parts == Participants.Tally(Authors(s.history), MAX_PARTICIPANTS)
  {
    hide ChatOk, ArchivesOk, OwnersOk, LockOk, Participants.Tally;
    HolderIs(s, id);
    hide HolderOk;
    KeptLines(s, s.calls[id]);
    HeldParts(s, s.calls[id]);
  }

  lemma HeldParts(s: Store, c: Call)
    requires ChatOk(s) && HolderOk(s, c) && c.phase.Committed?
    ensures c.msg.handle == s.writer && c.stamp == s.written
            && c.phase.parts == Participants.Tally(Authors(s.history), MAX_PARTICIPANTS)
  {
    hide LegalChat, Render, Participants.Tally, Fits, EncodedLine;
  }

  lemma HeaderHasRoom(s: Store)
    requires Inv(s) && |s.written| <= HeaderRoom.STAMP_LENGTH && |s.history| <= INT_MAX
    ensures var parts := Participants.Format(Participants.Tally(Authors(s.history), MAX_PARTICIPANTS));
            HeaderFits(s.writer, s.written, Truncate(parts, PARTS_BUFFER - 1))
  {
    hide ArchivesOk, OwnersOk, LockOk, HolderOk, Render, AllFit, Participants.Tally, Participants.LegalTable,
         HeaderFits;
    HeaderRoom.HeaderAlwaysFits(s.writer, s.written, Authors(s.history));
  }

  /** What Archiving and Finishing do together to a call that has just stored its message. */
  lemma Archives(s: Store, id: nat, name: string, stamp: string)
    requires Inv(s) && id in s.calls && s.calls[id].phase.Committed? && s.lock == Some(id) && LegalField(stamp)
    requires |s.history| - s.cut > ARCHIVE_THRESHOLD && name !in s.archives
    requires |s.written| <= HeaderRoom.STAMP_LENGTH && |s.history| <= INT_MAX
    ensures var t := Run(s, Archiving(id, name, stamp) + Finishing(id));
            && t.Some? && id in t.value.calls && t.value.calls[id].phase == Returned(0) && t.value.lock == None
            && t.value.history == s.history && t.value.cut == s.cut + ARCHIVE_CLEAVE
               && t.value.archives.Keys == s.archives.Keys + {name}
  {
    hide *;
    Committed(s, id);
    HeaderHasRoom(s);
    Trims(s, id, name, stamp);
    var closed := Run(s, Archiving(id, name, stamp)).value;
    Finishes(closed, id);
    RunBoth(s, Archiving(id, name, stamp), Finishing(id));
  }

  /** The two steps of a send that reach the lock-holder's memory and the chat file. */
  function Storing(id: nat, m: Message, stamp: string): seq<Event> {
    Preparing(id, m, stamp) + Installing(id)
  }

  lemma Stores(s: Store, id: nat, m: Message, stamp: string)
    requires Reachable(s) && s.lock == None && id !in s.calls && Fits(m) && LegalField(stamp)
    requires s.cut <= |s.history| < INT_MAX && !TooFull(LiveChat(s), m.handle)
    ensures var t := Run(s, Storing(id, m, stamp));
            && t.Some? && Reachable(t.value) && id in t.value.calls && t.value.calls[id].phase.Committed?
               && t.value.lock == Some(id)
            && t.value.history == s.history + [m] && t.value.writer == m.handle && t.value.written == stamp
               && KeptArchives(s, t.value, id)
  {
    ReachableInv(s);
    hide *;
    Prepares(s, id, m, stamp);
    var ready := Run(s, Preparing(id, m, stamp)).value;
    Installs(ready, id);
    var committed := Run(ready, Installing(id)).value;
    KeptBoth(s, ready, committed, id);
    RunBoth(s, Preparing(id, m, stamp), Installing(id));
    StoringIs(id, m, stamp);
    ReachMore(s, Storing(id, m, stamp), committed);
    ReachableInv(committed);
    Committed(committed, id);
  }

  lemma StoringIs(id: nat, m: Message, stamp: string)
    ensures Storing(id, m, stamp) == Preparing(id, m, stamp) + Installing(id)
  {
  }

  lemma ReachMore(s: Store, events: seq<Event>, t: Store)
    requires Reachable(s) && Run(s, events) == Some(t)
    ensures Reachable(t)
  {
    hide Init, Run;
    var start, before :| Init(start) && Run(start, before) == Some(s);
    RunBoth(start, before, events);
    assert Run(start, before + events) == Some(t);
  }

  /**
   * The program's normal run above the threshold: whatever failed or died before, a send that finds the lock
   * free has a run that stores its message, archives the oldest thousand under a fresh name, trims the live
   * file and returns 0. If the send before it archived, too, then at most 2000 messages are left in it.
   */
  lemma SendArchives(s: Store, id: nat, m: Message, stamp: string, name: string, archiveStamp: string)
    requires Reachable(s) && s.lock == None && id !in s.calls && Fits(m) && LegalField(stamp)
             && LegalField(archiveStamp)
    requires ARCHIVE_THRESHOLD <= |s.history| - s.cut && |s.history| < INT_MAX && !TooFull(LiveChat(s), m.handle)
             && name !in s.archives
    requires |stamp| <= HeaderRoom.STAMP_LENGTH
    ensures var t := Run(s, Storing(id, m, stamp) + (Archiving(id, name, archiveStamp) + Finishing(id)));
            && t.Some? && id in t.value.calls && t.value.calls[id].phase == Returned(0) && t.value.lock == None
            && t.value.history == s.history + [m] && t.value.cut == s.cut + ARCHIVE_CLEAVE
               && t.value.archives.Keys == s.archives.Keys + {name}
            && (|t.value.history| - t.value.cut <= ARCHIVE_THRESHOLD
               <==> |s.history| - s.cut < ARCHIVE_THRESHOLD + ARCHIVE_CLEAVE)
  {
    hide *;
    Stores(s, id, m, stamp);
    var stored := Run(s, Storing(id, m, stamp)).value;
    KeptCut(s, stored, id);
    ReachableInv(stored);
    Archives(stored, id, name, archiveStamp);
    RunBoth(s, Storing(id, m, stamp), Archiving(id, name, archiveStamp) + Finishing(id));
  }

  lemma KeptCut(s: Store, t: Store, id: nat)
    requires KeptArchives(s, t, id)
    ensures t.cut == s.cut && t.archives == s.archives
  {
  }

  // ---------- a chat that is archived twice, and one that is too long to be read ----------

  const PING: Message := Message("a", "x", 1)

  function Pings(n: nat): (ms: seq<Message>)
    ensures |ms| == n && forall i | 0 <= i < n :: ms[i] == PING
  {
    seq(n, _ => PING)
  }

  function Same(n: nat): (hs: seq<string>)
    ensures |hs| == n && forall i | 0 <= i < n :: hs[i] == "a"
  {
    seq(n, _ => "a")
  }

  lemma PingFits()
    ensures Fits(PING) && LegalField("")
  {
    hide Participants.Parse;
    Participants.CountLength(1);
    assert forall i | 0 <= i < |PING.handle| :: Participants.HandleChar(PING.handle[i]);
    assert |WireText(PING)| <= 100;
  }

  lemma {:induction false} OneAuthor(n: nat)
    ensures Participants.Tally(Same(n), MAX_PARTICIPANTS) == if n == 0 then [] else [Participants.Participant("a", n)]
    ensures |Participants.Update(Participants.Tally(Same(n), MAX_PARTICIPANTS), "a", MAX_PARTICIPANTS)| == 1
  {
    if n > 0 {
      OneAuthor(n - 1);
      assert Same(n)[..n - 1] == Same(n - 1);
    }
  }

  lemma PingsNotFull(s: Store)
    requires s.cut == 0 && s.history == Pings(|s.history|) && |s.history| <= MAX_MESSAGES
    ensures !TooFull(LiveChat(s), PING.handle)
  {
    hide Participants.Tally, Participants.Update;
    OneAuthor(|s.history|);
    assert Authors(s.history) == Same(|s.history|);
  }

  ghost predicate Quiet(s: Store, n: nat) {
    && Reachable(s) && s.lock == None && s.history == Pings(n) && s.cut == 0 && forall id | id in s.calls :: id < n
  }

  lemma NewChat() returns (s: Store)
    ensures Quiet(s, 0) && s.archives == map[] && s.starts == map[]
  {
    hide FileText, Run;
    s := Store(FileText("system", "", "", []), None, map[], None, map[], [], [], 0, "system", "", map[], [], {}, false);
    assert Init(s);
    RunNothing(s);
    assert Run(s, []) == Some(s);
  }

  /** A chat to which one process after the other has sent the same message, each abandoning its archive step. */
  lemma {:induction false} PingsReached(n: nat) returns (s: Store)
    requires n <= MAX_MESSAGES + 1
    ensures Quiet(s, n) && s.archives == map[] && s.starts == map[]
  {
    if n == 0 {
      s := NewChat();
    } else {
      var before := PingsReached(n - 1);
      s := OnePing(before, n - 1);
    }
  }

  lemma OnePing(s: Store, n: nat) returns (t: Store)
    requires Quiet(s, n) && n <= MAX_MESSAGES
    ensures Quiet(t, n + 1) && t.archives == s.archives && t.starts == s.starts
  {
    hide Reachable, Fits, LegalField, TooFull, LiveChat, Run, Preparing, Installing, Leaving;
    PingFits();
    PingsNotFull(s);
    var events := Preparing(n, PING, "") + (Installing(n) + Leaving(n));
    SendCompletes(s, n, PING, "");
    t := Run(s, events).value;
    ReachMore(s, events, t);
    assert Pings(n) + [PING] == Pings(n + 1);
  }

  lemma ArchiveStep(s: Store, id: nat, name: string)
    requires id in s.calls && s.calls[id].phase.Committed? && |s.calls[id].phase.lines| > ARCHIVE_THRESHOLD
             && name !in s.archives
    ensures var t := Next(s, id, RenameArchive(name, ""));
            && t.Some? && t.value.lock == s.lock && t.value.history == s.history && t.value.cut == s.cut
               && t.value.calls.Keys == s.calls.Keys
            && t.value.calls[id].phase.Archived? && t.value.archives.Keys == s.archives.Keys + {name}
               && t.value.starts == s.starts[name := s.cut]
  {
    hide Compute, Fits, HeaderFits, ArchiveText, TrimmedText;
  }

  lemma ArchivesOnce(s: Store, id: nat, name: string) returns (t: Store)
    requires Reachable(s) && id in s.calls && s.calls[id].phase.Committed? && |s.history| - s.cut > ARCHIVE_THRESHOLD
             && name !in s.archives
    ensures Reachable(t) && t.lock == s.lock == Some(id) && t.history == s.history && t.cut == s.cut
            && t.calls.Keys == s.calls.Keys
    ensures id in t.calls && t.calls[id].phase.Archived? && t.archives.Keys == s.archives.Keys + {name}
            && t.starts == s.starts[name := s.cut]
  {
    hide *;
    ReachableInv(s);
    Committed(s, id);
    ArchiveStep(s, id, name);
    t := Next(s, id, RenameArchive(name, "")).value;
    RunStep(s, Event(id, RenameArchive(name, "")), []);
    RunNothing(t);
    ReachMore(s, [Event(id, RenameArchive(name, ""))] + [], t);
  }

  lemma StoresPing(s: Store, n: nat) returns (t: Store)
    requires Quiet(s, n) && n <= MAX_MESSAGES
    ensures Reachable(t) && n in t.calls && t.calls[n].phase.Committed? && t.lock == Some(n)
            && t.history == Pings(n + 1)
    ensures KeptArchives(s, t, n)
  {
    hide Reachable, Fits, LegalField, TooFull, LiveChat, Run, Storing, KeptArchives;
    PingFits();
    PingsNotFull(s);
    Stores(s, n, PING, "");
    t := Run(s, Storing(n, PING, "")).value;
    assert Pings(n) + [PING] == Pings(n + 1);
  }

  lemma LeavesArchived(s: Store, id: nat) returns (t: Store)
    requires Reachable(s) && id in s.calls && s.calls[id].phase.Archived? && s.lock == Some(id)
    ensures Reachable(t) && t.lock == None && t.history == s.history && KeptArchives(s, t, id)
  {
    hide Reachable, Run, KeptArchives, Leaving;
    Leaves(s, id);
    t := Run(s, Leaving(id)).value;
    ReachMore(s, Leaving(id), t);
  }

  /** Two processes that both archive the oldest thousand, the first of which dies, or fails, before it trims. */
  lemma SameSliceTwice() returns (t: Store)
    ensures Reachable(t) && t.again && "one" in t.archives && "two" in t.archives
            && t.starts == map["one" := 0, "two" := 0]
  {
    hide Reachable, KeptArchives;
    var s := PingsReached(2000);
    var sent := StoresPing(s, 2000);
    KeptCut(s, sent, 2000);
    KeptNames(s, sent, 2000);
    var one := ArchivesOnce(sent, 2000, "one");
    var left := LeavesArchived(one, 2000);
    KeptCut(one, left, 2000);
    KeptNames(one, left, 2000);
    assert Quiet(left, 2001);
    var next := StoresPing(left, 2001);
    KeptCut(left, next, 2001);
    KeptNames(left, next, 2001);
    t := ArchivesOnce(next, 2001, "two");
    assert t.starts["one"] == t.starts["two"] && "one" != "two";
    ArchivedTwice(t);
  }

  lemma KeptNames(s: Store, t: Store, id: nat)
    requires KeptArchives(s, t, id)
    ensures t.starts == s.starts && forall j | j in t.calls :: j in s.calls || j == id
  {
  }

  /** The last of 10001 lines of a chat whose archive step failed every time is one that no reader finds. */
  lemma UnreadableReached() returns (t: Store)
    ensures Reachable(t) && |t.history| == MAX_MESSAGES + 1 && t.cut == 0 && !InLive(t, MAX_MESSAGES)
            && forall name :: !InArchive(t, name, MAX_MESSAGES)
  {
    hide Reachable, InLive;
    t := PingsReached(MAX_MESSAGES + 1);
    LiveFound(t, MAX_MESSAGES);
  }

  /** A legal chat of 10000 messages: the next send succeeds, and its message is not read back. */
  lemma FullChatHidesNext() returns (c: Chat)
    ensures LegalChat(c) && |c.messages| == MAX_MESSAGES && !TooFull(c, PING.handle)
    ensures var text := Send(Render(c), PING, "");
            text.Some? && Read(text.value).Some? && Read(text.value).value.messages == SeenAll(c.messages)
  {
    hide Render, Fits, LegalField, Participants.Update, Send, Read;
    PingFits();
    OneAuthor(0);
    c := Chat("", "", [], Pings(MAX_MESSAGES));
    assert Same(0) == [];
    RenderSize(c);
    SendAppends(c, PING, "");
    RenderSize(Append(c, PING, ""));
    ReadRender(Append(c, PING, ""));
    assert Truncate(SeenAll(c.messages + [PING]), MAX_MESSAGES) == SeenAll(c.messages);
  }
}
