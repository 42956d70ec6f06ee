/**
 * Many processes sending to one chat file: chat_send and chat_auto_archive step by step, under the lock
 * of lock.c, where every step may fail and every process may die between any two steps.
 */
module ChatStore {
  import opened Bytes
  import opened Limits
  import opened TextFile
  import opened Participants
  import opened Wire
  import opened ChatFile

  // ---------- the machine ----------

  /** Where one call of chat_send stands; a phase carries what the process holds in memory for later steps. */
  datatype Phase =
    | Waiting
    | Locked
    | HasState(first: string)
    | Ready(text: string, lines: seq<string>, parts: seq<Participant>)
    | Writing(text: string, lines: seq<string>, parts: seq<Participant>)
    | Closed(text: string, lines: seq<string>, parts: seq<Participant>)
    | Committed(lines: seq<string>, parts: seq<Participant>)
    | Archived(lines: seq<string>, parts: seq<Participant>)
    | TrimWriting(text: string)
    | TrimClosed(text: string)
    | Releasing
    | Posted
    | CursorHeld
    | Returned(rc: int)
    | Crashed

  datatype Call = Call(msg: Message, stamp: string, phase: Phase)

  /**
   * The files, the lock and the calls; then what an observer records: all messages in the order in which
   * their renames happened, the call behind each, how many of them were cut off the live file, the header
   * fields of the last send, where the slice in each archive file begins, in which order the sends were
   * given the lock, which archives were made since the live file was last trimmed, and whether one was
   * ever made while there already was another such.
   */
  datatype Store = Store(
    live: string, tmp: Option<string>, archives: map<string, string>, lock: Option<nat>, calls: map<nat, Call>,
    history: seq<Message>, owners: seq<nat>, cut: nat, writer: string, written: string, starts: map<string, nat>,
      turns: seq<nat>,
    loose: set<string>, again: bool)

  datatype Action =
    | Begin(m: Message, stamp: string)
    | Acquire
    | ReadState
    | ReadLines
    | OpenTmp
    | WriteTmp(n: nat)
    | CloseTmp
    | Rename
    | Fail(rc: int)
    | RenameArchive(name: string, archiveStamp: string)
    | OpenTrim
    | RenameTrim
    | EndArchive
    | Release
    | AcquireForCursor
    | Return
    | Crash

  /** The phases in which a call holds the lock. */
  predicate Holds(p: Phase) {
    !p.Waiting? && !p.Posted? && !p.Returned? && !p.Crashed?
  }

  /** The phases in which a failure makes chat_send return an error. */
  predicate MayFail(p: Phase) {
    p.Waiting? || p.Locked? || p.HasState? || p.Ready? || p.Writing? || p.Closed?
  }

  function Move(s: Store, id: nat, p: Phase): Store
    requires id in s.calls
  {
    s.(calls := s.calls[id := s.calls[id].(phase := p)])
  }

  function Unlock(s: Store, id: nat): Store {
    if s.lock == Some(id) then s.(lock := None) else s
  }

  /** The successor under one action of one call; None where the action is not possible. */
  function Next(s: Store, id: nat, a: Action): (r: Option<Store>)
    ensures r.Some? ==> id in r.value.calls && (a.Begin? || id in s.calls)
  {
    if a.Begin? then
      if id !in s.calls && Fits(a.m) && LegalField(a.stamp)
      then Some(s.(calls := s.calls[id := Call(a.m, a.stamp, Waiting)])) else None
    else if id !in s.calls then None
    else
      var c := s.calls[id];
      var p := c.phase;
      match a
      case Acquire =>
        if p.Waiting? && s.lock == None then Some(Move(s, id, Locked).(lock := Some(id), turns := s.turns + [id]))
          else None
      case ReadState =>
        if p.Locked? then Some(Move(s, id, HasState(s.live))) else None
      case ReadLines =>
        if p.HasState? && |s.history| < INT_MAX then Compute(s, id, c, p.first) else None
      case OpenTmp =>
        if p.Ready? then Some(Move(s, id, Writing(p.text, p.lines, p.parts)).(tmp := Some(""))) else None
      case WriteTmp(n) =>
        if (p.Writing? || p.TrimWriting?) && n <= |p.text| then Some(s.(tmp := Some(p.text[..n]))) else None
      case CloseTmp =>
        if p.Writing? then Some(Move(s, id, Closed(p.text, p.lines, p.parts)).(tmp := Some(p.text)))
        else if p.TrimWriting? then Some(Move(s, id, TrimClosed(p.text)).(tmp := Some(p.text)))
        else None
      case Rename =>
        if p.Closed? && s.tmp.Some? then
          Some(Move(s, id, Committed(p.lines, p.parts)).(
               live := s.tmp.value, tmp := None, history := s.history + [c.msg], owners := s.owners + [id],
               writer := c.msg.handle, written := c.stamp))
        else None
      case Fail(rc) =>
        if rc < 0 && MayFail(p) then
          Some(Unlock(Move(s, id, Returned(rc)), id).(tmp := if p.Writing? || p.Closed? then None else s.tmp))
        else None
      case RenameArchive(name, archiveStamp) =>
        if p.Committed? && |p.lines| > ARCHIVE_THRESHOLD && name !in s.archives && LegalField(archiveStamp) then
          Some(Move(s, id, Archived(p.lines, p.parts)).(
               archives := s.archives[name := ArchiveText(p.lines, archiveStamp)], starts := s.starts[name := s.cut],
               loose := s.loose + {name}, again := s.again || s.loose != {}))
        else None
      case OpenTrim =>
        if p.Archived? && |p.lines| >= ARCHIVE_CLEAVE
           && HeaderFits(c.msg.handle, c.stamp, Truncate(Format(p.parts), PARTS_BUFFER - 1)) then
          Some(Move(s, id, TrimWriting(ChatFile.TrimmedText(c.msg.handle, c.stamp, p.parts, p.lines))).(tmp :=
            Some("")))
        else None
      case RenameTrim =>
        if p.TrimClosed? && s.tmp.Some? then
          Some(Move(s, id, Releasing).(live := s.tmp.value, tmp := None, cut := s.cut + ARCHIVE_CLEAVE, loose := {}))
        else None
      case EndArchive =>
        if p.Committed? || p.Archived? || p.TrimWriting? || p.TrimClosed? then
          Some(Move(s, id, Releasing).(tmp := if p.TrimWriting? || p.TrimClosed? then None else s.tmp))
        else None
      case Release =>
        if p.Releasing? then Some(Unlock(Move(s, id, Posted), id)) else None
      case AcquireForCursor =>
        if p.Posted? && s.lock == None then Some(Move(s, id, CursorHeld).(lock := Some(id))) else None
      case Return =>
        if p.Posted? || p.CursorHeld? then Some(Unlock(Move(s, id, Returned(0)), id)) else None
      case Crash =>
        if p.Returned? || p.Crashed? then None else Some(Unlock(Move(s, id, Crashed), id))
  }

  /** The second look at the file, and the contents made from both looks; an assertion may end the process. */
  function Compute(s: Store, id: nat, c: Call, first: string): (r: Option<Store>)
    requires id in s.calls
    ensures r.Some? ==> id in r.value.calls
  {
    if !Fits(c.msg) then None
    else
      match SendFrom(first, s.live, c.msg, c.stamp)
      case None => Some(Unlock(Move(s, id, Crashed), id))
      case Some(text) =>
        var lines := Collect(Lines(s.live, MAX_MESSAGE_LEN), false) + [EncodedLine(c.msg)];
        var parts := Update(Read(first).value.participants, c.msg.handle, MAX_PARTICIPANTS);
        Some(Move(s, id, Ready(text, lines, parts)))
  }

  /** A new chat file, as chat_create leaves it. */
  predicate Init(s: Store) {
    && LegalField(s.written) && s.writer == "system"
    && s.live == FileText("system", s.written, "", [])
    && s.archives == map[] && s.lock == None && s.calls == map[]
    && s.history == [] && s.owners == [] && s.cut == 0 && s.starts == map[] && s.turns == []
    && s.loose == {} && !s.again
  }

  // ---------- the invariant ----------

  /** The chat that the live file holds: what is left of the history, with the participants of all of it. */
  function LiveChat(s: Store): Chat
    requires s.cut <= |s.history|
  {
    Chat(s.writer, s.written, Tally(Authors(s.history), MAX_PARTICIPANTS), s.history[s.cut..])
  }

  predicate ChatOk(s: Store) {
    && s.cut <= |s.history| <= s.cut + MAX_MESSAGES + 1 && AllFit(s.history)
    && LegalChat(LiveChat(s)) && s.live == Render(LiveChat(s))
    && (s.history != [] ==> s.writer == s.history[|s.history| - 1].handle)
  }

  /** An archive file of exactly these messages. */
  ghost predicate IsArchive(text: string, ms: seq<Message>) {
    && |ms| == ARCHIVE_CLEAVE && AllFit(ms)
    && exists stamp :: LegalField(stamp) && text == ArchiveText(EncodedLines(ms), stamp)
  }

  predicate Slice(s: Store, name: string) {
    name in s.archives && name in s.starts && s.starts[name] + ARCHIVE_CLEAVE <= |s.history|
  }

  ghost predicate Covered(starts: map<string, nat>, i: nat) {
    exists name :: name in starts && starts[name] <= i < starts[name] + ARCHIVE_CLEAVE
  }

  ghost predicate ArchivesOk(s: Store) {
    && (forall name | name in s.archives ::
          Slice(s, name) && IsArchive(s.archives[name], s.history[s.starts[name]..s.starts[name] + ARCHIVE_CLEAVE]))
    && (forall name | name in s.starts :: name in s.archives)
    && forall i: nat | i < s.cut :: Covered(s.starts, i)
  }

  ghost predicate LockOk(s: Store) {
    && (forall id | id in s.calls && Holds(s.calls[id].phase) :: s.lock == Some(id))
    && (s.lock.Some? ==> s.lock.value in s.calls && Holds(s.calls[s.lock.value].phase))
    && forall id | id in s.calls :: Fits(s.calls[id].msg) && LegalField(s.calls[id].stamp)
  }

  /** The message of the call is in the history. */
  predicate After(p: Phase) {
    p.Committed? || p.Archived? || p.TrimWriting? || p.TrimClosed? || p.Releasing? || p.Posted? || p.CursorHeld?
      || p == Returned(0)
  }

  /** It is not. */
  predicate Before(p: Phase) {
    MayFail(p) || (p.Returned? && p.rc != 0)
  }

  ghost predicate OwnersOk(s: Store) {
    && |s.owners| == |s.history|
    && (forall i | 0 <= i < |s.owners| :: s.owners[i] in s.calls && s.calls[s.owners[i]].msg == s.history[i]
                                          && !Before(s.calls[s.owners[i]].phase))
    && (forall i, j | 0 <= i < j < |s.owners| :: s.owners[i] != s.owners[j])
    && forall id | id in s.calls && After(s.calls[id].phase) :: id in s.owners
  }

  /** The chat that the holder is about to install. */
  predicate Prepared(s: Store, c: Call, text: string, lines: seq<string>, parts: seq<Participant>)
    requires ChatOk(s)
  {
    var next := Append(LiveChat(s), c.msg, c.stamp);
    && |s.history| - s.cut <= MAX_MESSAGES && |s.history| < INT_MAX && LegalChat(next)
    && text == Render(next) && lines == EncodedLines(next.messages) && parts == next.participants
  }

  /** The lines and participants that the holder kept from its send are those of the live file. */
  predicate Current(s: Store, c: Call, lines: seq<string>, parts: seq<Participant>)
    requires ChatOk(s)
  {
    && c.msg.handle == s.writer && c.stamp == s.written
    && lines == EncodedLines(s.history[s.cut..]) && parts == LiveChat(s).participants
  }

  /** The trimmed file that the holder is about to install, whose other half is in an archive. */
  predicate Halved(s: Store, text: string)
    requires ChatOk(s)
  {
    && |s.history| - s.cut > ARCHIVE_THRESHOLD && (exists name :: name in s.starts && s.starts[name] == s.cut)
    && LegalChat(Trim(LiveChat(s))) && text == Render(Trim(LiveChat(s)))
  }

  ghost predicate HolderOk(s: Store, c: Call)
    requires ChatOk(s)
  {
    match c.phase
    case HasState(first) => first == s.live
    case Ready(text, lines, parts) => Prepared(s, c, text, lines, parts)
    case Writing(text, lines, parts) => Prepared(s, c, text, lines, parts)
    case Closed(text, lines, parts) => Prepared(s, c, text, lines, parts) && s.tmp == Some(text)
    case Committed(lines, parts) => Current(s, c, lines, parts)
    case Archived(lines, parts) =>
      && Current(s, c, lines, parts) && |s.history| - s.cut > ARCHIVE_THRESHOLD
      && (exists name :: name in s.starts && s.starts[name] == s.cut)
    case TrimWriting(text) => Halved(s, text)
    case TrimClosed(text) => Halved(s, text) && s.tmp == Some(text)
    case _ => true
  }

  ghost predicate Inv(s: Store) {
    && ChatOk(s) && ArchivesOk(s) && LockOk(s) && OwnersOk(s)
    && (s.lock.Some? ==> HolderOk(s, s.calls[s.lock.value]))
  }

  // ---------- the invariant holds in every reachable state ----------

  lemma InitInv(s: Store)
    requires Init(s)
    ensures Inv(s)
  {
    hide FileText;
    assert Authors([]) == [] && Tally([], MAX_PARTICIPANTS) == [];
    assert EncodedLines([]) == [];
    assert LegalField("system");
  }

  /** Everything about the chat file and its archives that the invariant speaks of is the same. */
  predicate SameChat(s: Store, t: Store) {
    && t.live == s.live && t.archives == s.archives && t.history == s.history && t.owners == s.owners
    && t.cut == s.cut && t.writer == s.writer && t.written == s.written && t.starts == s.starts
  }

  lemma SameChatOk(s: Store, t: Store)
    requires SameChat(s, t) && ChatOk(s) && ArchivesOk(s)
    ensures ChatOk(t) && ArchivesOk(t)
  {
    hide LegalChat, Render, AllFit, IsArchive, Covered, Tally;
  }

  /** One call moved to phase `p`, and took or gave up the lock as that phase says. */
  predicate Moved(s: Store, t: Store, id: nat, p: Phase) {
    && id in s.calls && t.calls == s.calls[id := s.calls[id].(phase := p)]
    && t.lock == (if Holds(p) then Some(id) else if s.lock == Some(id) then None else s.lock)
    && (Holds(p) ==> Holds(s.calls[id].phase) || s.lock == None)
  }

  lemma MovedLock(s: Store, t: Store, id: nat, p: Phase)
    requires Moved(s, t, id, p) && LockOk(s)
    ensures LockOk(t)
    ensures t.lock.Some? && t.lock != Some(id) ==>
              t.lock == s.lock && t.lock.value in s.calls && t.calls[t.lock.value] == s.calls[t.lock.value]
  {
    hide Fits;
  }

  lemma MovedOwners(s: Store, t: Store, id: nat, p: Phase)
    requires Moved(s, t, id, p) && OwnersOk(s) && t.history == s.history && t.owners == s.owners
    requires (Before(p) ==> Before(s.calls[id].phase)) && (After(p) ==> After(s.calls[id].phase))
    ensures OwnersOk(t)
  {
    hide Before, After;
  }

  lemma SameHolderOk(s: Store, t: Store, c: Call)
    requires SameChat(s, t) && ChatOk(s) && ChatOk(t) && t.tmp == s.tmp && HolderOk(s, c)
    ensures HolderOk(t, c)
  {
    hide LegalChat, Render, Tally;
    assert LiveChat(s) == LiveChat(t);
  }

  /** A step that leaves the chat alone. */
  lemma QuietStep(s: Store, t: Store, id: nat, p: Phase)
    requires Inv(s) && SameChat(s, t) && Moved(s, t, id, p)
    requires (Before(p) ==> Before(s.calls[id].phase)) && (After(p) ==> After(s.calls[id].phase))
    requires t.tmp == s.tmp || s.lock == Some(id)
    requires ChatOk(t) && Holds(p) ==> HolderOk(t, t.calls[id])
    ensures Inv(t)
  {
    hide ChatOk, ArchivesOk, OwnersOk, LockOk, HolderOk, Before, After;
    SameChatOk(s, t);
    MovedLock(s, t, id, p);
    MovedOwners(s, t, id, p);
    if t.lock.Some? && t.lock != Some(id) {
      SameHolderOk(s, t, s.calls[t.lock.value]);
    }
  }

  /** A call in a holding phase has the lock. */
  lemma HolderIs(s: Store, id: nat)
    requires Inv(s) && id in s.calls && Holds(s.calls[id].phase)
    ensures s.lock == Some(id) && HolderOk(s, s.calls[id])
  {
    hide ChatOk, ArchivesOk, OwnersOk, HolderOk;
  }

  // ---------- the steps under the lock that prepare files ----------

  lemma AuthorsSnoc(ms: seq<Message>, m: Message)
    ensures Tally(Authors(ms + [m]), MAX_PARTICIPANTS)
            == Update(Tally(Authors(ms), MAX_PARTICIPANTS), m.handle, MAX_PARTICIPANTS)
  {
    hide Update;
    var hs := Authors(ms + [m]);
    assert hs[..|hs| - 1] == Authors(ms);
  }

  lemma CountsBelow(ms: seq<Message>)
    requires AllFit(ms) && |ms| < INT_MAX
    ensures forall i | 0 <= i < |Tally(Authors(ms), MAX_PARTICIPANTS)| ::
            Tally(Authors(ms), MAX_PARTICIPANTS)[i].count < INT_MAX
  {
    hide Tally, EncodedLine;
    forall i | 0 <= i < |ms| ensures LegalHandle(Authors(ms)[i]) {
      assert Fits(ms[i]);
    }
    TallyLegal(Authors(ms), MAX_PARTICIPANTS);
  }

  /** What chat_send computes from two looks at the live file is the chat with its message appended. */
  lemma SentChat(s: Store, c: Call)
    requires ChatOk(s) && Fits(c.msg) && LegalField(c.stamp) && |s.history| < INT_MAX
    ensures TooFull(LiveChat(s), c.msg.handle) ==> SendFrom(s.live, s.live, c.msg, c.stamp) == None
    ensures !TooFull(LiveChat(s), c.msg.handle) ==>
              && SendFrom(s.live, s.live, c.msg, c.stamp).Some? && Read(s.live).Some?
              && Prepared(s, c, SendFrom(s.live, s.live, c.msg, c.stamp).value,
                          Collect(Lines(s.live, MAX_MESSAGE_LEN), false) + [EncodedLine(c.msg)],
                          Update(Read(s.live).value.participants, c.msg.handle, MAX_PARTICIPANTS))
  {
    hide LegalChat, Render, Read, Collect, Lines, Update, Tally, EncodedLine, LegalField, SendFrom, LegalMessage,
         TooLong;
    var live := LiveChat(s);
    CountsBelow(s.history);
    RenderSize(live);
    SendAppends(live, c.msg, c.stamp);
    ReadRender(live);
    CollectRender(live);
    if !TooFull(live, c.msg.handle) {
      EncodedSnoc(live.messages, c.msg);
    }
  }

  lemma ComputeMoves(s: Store, id: nat, c: Call, first: string, t: Store)
    requires id in s.calls && s.calls[id] == c && c.phase.HasState? && Fits(c.msg) && s.lock == Some(id)
             && Compute(s, id, c, first) == Some(t)
    ensures SameChat(s, t) && Moved(s, t, id, t.calls[id].phase) && t.calls[id].msg == c.msg
            && t.calls[id].stamp == c.stamp
    ensures t.calls[id].phase == match SendFrom(first, s.live, c.msg, c.stamp)
            case None => Crashed
            case Some(text) =>
              Ready(text, Collect(Lines(s.live, MAX_MESSAGE_LEN), false) + [EncodedLine(c.msg)],
                    Update(Read(first).value.participants, c.msg.handle, MAX_PARTICIPANTS))
  {
    hide EncodedLine, Read, SendFrom, Update, Lines, Collect, LegalMessage;
  }

  lemma ComputePrepares(s: Store, id: nat, t: Store)
    requires Inv(s) && id in s.calls && s.calls[id].phase.HasState? && |s.history| < INT_MAX
    requires Compute(s, id, s.calls[id], s.calls[id].phase.first) == Some(t)
    ensures Inv(t)
  {
    hide ChatOk, ArchivesOk, OwnersOk, LockOk, Fits, Compute, SameChat, Moved, SendFrom, Read, Collect, Lines, Update,
         EncodedLine, LegalField, Prepared;
    var c := s.calls[id];
    HolderIs(s, id);
    InvFits(s, id);
    ComputeMoves(s, id, c, c.phase.first, t);
    SentChat(s, c);
    SameChatOk(s, t);
    var p := t.calls[id].phase;
    if p.Ready? {
      SamePrepared(s, t, c, t.calls[id], p.text, p.lines, p.parts);
    }
    QuietStep(s, t, id, p);
  }

  lemma InvFits(s: Store, id: nat)
    requires Inv(s) && id in s.calls
    ensures Fits(s.calls[id].msg) && LegalField(s.calls[id].stamp)
  {
    hide ChatOk, ArchivesOk, OwnersOk, HolderOk;
  }

  /** The trimmed file of a call that has archived is the legal file of the rest of the chat. */
  lemma TrimIsHalved(s: Store, c: Call)
    requires ChatOk(s) && c.phase.Archived? && HolderOk(s, c) && LegalField(c.stamp)
    ensures |c.phase.lines| >= ARCHIVE_CLEAVE
    ensures Halved(s, ChatFile.TrimmedText(c.msg.handle, c.stamp, c.phase.parts, c.phase.lines))
  {
    hide LegalChat, Render, Fits, Tally, EncodedLine, LegalField, ChatFile.TrimmedText;
    ArchiveSplits(LiveChat(s), c.stamp);
  }

  lemma OpenTrimFields(s: Store, id: nat, t: Store)
    requires id in s.calls && s.calls[id].phase.Archived? && Next(s, id, OpenTrim) == Some(t) && s.lock == Some(id)
    ensures |s.calls[id].phase.lines| >= ARCHIVE_CLEAVE && SameChat(s, t) && Moved(s, t, id, t.calls[id].phase)
    ensures var c := s.calls[id];
            t.calls[id].phase == TrimWriting(ChatFile.TrimmedText(c.msg.handle, c.stamp, c.phase.parts, c.phase.lines))
  {
    hide Fits, LegalField, HeaderFits, ChatFile.TrimmedText;
  }

  lemma OpenTrimPrepares(s: Store, id: nat, t: Store)
    requires Inv(s) && id in s.calls && s.calls[id].phase.Archived? && Next(s, id, OpenTrim) == Some(t)
    ensures Inv(t)
  {
    hide ArchivesOk, OwnersOk, LockOk, ChatOk, LegalField, ChatFile.TrimmedText, Halved, Fits, SameChat, Moved;
    HolderIs(s, id);
    InvFits(s, id);
    OpenTrimFields(s, id, t);
    hide Next;
    TrimIsHalved(s, s.calls[id]);
    SameChatOk(s, t);
    SameHalved(s, t, t.calls[id].phase.text);
    QuietStep(s, t, id, t.calls[id].phase);
  }

  /** The actions that only move a call, the lock and the temporary file. */
  predicate Quiet(a: Action) {
    !a.Begin? && !a.Rename? && !a.RenameArchive? && !a.RenameTrim? && !a.ReadLines? && !a.OpenTrim?
  }

  /** What such an action does: it moves the call, and touches the temporary file only under the lock. */
  predicate MovedQuietly(s: Store, id: nat, t: Store) {
    id in t.calls && SameChat(s, t) && Moved(s, t, id, t.calls[id].phase) && (t.tmp == s.tmp || s.lock == Some(id))
  }

  lemma FirstMoves(s: Store, id: nat, a: Action, t: Store)
    requires Next(s, id, a) == Some(t) && id in s.calls && (Holds(s.calls[id].phase) <==> s.lock == Some(id))
    requires a.Acquire? || a.ReadState? || a.OpenTmp? || a.WriteTmp?
    ensures MovedQuietly(s, id, t)
  {
    hide Fits, LegalField, Compute, MayFail;
  }

  lemma CloseMoves(s: Store, id: nat, a: Action, t: Store)
    requires Next(s, id, a) == Some(t) && id in s.calls && (Holds(s.calls[id].phase) <==> s.lock == Some(id))
             && a.CloseTmp?
    ensures MovedQuietly(s, id, t)
  {
    hide Fits, LegalField, Compute, MayFail;
  }

  lemma FailMoves(s: Store, id: nat, a: Action, t: Store)
    requires Next(s, id, a) == Some(t) && id in s.calls && (Holds(s.calls[id].phase) <==> s.lock == Some(id)) && a.Fail?
    ensures MovedQuietly(s, id, t)
  {
    hide Fits, LegalField, Compute;
  }

  lemma LastMoves(s: Store, id: nat, a: Action, t: Store)
    requires Next(s, id, a) == Some(t) && id in s.calls && (Holds(s.calls[id].phase) <==> s.lock == Some(id))
    requires a.EndArchive? || a.Release? || a.AcquireForCursor? || a.Return? || a.Crash?
    ensures MovedQuietly(s, id, t)
  {
    hide Fits, LegalField, Compute, MayFail;
  }

  lemma QuietMoves(s: Store, id: nat, a: Action, t: Store)
    requires Quiet(a) && Next(s, id, a) == Some(t) && (Holds(s.calls[id].phase) <==> s.lock == Some(id))
    ensures MovedQuietly(s, id, t)
  {
    hide Next, Holds, MovedQuietly;
    if a.Acquire? || a.ReadState? || a.OpenTmp? || a.WriteTmp? {
      FirstMoves(s, id, a, t);
    } else if a.CloseTmp? {
      CloseMoves(s, id, a, t);
    } else if a.Fail? {
      FailMoves(s, id, a, t);
    } else {
      LastMoves(s, id, a, t);
    }
  }

  /** No call gets its message into the history, or out of it, but by the rename. */
  predicate SameSide(s: Store, id: nat, t: Store) {
    && id in s.calls && id in t.calls
    && (Before(t.calls[id].phase) ==> Before(s.calls[id].phase))
       && (After(t.calls[id].phase) ==> After(s.calls[id].phase))
  }

  lemma FirstSides(s: Store, id: nat, a: Action, t: Store)
    requires Next(s, id, a) == Some(t)
             && (a.Acquire? || a.ReadState? || a.OpenTmp? || a.WriteTmp? || a.CloseTmp? || a.Fail?)
    ensures SameSide(s, id, t)
  {
    hide Fits, LegalField, Compute, Holds;
  }

  lemma LastSides(s: Store, id: nat, a: Action, t: Store)
    requires Next(s, id, a) == Some(t) && (a.EndArchive? || a.Release? || a.AcquireForCursor? || a.Return? || a.Crash?)
    ensures SameSide(s, id, t)
  {
    hide Fits, LegalField, Compute, Holds;
  }

  lemma QuietPhases(s: Store, id: nat, a: Action, t: Store)
    requires Quiet(a) && Next(s, id, a) == Some(t)
    ensures SameSide(s, id, t)
  {
    hide Next, SameSide;
    if a.Acquire? || a.ReadState? || a.OpenTmp? || a.WriteTmp? || a.CloseTmp? || a.Fail? {
      FirstSides(s, id, a, t);
    } else {
      LastSides(s, id, a, t);
    }
  }

  lemma QuietKeeps(s: Store, id: nat, a: Action, t: Store)
    requires Inv(s) && Quiet(a) && Next(s, id, a) == Some(t)
    ensures Inv(t)
  {
    hide ChatOk, ArchivesOk, OwnersOk, LockOk, HolderOk, Before, After, Next, Fits, LegalField, SameChat, Moved;
    if Holds(s.calls[id].phase) {
      HolderIs(s, id);
    } else {
      NotHolder(s, id);
    }
    QuietMoves(s, id, a, t);
    QuietPhases(s, id, a, t);
    SameChatOk(s, t);
    QuietHolder(s, id, a, t);
    QuietStep(s, t, id, t.calls[id].phase);
  }

  lemma NotHolder(s: Store, id: nat)
    requires Inv(s) && id in s.calls && !Holds(s.calls[id].phase)
    ensures s.lock != Some(id)
  {
    hide ChatOk, ArchivesOk, OwnersOk, HolderOk;
  }

  lemma SamePrepared(s: Store, t: Store, c: Call, d: Call, text: string, lines: seq<string>, parts: seq<Participant>)
    requires ChatOk(s) && ChatOk(t) && SameChat(s, t) && d.msg == c.msg && d.stamp == c.stamp
             && Prepared(s, c, text, lines, parts)
    ensures Prepared(t, d, text, lines, parts)
  {
    hide LegalChat, Render, ChatOk, Append, EncodedLines, Tally;
    SameLiveChat(s, t);
  }

  lemma SameHalved(s: Store, t: Store, text: string)
    requires ChatOk(s) && ChatOk(t) && SameChat(s, t) && Halved(s, text)
    ensures Halved(t, text)
  {
    hide LegalChat, Render, ChatOk, Tally;
    SameLiveChat(s, t);
  }

  lemma FirstHolder(s: Store, id: nat, a: Action, t: Store)
    requires Next(s, id, a) == Some(t) && ChatOk(s) && ChatOk(t) && SameChat(s, t)
             && (a.Acquire? || a.ReadState? || a.OpenTmp? || a.WriteTmp?)
    requires id in s.calls && (Holds(s.calls[id].phase) ==> HolderOk(s, s.calls[id]))
    ensures id in t.calls && (Holds(t.calls[id].phase) ==> HolderOk(t, t.calls[id]))
  {
    hide ChatOk, Fits, LegalField, Prepared, Current, Halved, LiveChat, Compute;
    var c, d := s.calls[id], t.calls[id];
    match c.phase
    case Ready(text, lines, parts) => SamePrepared(s, t, c, d, text, lines, parts);
    case Writing(text, lines, parts) => SamePrepared(s, t, c, d, text, lines, parts);
    case TrimWriting(text) => SameHalved(s, t, text);
    case _ =>
  }

  lemma CloseHolder(s: Store, id: nat, t: Store)
    requires Next(s, id, CloseTmp) == Some(t) && ChatOk(s) && ChatOk(t) && SameChat(s, t)
    requires id in s.calls && (Holds(s.calls[id].phase) ==> HolderOk(s, s.calls[id]))
    ensures id in t.calls && (Holds(t.calls[id].phase) ==> HolderOk(t, t.calls[id]))
  {
    hide ChatOk, Fits, LegalField, Prepared, Current, Halved, LiveChat, Compute;
    var c, d := s.calls[id], t.calls[id];
    match c.phase
    case Writing(text, lines, parts) => SamePrepared(s, t, c, d, text, lines, parts);
    case TrimWriting(text) => SameHalved(s, t, text);
    case _ =>
  }

  lemma LastHolder(s: Store, id: nat, a: Action, t: Store)
    requires Next(s, id, a) == Some(t) && ChatOk(t)
    requires a.Fail? || a.EndArchive? || a.Release? || a.AcquireForCursor? || a.Return? || a.Crash?
    ensures id in t.calls && (Holds(t.calls[id].phase) ==> HolderOk(t, t.calls[id]))
  {
    hide ChatOk, Fits, LegalField, Prepared, Current, Halved, LiveChat, Compute, MayFail;
  }

  lemma QuietHolder(s: Store, id: nat, a: Action, t: Store)
    requires Quiet(a) && Next(s, id, a) == Some(t) && ChatOk(s) && ChatOk(t) && SameChat(s, t)
    requires id in s.calls && (Holds(s.calls[id].phase) ==> HolderOk(s, s.calls[id]))
    ensures id in t.calls && (Holds(t.calls[id].phase) ==> HolderOk(t, t.calls[id]))
  {
    hide Next, ChatOk, SameChat, Holds, HolderOk;
    if a.Acquire? || a.ReadState? || a.OpenTmp? || a.WriteTmp? {
      FirstHolder(s, id, a, t);
    } else if a.CloseTmp? {
      CloseHolder(s, id, t);
    } else {
      LastHolder(s, id, a, t);
    }
  }

  lemma SameLiveChat(s: Store, t: Store)
    requires ChatOk(s) && ChatOk(t) && SameChat(s, t)
    ensures LiveChat(s) == LiveChat(t)
  {
    hide LegalChat, Render, Tally;
  }

  lemma BeginKeeps(s: Store, id: nat, a: Action, t: Store)
    requires Inv(s) && a.Begin? && Next(s, id, a) == Some(t)
    ensures Inv(t)
  {
    hide LegalChat, Render, Tally, Fits, LegalField, ArchivesOk, ChatOk, HolderOk;
    SameChatOk(s, t);
    assert LockOk(t);
    assert OwnersOk(t);
    if s.lock.Some? {
      SameHolderOk(s, t, s.calls[s.lock.value]);
    }
  }

  // ---------- the renames ----------

  lemma AppendedArchives(s: Store, t: Store, m: Message)
    requires ArchivesOk(s) && t.archives == s.archives && t.starts == s.starts && t.cut == s.cut
             && t.history == s.history + [m]
    ensures ArchivesOk(t)
  {
    hide IsArchive, Covered;
    forall name | name in t.archives
      ensures Slice(t, name) && IsArchive(t.archives[name], t.history[t.starts[name]..t.starts[name] + ARCHIVE_CLEAVE])
    {
      assert Slice(s, name);
      var a := s.starts[name];
      assert t.history[a..a + ARCHIVE_CLEAVE] == s.history[a..a + ARCHIVE_CLEAVE];
    }
  }

  /** The chat after the rename, from what the rename installs and what the call kept in memory. */
  lemma InstalledChat(s: Store, c: Call, t: Store, text: string, lines: seq<string>, parts: seq<Participant>)
    requires ChatOk(s) && Prepared(s, c, text, lines, parts) && Fits(c.msg)
    requires t.live == text && t.history == s.history + [c.msg] && t.cut == s.cut && t.writer == c.msg.handle
             && t.written == c.stamp
    ensures ChatOk(t) && Current(t, c, lines, parts)
  {
    hide LegalChat, Render, Fits, Tally, EncodedLine, Update;
    AuthorsSnoc(s.history, c.msg);
    assert t.history[t.cut..] == s.history[s.cut..] + [c.msg];
    assert LiveChat(t) == Append(LiveChat(s), c.msg, c.stamp);
  }

  lemma RenameFields(s: Store, id: nat, t: Store)
    requires id in s.calls && s.calls[id].phase.Closed? && Next(s, id, Rename) == Some(t)
    ensures var c := s.calls[id];
            && s.tmp == Some(t.live) && t.history == s.history + [c.msg] && t.owners == s.owners + [id]
            && t.cut == s.cut && t.writer == c.msg.handle && t.written == c.stamp
            && t.calls == s.calls[id := c.(phase := Committed(c.phase.lines, c.phase.parts))]
  {
    hide Fits, LegalField, Compute;
  }

  lemma ClosedPhase(s: Store, c: Call)
    requires ChatOk(s) && c.phase.Closed? && HolderOk(s, c)
    ensures s.tmp == Some(c.phase.text) && Prepared(s, c, c.phase.text, c.phase.lines, c.phase.parts)
  {
    hide ChatOk, Prepared;
  }

  lemma RenamedChat(s: Store, id: nat, t: Store)
    requires Inv(s) && id in s.calls && s.calls[id].phase.Closed? && Next(s, id, Rename) == Some(t)
    ensures ChatOk(t) && HolderOk(t, t.calls[id])
  {
    hide ArchivesOk, OwnersOk, LockOk, ChatOk, Prepared, Current, Fits, LegalField, Halved;
    HolderIs(s, id);
    InvFits(s, id);
    RenameFields(s, id, t);
    hide Next, HolderOk;
    var p := s.calls[id].phase;
    ClosedPhase(s, s.calls[id]);
    InstalledChat(s, s.calls[id], t, p.text, p.lines, p.parts);
    CurrentPhase(t, s.calls[id], t.calls[id], p.lines, p.parts);
  }

  lemma CurrentPhase(t: Store, c: Call, d: Call, lines: seq<string>, parts: seq<Participant>)
    requires ChatOk(t) && Current(t, c, lines, parts) && d == c.(phase := Committed(lines, parts))
    ensures HolderOk(t, d)
  {
    hide ChatOk, Tally, EncodedLines;
  }

  lemma RenamedOwners(s: Store, id: nat, t: Store)
    requires OwnersOk(s) && LockOk(s) && id in s.calls && s.calls[id].phase.Closed? && Next(s, id, Rename) == Some(t)
    ensures OwnersOk(t) && LockOk(t)
  {
    hide Fits, LegalField;
    assert id !in s.owners;
    forall i | 0 <= i < |t.owners|
      ensures t.owners[i] in t.calls && t.calls[t.owners[i]].msg == t.history[i] && !Before(t.calls[t.owners[i]].phase)
    {
      assert i < |s.owners| ==> s.owners[i] in s.owners;
    }
    assert forall j | j in s.owners :: j in t.owners;
    assert t.owners[|s.owners|] == id;
  }

  lemma RenameKeeps(s: Store, id: nat, t: Store)
    requires Inv(s) && Next(s, id, Rename) == Some(t)
    ensures Inv(t)
  {
    hide ChatOk, ArchivesOk, OwnersOk, LockOk, HolderOk;
    HolderIs(s, id);
    AppendedArchives(s, t, s.calls[id].msg);
    RenamedChat(s, id, t);
    RenamedOwners(s, id, t);
  }

  lemma FirstThousand(ms: seq<Message>, lines: seq<string>, stamp: string)
    requires AllFit(ms) && lines == EncodedLines(ms) && |ms| >= ARCHIVE_CLEAVE && LegalField(stamp)
    ensures IsArchive(ArchiveText(lines, stamp), ms[..ARCHIVE_CLEAVE])
  {
    hide Fits, EncodedLine, LegalField, FileText, EncodedLines;
    EncodedSlices(ms, ARCHIVE_CLEAVE);
    var slice := ms[..ARCHIVE_CLEAVE];
    assert slice[..ARCHIVE_CLEAVE] == slice;
    EncodedSlices(slice, ARCHIVE_CLEAVE);
  }

  /** One more archive, which holds the oldest thousand messages of the live file. */
  lemma NewArchive(s: Store, name: string, text: string, t: Store)
    requires ChatOk(s) && ArchivesOk(s) && |s.history| - s.cut > ARCHIVE_THRESHOLD && name !in s.archives
    requires IsArchive(text, s.history[s.cut..][..ARCHIVE_CLEAVE])
    requires t.archives == s.archives[name := text] && t.starts == s.starts[name := s.cut] && t.history == s.history
             && t.cut == s.cut
    ensures ArchivesOk(t)
  {
    hide IsArchive, Covered, ChatOk;
    assert s.history[s.cut..][..ARCHIVE_CLEAVE] == s.history[s.cut..s.cut + ARCHIVE_CLEAVE];
    forall i: nat | i < t.cut ensures Covered(t.starts, i) {
      StillCovered(s.starts, name, s.cut, i);
    }
    forall n | n in t.archives ensures Slice(t, n)
      && IsArchive(t.archives[n], t.history[t.starts[n]..t.starts[n] + ARCHIVE_CLEAVE]) {
      assert n != name ==> Slice(s, n);
    }
  }

  lemma StillCovered(starts: map<string, nat>, name: string, start: nat, i: nat)
    requires name !in starts && Covered(starts, i)
    ensures Covered(starts[name := start], i)
  {
    var n :| n in starts && starts[n] <= i < starts[n] + ARCHIVE_CLEAVE;
    assert n in starts[name := start];
  }

  lemma ArchivedHolder(s: Store, t: Store, c: Call, d: Call, name: string)
    requires ChatOk(s) && HolderOk(s, c) && c.phase.Committed? && |s.history| - s.cut > ARCHIVE_THRESHOLD
    requires t.live == s.live && t.history == s.history && t.cut == s.cut && t.writer == s.writer
             && t.written == s.written
    requires name in t.starts && t.starts[name] == s.cut
    requires d == c.(phase := Archived(c.phase.lines, c.phase.parts))
    ensures ChatOk(t) && HolderOk(t, d)
  {
    hide LegalChat, Render, Tally, EncodedLines, Fits;
    assert LiveChat(t) == LiveChat(s);
  }

  lemma KeptLines(s: Store, c: Call)
    requires ChatOk(s) && HolderOk(s, c) && c.phase.Committed?
    ensures AllFit(s.history[s.cut..]) && c.phase.lines == EncodedLines(s.history[s.cut..])
            && |c.phase.lines| == |s.history| - s.cut
  {
    hide LegalChat, Render, Tally, Fits, EncodedLine;
  }

  lemma RenameArchiveKeeps(s: Store, id: nat, a: Action, t: Store)
    requires Inv(s) && a.RenameArchive? && Next(s, id, a) == Some(t)
    ensures Inv(t)
  {
    hide ChatOk, ArchivesOk, OwnersOk, LockOk, HolderOk, IsArchive, LegalField, AllFit, Before;
    HolderIs(s, id);
    var c := s.calls[id];
    KeptLines(s, c);
    FirstThousand(s.history[s.cut..], c.phase.lines, a.archiveStamp);
    NewArchive(s, a.name, ArchiveText(c.phase.lines, a.archiveStamp), t);
    ArchivedHolder(s, t, c, t.calls[id], a.name);
    var p := t.calls[id].phase;
    assert Moved(s, t, id, p);
    MovedLock(s, t, id, p);
    NotBefore(p);
    MovedOwners(s, t, id, p);
  }

  lemma NotBefore(p: Phase)
    requires p.Archived?
    ensures !Before(p)
  {
  }

  lemma TrimFields(s: Store, id: nat, t: Store)
    requires id in s.calls && s.calls[id].phase.TrimClosed? && Next(s, id, RenameTrim) == Some(t)
    ensures s.tmp == Some(t.live) && t.cut == s.cut + ARCHIVE_CLEAVE && t.history == s.history
    ensures t.archives == s.archives && t.starts == s.starts && t.writer == s.writer && t.written == s.written
  {
    hide Fits, LegalField, HeaderFits, Compute;
  }

  lemma TrimmedLive(s: Store, text: string, t: Store)
    requires ChatOk(s) && Halved(s, text) && t.live == text
    requires t.cut == s.cut + ARCHIVE_CLEAVE && t.history == s.history && t.writer == s.writer && t.written == s.written
    ensures ChatOk(t)
  {
    hide LegalChat, Render, AllFit, Tally;
    assert t.history[t.cut..] == s.history[s.cut..][ARCHIVE_CLEAVE..];
    assert LiveChat(t) == Trim(LiveChat(s));
  }

  lemma TrimmedArchives(s: Store, t: Store)
    requires ArchivesOk(s) && exists name :: name in s.starts && s.starts[name] == s.cut
    requires t.cut == s.cut + ARCHIVE_CLEAVE && t.history == s.history && t.archives == s.archives
             && t.starts == s.starts
    ensures ArchivesOk(t)
  {
    hide IsArchive;
    var name :| name in s.starts && s.starts[name] == s.cut;
    forall i: nat | i < t.cut ensures Covered(t.starts, i) {
      if i < s.cut {
        assert Covered(s.starts, i);
      }
    }
    forall n | n in t.archives ensures Slice(t, n)
      && IsArchive(t.archives[n], t.history[t.starts[n]..t.starts[n] + ARCHIVE_CLEAVE]) {
      assert Slice(s, n);
    }
  }

  lemma TrimmedChat(s: Store, id: nat, t: Store)
    requires Inv(s) && id in s.calls && s.calls[id].phase.TrimClosed? && Next(s, id, RenameTrim) == Some(t)
    ensures ChatOk(t) && ArchivesOk(t)
  {
    hide OwnersOk, LockOk, ChatOk, ArchivesOk, LegalChat, Render, LiveChat, Next;
    HolderIs(s, id);
    TrimFields(s, id, t);
    TrimmedLive(s, s.calls[id].phase.text, t);
    TrimmedArchives(s, t);
  }

  lemma RenameTrimMoves(s: Store, id: nat, t: Store)
    requires id in s.calls && s.calls[id].phase.TrimClosed? && s.lock == Some(id) && Next(s, id, RenameTrim) == Some(t)
    ensures Moved(s, t, id, Releasing) && t.history == s.history && t.owners == s.owners && t.lock == Some(id)
    ensures !Before(Releasing) && After(s.calls[id].phase)
  {
    hide Fits, LegalField, HeaderFits, Compute;
  }

  lemma RenameTrimKeeps(s: Store, id: nat, t: Store)
    requires Inv(s) && id in s.calls && s.calls[id].phase.TrimClosed? && Next(s, id, RenameTrim) == Some(t)
    ensures Inv(t)
  {
    hide ChatOk, ArchivesOk, OwnersOk, LockOk, Next, Before, After;
    HolderIs(s, id);
    TrimmedChat(s, id, t);
    RenameTrimMoves(s, id, t);
    MovedLock(s, t, id, Releasing);
    MovedOwners(s, t, id, Releasing);
  }

  /** Every step of every call keeps the invariant. */
  lemma StepKeepsInv(s: Store, id: nat, a: Action, t: Store)
    requires Inv(s) && Next(s, id, a) == Some(t)
    ensures Inv(t)
  {
    hide Inv, Compute, Fits, LegalField;
    match a
    case Begin(_, _) => BeginKeeps(s, id, a, t);
    case ReadLines => ComputePrepares(s, id, t);
    case Rename => RenameKeeps(s, id, t);
    case RenameArchive(_, _) => RenameArchiveKeeps(s, id, a, t);
    case OpenTrim => OpenTrimPrepares(s, id, t);
    case RenameTrim => RenameTrimKeeps(s, id, t);
    case _ => QuietKeeps(s, id, a, t);
  }

  // ---------- what holds of every run ----------

  datatype Event = Event(id: nat, action: Action)

  /** The state after these events, if they are possible one after the other. */
  function Run(s: Store, events: seq<Event>): Option<Store>
    decreases |events|
  {
    if events == [] then Some(s)
    else
      match Next(s, events[0].id, events[0].action)
      case None => None
      case Some(t) => Run(t, events[1..])
  }

  /** In lock order: `owners` without some of the turns that led to no message. */
  predicate Within(owners: seq<nat>, turns: seq<nat>) {
    if owners == [] then true
    else if turns == [] then false
    else if owners[|owners| - 1] == turns[|turns| - 1] then Within(owners[..|owners| - 1], turns[..|turns| - 1])
    else Within(owners, turns[..|turns| - 1])
  }

  ghost predicate OrderOk(s: Store) {
    && Within(s.owners, s.turns)
    && forall id | id in s.calls && Holds(s.calls[id].phase) && MayFail(s.calls[id].phase) ::
         s.turns != [] && s.turns[|s.turns| - 1] == id && Within(s.owners, s.turns[..|s.turns| - 1])
  }

  lemma {:induction false} WithinMore(owners: seq<nat>, turns: seq<nat>, id: nat)
    requires Within(owners, turns) && id !in owners
    ensures Within(owners, turns + [id])
  {
    assert (turns + [id])[..|turns|] == turns;
    assert owners != [] ==> owners[|owners| - 1] in owners;
  }

  lemma WithinBoth(owners: seq<nat>, turns: seq<nat>, id: nat)
    requires turns != [] && turns[|turns| - 1] == id && Within(owners, turns[..|turns| - 1])
    ensures Within(owners + [id], turns)
  {
    assert (owners + [id])[..|owners|] == owners;
  }

  lemma WaitingOwnsNothing(s: Store, id: nat)
    requires OwnersOk(s) && id in s.calls && MayFail(s.calls[id].phase)
    ensures id !in s.owners
  {
  }

  lemma AcquireOrder(s: Store, id: nat, t: Store)
    requires OwnersOk(s) && LockOk(s) && OrderOk(s) && Next(s, id, Acquire) == Some(t)
    ensures OrderOk(t)
  {
    hide Compute, Fits, LegalField, HeaderFits, Within, OwnersOk;
    NoHolder(s);
    WaitingOwnsNothing(s, id);
    WithinMore(s.owners, s.turns, id);
    assert t.turns[..|t.turns| - 1] == s.turns;
  }

  lemma RenameOrder(s: Store, id: nat, t: Store)
    requires LockOk(s) && OrderOk(s) && id in s.calls && s.calls[id].phase.Closed? && s.lock == Some(id)
             && Next(s, id, Rename) == Some(t)
    ensures OrderOk(t)
  {
    hide Compute, Fits, LegalField, HeaderFits, Within;
    WithinBoth(s.owners, s.turns, id);
    OnlyHolder(s, id);
  }

  lemma OtherOrder(s: Store, id: nat, a: Action, t: Store)
    requires OrderOk(s) && Next(s, id, a) == Some(t) && !a.Acquire? && !a.Rename?
    ensures OrderOk(t)
  {
    SameRecords(s, id, a, t);
    OtherCalls(s, id, a, t);
    SamePhases(s, id, a, t);
    hide Next, Within, Holds, MayFail;
  }

  lemma StepKeepsOrder(s: Store, id: nat, a: Action, t: Store)
    requires Inv(s) && OrderOk(s) && Next(s, id, a) == Some(t)
    ensures OrderOk(t)
  {
    hide ChatOk, ArchivesOk, OwnersOk, LockOk, HolderOk, Compute, Fits, LegalField, HeaderFits, OrderOk;
    if a.Acquire? {
      AcquireOrder(s, id, t);
    } else if a.Rename? {
      HolderIs(s, id);
      RenameOrder(s, id, t);
    } else {
      OtherOrder(s, id, a, t);
    }
  }

  lemma NoHolder(s: Store)
    requires LockOk(s) && s.lock == None
    ensures forall id | id in s.calls :: !Holds(s.calls[id].phase)
  {
  }

  lemma OnlyHolder(s: Store, id: nat)
    requires LockOk(s) && s.lock == Some(id)
    ensures forall j | j in s.calls && j != id :: !Holds(s.calls[j].phase)
  {
  }

  lemma ComputeTurns(s: Store, id: nat, c: Call, first: string, t: Store)
    requires id in s.calls && s.calls[id] == c && c.phase.HasState? && Compute(s, id, c, first) == Some(t)
    ensures t.turns == s.turns && t.owners == s.owners && t.history == s.history
    ensures t.calls == s.calls[id := c.(phase := t.calls[id].phase)]
            && (t.calls[id].phase.Crashed? || t.calls[id].phase.Ready?)
  {
    hide Fits, EncodedLine, Read, SendFrom, Update, Lines, Collect;
  }

  lemma SameRecords(s: Store, id: nat, a: Action, t: Store)
    requires Next(s, id, a) == Some(t) && !a.Acquire? && !a.Rename?
    ensures t.turns == s.turns && t.owners == s.owners && t.history == s.history
  {
    hide Fits, LegalField, HeaderFits, Compute, ArchiveText, ChatFile.TrimmedText, Truncate, Format, Holds, MayFail;
    if a.ReadLines? {
      ComputeTurns(s, id, s.calls[id], s.calls[id].phase.first, t);
    }
  }

  lemma OtherCalls(s: Store, id: nat, a: Action, t: Store)
    requires Next(s, id, a) == Some(t)
    ensures forall j | j in t.calls && j != id :: j in s.calls && t.calls[j] == s.calls[j]
  {
    hide Fits, LegalField, HeaderFits, Compute, ArchiveText, ChatFile.TrimmedText, Truncate, Format, Holds, MayFail;
    if a.ReadLines? {
      ComputeTurns(s, id, s.calls[id], s.calls[id].phase.first, t);
    }
  }

  lemma SamePhases(s: Store, id: nat, a: Action, t: Store)
    requires Next(s, id, a) == Some(t) && !a.Acquire? && !a.Rename?
    ensures Holds(t.calls[id].phase) && MayFail(t.calls[id].phase) ==>
              id in s.calls && Holds(s.calls[id].phase) && MayFail(s.calls[id].phase)
  {
    hide Fits, LegalField, HeaderFits, Compute, ArchiveText, ChatFile.TrimmedText, Truncate, Format;
    if a.ReadLines? {
      ComputeTurns(s, id, s.calls[id], s.calls[id].phase.first, t);
    }
  }

  /** The invariants hold after every run, and no run forgets a message. */
  lemma {:induction false} RunKeepsInv(s: Store, events: seq<Event>, t: Store)
    requires Inv(s) && OrderOk(s) && Run(s, events) == Some(t)
    ensures Inv(t) && OrderOk(t) && s.history <= t.history
    decreases |events|
  {
    hide Inv, OrderOk, Next;
    if events != [] {
      var e := events[0];
      var next := Next(s, e.id, e.action).value;
      StepKeepsInv(s, e.id, e.action, next);
      StepKeepsOrder(s, e.id, e.action, next);
      HistoryGrows(s, e.id, e.action, next);
      RunKeepsInv(next, events[1..], t);
    }
  }

  lemma HistoryGrows(s: Store, id: nat, a: Action, t: Store)
    requires Next(s, id, a) == Some(t)
    ensures s.history <= t.history
  {
    hide Fits, LegalField, HeaderFits, Compute, ArchiveText, ChatFile.TrimmedText, Truncate, Format, Holds, MayFail;
    if !a.Acquire? && !a.Rename? {
      SameRecords(s, id, a, t);
    }
  }

  /** A state that some run from a new chat file leads to. */
  ghost predicate Reachable(t: Store) {
    exists s, events :: Init(s) && Run(s, events) == Some(t)
  }

  lemma ReachableInv(t: Store)
    requires Reachable(t)
    ensures Inv(t) && OrderOk(t)
  {
    hide Init, Run, Inv;
    var s, events :| Init(s) && Run(s, events) == Some(t);
    InitInv(s);
    InitOrder(s);
    RunKeepsInv(s, events, t);
  }

  lemma InitOrder(s: Store)
    requires Init(s)
    ensures OrderOk(s)
  {
    hide FileText;
  }

  /**
   * What a reader without the lock sees at any moment: a well-formed file that holds one contiguous piece
   * of the history, up to its end, whose size is its length header and whose participants count all
   * messages ever sent, the archived ones included.
   */
  lemma ReaderSees(t: Store)
    requires Reachable(t)
    ensures t.cut <= |t.history| && Read(t.live).Some?
    ensures var st := Read(t.live).value;
            && st.messages == Truncate(SeenAll(t.history[t.cut..]), MAX_MESSAGES) && st.fileLength == |t.live|
               && st.skipped == 0
            && st.lastWriter == t.writer && (t.history != [] ==> t.writer == t.history[|t.history| - 1].handle)
            && IsHistogram(st.participants, Authors(t.history), MAX_PARTICIPANTS)
  {
    ReachableInv(t);
    hide Reachable, ArchivesOk, OwnersOk, LockOk, HolderOk, LegalChat, Render, Tally, Read, EncodedLine, IsHistogram,
         LegalMessage;
    RenderSize(LiveChat(t));
    ReadRender(LiveChat(t));
    AuthorsShort(t.history);
    TallyIsHistogram(Authors(t.history), MAX_PARTICIPANTS);
  }

  /**
   * A reader finds every message ever sent in the live file or in an archive file, except for those in the
   * live file behind its first ten thousand. There is at most one such message, and only an archive step that
   * has begun already can still bring it back (ChatFull.FrozenForGood).
   */
  lemma NothingLost(t: Store, i: nat)
    requires Reachable(t) && i < |t.history|
    ensures t.cut <= i ==> (InLive(t, i) <==> i < t.cut + MAX_MESSAGES)
    ensures i < t.cut ==> exists name :: InArchive(t, name, i)
  {
    hide Reachable, ChatOk, OwnersOk, LockOk, HolderOk, InArchive, ArchivesOk, InLive;
    if i < t.cut {
      ReachableInv(t);
      ArchivedFound(t, i);
    } else {
      LiveFound(t, i);
    }
  }

  lemma LiveFound(t: Store, i: nat)
    requires Reachable(t) && t.cut <= i < |t.history|
    ensures InLive(t, i) <==> i < t.cut + MAX_MESSAGES
  {
    hide Reachable, Read, IsHistogram;
    ReaderSees(t);
  }

  /** A reader of the live file finds message `i` of the history in it. */
  predicate InLive(t: Store, i: nat) {
    && t.cut <= i < |t.history| && Read(t.live).Some?
    && var ms := Read(t.live).value.messages;
       i - t.cut < |ms| && ms[i - t.cut] == Seen(t.history[i])
  }

  lemma ArchivedFound(t: Store, i: nat)
    requires ArchivesOk(t) && i < t.cut
    ensures exists name :: InArchive(t, name, i)
  {
    hide Read, IsArchive;
    assert Covered(t.starts, i);
    var name :| name in t.starts && t.starts[name] <= i < t.starts[name] + ARCHIVE_CLEAVE;
    assert Slice(t, name);
    var ms := t.history[t.starts[name]..t.starts[name] + ARCHIVE_CLEAVE];
    ArchiveReads(t.archives[name], ms);
    assert SeenAll(ms)[i - t.starts[name]] == Seen(t.history[i]);
    assert InArchive(t, name, i);
  }

  /** A reader of this archive finds message `i` of the history in it. */
  predicate InArchive(t: Store, name: string, i: nat) {
    && i < |t.history| && name in t.archives && name in t.starts && Read(t.archives[name]).Some?
    && var ms := Read(t.archives[name]).value.messages;
       t.starts[name] <= i < t.starts[name] + |ms| && ms[i - t.starts[name]] == Seen(t.history[i])
  }

  lemma ArchiveReads(text: string, ms: seq<Message>)
    requires IsArchive(text, ms)
    ensures Read(text).Some? && Read(text).value.messages == SeenAll(ms)
  {
    hide Read, EncodedLine, EncodedLines, FileText, LegalMessage, LegalField;
    var stamp :| LegalField(stamp) && text == ArchiveText(EncodedLines(ms), stamp);
    EncodedSlices(ms, ARCHIVE_CLEAVE);
    ArchiveHeader();
    assert ms[..ARCHIVE_CLEAVE] == ms;
    TextSize("system", stamp, "(archived)", ms);
    ReadText("system", stamp, "(archived)", ms);
  }

  /**
   * A call of chat_send that returned 0 put its message into the history exactly once; one that returned
   * an error did not; and the messages are in the order in which their senders were given the lock.
   */
  lemma SendExactlyOnce(t: Store, id: nat)
    requires Reachable(t) && id in t.calls && t.calls[id].phase.Returned?
    ensures Within(t.owners, t.turns) && |t.owners| == |t.history|
    ensures t.calls[id].phase.rc == 0 <==> id in t.owners
    ensures forall i | 0 <= i < |t.owners| && t.owners[i] == id :: t.history[i] == t.calls[id].msg
    ensures multiset(t.owners)[id] <= 1
  {
    ReachableInv(t);
    hide Reachable, ChatOk, ArchivesOk, LockOk, HolderOk, Within, Inv;
    InvOwners(t);
    ReturnedOwns(t, id);
    DistinctOnce(t.owners, id);
  }

  lemma InvOwners(t: Store)
    requires Inv(t)
    ensures OwnersOk(t)
  {
    hide ChatOk, ArchivesOk, LockOk, HolderOk, OwnersOk;
  }

  lemma ReturnedOwns(t: Store, id: nat)
    requires OwnersOk(t) && id in t.calls && t.calls[id].phase.Returned?
    ensures t.calls[id].phase.rc == 0 <==> id in t.owners
  {
    if id in t.owners {
      var i :| 0 <= i < |t.owners| && t.owners[i] == id;
    }
  }

  lemma {:induction false} DistinctOnce(ids: seq<nat>, id: nat)
    requires forall i, j | 0 <= i < j < |ids| :: ids[i] != ids[j]
    ensures multiset(ids)[id] <= 1
  {
    if ids != [] {
      DistinctOnce(ids[1..], id);
      assert ids == [ids[0]] + ids[1..];
      assert forall k | 0 <= k < |ids[1..]| :: ids[1..][k] != ids[0];
    }
  }

  /** The rename of a send installs exactly what that send computed from the file it replaces. */
  lemma RenameInstalls(s: Store, id: nat, t: Store)
    requires Reachable(s) && id in s.calls && s.calls[id].phase.Closed? && Next(s, id, Rename) == Some(t)
    ensures t.live == s.calls[id].phase.text && IsSent(s.live, s.calls[id], t.live)
  {
    hide Next, Reachable, Inv, Fits, LegalField, IsSent, HolderOk, ChatOk, Prepared;
    ReachableInv(s);
    RenameFields(s, id, t);
    InvFits(s, id);
    HolderPrepared(s, id);
    var p := s.calls[id].phase;
    PreparedIsSent(s, s.calls[id], p.text, p.lines, p.parts);
  }

  lemma HolderPrepared(s: Store, id: nat)
    requires Inv(s) && id in s.calls && s.calls[id].phase.Closed?
    ensures var p := s.calls[id].phase;
            ChatOk(s) && s.tmp == Some(p.text) && Prepared(s, s.calls[id], p.text, p.lines, p.parts)
  {
    hide ArchivesOk, OwnersOk, LockOk, ChatOk, Prepared;
    HolderIs(s, id);
    ClosedPhase(s, s.calls[id]);
  }

  /** `next` is what chat_send makes of the file `live` for this call. */
  predicate IsSent(live: string, c: Call, next: string) {
    IsBytes(c.msg.handle) && IsBytes(c.msg.content) && Send(live, c.msg, c.stamp) == Some(next)
  }

  lemma PreparedIsSent(s: Store, c: Call, text: string, lines: seq<string>, parts: seq<Participant>)
    requires ChatOk(s) && Prepared(s, c, text, lines, parts) && Fits(c.msg) && LegalField(c.stamp)
    ensures IsSent(s.live, c, text)
  {
    hide LegalChat, Render, Tally, EncodedLine, LegalField, Update, Send, EncodedLines, LegalMessage;
    var live := LiveChat(s);
    CountsBelow(s.history);
    RenderSize(live);
    LegalNotFull(live, c.msg, c.stamp);
    SendAppends(live, c.msg, c.stamp);
  }

  lemma LegalNotFull(c: Chat, m: Message, stamp: string)
    requires LegalChat(Append(c, m, stamp)) && |c.messages| <= MAX_MESSAGES
    ensures !TooFull(c, m.handle)
  {
    hide Update;
  }

  /** A process holding the lock is alone in its phases, and every write into the live file is such a process's. */
  lemma OneHolder(t: Store, a: nat, b: nat)
    requires Reachable(t) && a in t.calls && b in t.calls && Holds(t.calls[a].phase) && Holds(t.calls[b].phase)
    ensures a == b
  {
    ReachableInv(t);
    hide Reachable;
  }

  // ---------- a send can always be completed ----------

  lemma RunStep(s: Store, e: Event, rest: seq<Event>)
    requires Next(s, e.id, e.action).Some?
    ensures Run(s, [e] + rest) == Run(Next(s, e.id, e.action).value, rest)
  {
    hide Next;
    assert ([e] + rest)[1..] == rest;
  }

  function Entering(id: nat, m: Message, stamp: string): seq<Event> {
    [Event(id, Begin(m, stamp))] + ([Event(id, Acquire)] + ([Event(id, ReadState)] + []))
  }

  /** From the start of a call to the contents in memory. */
  function Preparing(id: nat, m: Message, stamp: string): seq<Event> {
    Entering(id, m, stamp) + ([Event(id, ReadLines)] + [])
  }

  /** From there to the return. */
  function Installing(id: nat): seq<Event> {
    [Event(id, OpenTmp)] + ([Event(id, CloseTmp)] + ([Event(id, Rename)] + []))
  }

  function Leaving(id: nat): seq<Event> {
    [Event(id, EndArchive)] + ([Event(id, Release)] + ([Event(id, Return)] + []))
  }

  /** A run of this call that has left the archives and the other calls alone. */
  predicate KeptArchives(s: Store, t: Store, id: nat) {
    && t.archives == s.archives && t.starts == s.starts && t.cut == s.cut && t.loose == s.loose && t.again == s.again
    && forall j | j in t.calls :: j in s.calls || j == id
  }

  lemma Enters(s: Store, id: nat, m: Message, stamp: string)
    requires s.lock == None && id !in s.calls && Fits(m) && LegalField(stamp)
    ensures var t := Run(s, Entering(id, m, stamp));
            && t.Some? && id in t.value.calls && t.value.calls[id] == Call(m, stamp, HasState(s.live))
            && t.value.lock == Some(id) && t.value.history == s.history && t.value.live == s.live
            && KeptArchives(s, t.value, id)
  {
    hide Fits, LegalField, Compute, Run, HeaderFits, ArchiveText, ChatFile.TrimmedText, Holds, MayFail;
    var s1 := Next(s, id, Begin(m, stamp)).value;
    var s2 := Next(s1, id, Acquire).value;
    var s3 := Next(s2, id, ReadState).value;
    RunThree(s, Event(id, Begin(m, stamp)), Event(id, Acquire), Event(id, ReadState));
  }

  lemma Prepares(s: Store, id: nat, m: Message, stamp: string)
    requires Inv(s) && s.lock == None && id !in s.calls && Fits(m) && LegalField(stamp)
    requires |s.history| < INT_MAX && !TooFull(LiveChat(s), m.handle)
    ensures var t := Run(s, Preparing(id, m, stamp));
            && t.Some? && id in t.value.calls && t.value.calls[id].phase.Ready? && t.value.calls[id].msg == m
            && t.value.calls[id].stamp == stamp && t.value.lock == Some(id) && t.value.history == s.history
               && KeptArchives(s, t.value, id)
  {
    var c := Call(m, stamp, HasState(s.live));
    SentChat(s, c);
    hide *;
    Enters(s, id, m, stamp);
    var s3 := Run(s, Entering(id, m, stamp)).value;
    ReadyAfter(s3, id, c);
    RunBoth(s, Entering(id, m, stamp), [Event(id, ReadLines)] + []);
    RunStep(s3, Event(id, ReadLines), []);
    RunNothing(Next(s3, id, ReadLines).value);
    PreparingIs(id, m, stamp);
    KeptBoth(s, s3, Next(s3, id, ReadLines).value, id);
  }

  lemma KeptBoth(s: Store, t: Store, u: Store, id: nat)
    requires KeptArchives(s, t, id) && KeptArchives(t, u, id)
    ensures KeptArchives(s, u, id)
  {
  }

  lemma PreparingIs(id: nat, m: Message, stamp: string)
    ensures Preparing(id, m, stamp) == Entering(id, m, stamp) + ([Event(id, ReadLines)] + [])
  {
  }

  lemma RunNothing(s: Store)
    ensures Run(s, []) == Some(s)
  {
  }

  lemma ReadyAfter(s: Store, id: nat, c: Call)
    requires id in s.calls && s.calls[id] == c && c.phase == HasState(s.live) && s.lock == Some(id) && Fits(c.msg)
             && |s.history| < INT_MAX
    requires SendFrom(s.live, s.live, c.msg, c.stamp).Some?
    ensures var t := Next(s, id, ReadLines);
            && t.Some? && t.value.calls[id].phase.Ready? && t.value.calls[id].msg == c.msg
               && t.value.calls[id].stamp == c.stamp
            && t.value.lock == Some(id) && t.value.history == s.history
            && KeptArchives(s, t.value, id)
  {
    hide LegalMessage, SendFrom, Read, EncodedLine, Update, Lines, Collect, WireText;
  }

  lemma Installs(s: Store, id: nat)
    requires id in s.calls && s.calls[id].phase.Ready? && s.lock == Some(id)
    ensures var t := Run(s, Installing(id));
            && t.Some? && id in t.value.calls && t.value.calls[id].phase.Committed? && t.value.lock == Some(id)
            && t.value.calls[id].msg == s.calls[id].msg && t.value.calls[id].stamp == s.calls[id].stamp
            && t.value.history == s.history + [s.calls[id].msg] && KeptArchives(s, t.value, id)
  {
    hide Fits, LegalField, Compute, Run, HeaderFits, ArchiveText, ChatFile.TrimmedText;
    var s1 := Next(s, id, OpenTmp).value;
    var s2 := Next(s1, id, CloseTmp).value;
    var s3 := Next(s2, id, Rename).value;
    RunThree(s, Event(id, OpenTmp), Event(id, CloseTmp), Event(id, Rename));
  }

  lemma EndsArchive(s: Store, id: nat)
    requires id in s.calls && (s.calls[id].phase.Committed? || s.calls[id].phase.Archived?)
    ensures Next(s, id, EndArchive) == Some(Move(s, id, Releasing))
  {
    hide Fits, LegalField, Compute, HeaderFits, ArchiveText, ChatFile.TrimmedText, Truncate, Format, MayFail, Holds;
  }

  lemma Leaves(s: Store, id: nat)
    requires id in s.calls && (s.calls[id].phase.Committed? || s.calls[id].phase.Archived?) && s.lock == Some(id)
    ensures var t := Run(s, Leaving(id));
            && t.Some? && id in t.value.calls && t.value.calls[id].phase == Returned(0) && t.value.lock == None
            && t.value.calls[id].msg == s.calls[id].msg && t.value.history == s.history && KeptArchives(s, t.value, id)
  {
    hide Fits, LegalField, Compute, Run, HeaderFits, ArchiveText, ChatFile.TrimmedText, Truncate, Format, MayFail,
         Holds;
    EndsArchive(s, id);
    var s1 := Next(s, id, EndArchive).value;
    var s2 := Next(s1, id, Release).value;
    var s3 := Next(s2, id, Return).value;
    RunThree(s, Event(id, EndArchive), Event(id, Release), Event(id, Return));
  }

  lemma RunThree(s: Store, e1: Event, e2: Event, e3: Event)
    requires Next(s, e1.id, e1.action).Some?
    requires var s1 := Next(s, e1.id, e1.action).value;
             && Next(s1, e2.id, e2.action).Some?
             && Next(Next(s1, e2.id, e2.action).value, e3.id, e3.action).Some?
    ensures var s2 := Next(Next(s, e1.id, e1.action).value, e2.id, e2.action).value;
            Run(s, [e1] + ([e2] + ([e3] + []))) == Next(s2, e3.id, e3.action)
  {
    hide Next, Run;
    var s1 := Next(s, e1.id, e1.action).value;
    var s2 := Next(s1, e2.id, e2.action).value;
    RunStep(s, e1, [e2] + ([e3] + []));
    RunStep(s1, e2, [e3] + []);
    RunStep(s2, e3, []);
    RunNothing(Next(s2, e3.id, e3.action).value);
  }

  lemma {:induction false} RunBoth(s: Store, a: seq<Event>, b: seq<Event>)
    requires Run(s, a).Some?
    ensures Run(s, a + b) == Run(Run(s, a).value, b)
    decreases |a|
  {
    hide Next;
    if a != [] {
      assert (a + b)[1..] == a[1..] + b && (a + b)[0] == a[0];
      RunBoth(Next(s, a[0].id, a[0].action).value, a[1..], b);
    } else {
      assert a + b == b;
    }
  }

  /**
   * Whatever failed or died before: as long as nobody holds the lock and the chat is not too full, a new
   * send has a run that stores its message and returns 0.
   */
  lemma SendCompletes(s: Store, id: nat, m: Message, stamp: string)
    requires Reachable(s) && s.lock == None && id !in s.calls && Fits(m) && LegalField(stamp)
    requires s.cut <= |s.history| < INT_MAX && !TooFull(LiveChat(s), m.handle)
    ensures var t := Run(s, Preparing(id, m, stamp) + (Installing(id) + Leaving(id)));
            && t.Some? && id in t.value.calls && t.value.calls[id].phase == Returned(0) && t.value.lock == None
            && t.value.calls[id].msg == m && t.value.history == s.history + [m] && KeptArchives(s, t.value, id)
  {
    ReachableInv(s);
    hide Reachable, Fits, LegalField, TooFull, LiveChat, Run, Preparing, Installing, Leaving, OrderOk, Inv,
         KeptArchives;
    Prepares(s, id, m, stamp);
    var ready := Run(s, Preparing(id, m, stamp)).value;
    Installs(ready, id);
    var committed := Run(ready, Installing(id)).value;
    Leaves(committed, id);
    KeptBoth(s, ready, committed, id);
    KeptBoth(s, committed, Run(committed, Leaving(id)).value, id);
    RunBoth(ready, Installing(id), Leaving(id));
    RunBoth(s, Preparing(id, m, stamp), Installing(id) + Leaving(id));
  }
}
