/**
 * Publishing to the event bus without duplicates: bus_publish_dedup of src/nbs-bus/bus.c step by step,
 * with acknowledgements, crashes and the passing of time between any two steps.
 */
module BusDedup {
  import opened Bytes

  /**
   * An event file: its dedup-key, the stamp in its name and the window its publisher asked for. `known` tells
   * how many events there had been when the publisher opened the directory to look for duplicates, if it did.
   */
  datatype Event = Event(key: string, stamp: int, window: int, known: Option<nat>)

  datatype Phase =
    | Waiting
    | Locked
    | Timed(now: int)
    | Scanning(now: int, unread: set<nat>, known: nat)
    | Clear(now: int, known: nat)
    | Stamped(now: int, stamp: int, known: nat)
    | Unchecked
    | UncheckedStamped(stamp: int)
    | Dropped(now: int, duplicate: nat)
    | Returned(published: bool)
    | Crashed

  datatype Publisher = Publisher(key: string, window: int, phase: Phase)

  /** Event files are numbered in the order in which they appeared; `ever` also keeps those that were acknowledged. */
  datatype Bus = Bus(pending: map<nat, Event>, ever: map<nat, Event>, next: nat, clock: int, lock: Option<nat>,
    pubs: map<nat, Publisher>)

  datatype Action =
    | Begin(key: string, window: int)
    | Acquire
    | SkipLock
    | TakeTime
    | OpenDir
    | SkipScan
    | Visit(file: nat)
    | EndScan
    | Stamp
    | Rename
    | Fail
    | Crash

  predicate Holds(p: Phase) {
    p.Locked? || p.Timed? || p.Scanning? || p.Clear? || p.Stamped?
  }

  predicate Ended(p: Phase) {
    p.Dropped? || p.Returned? || p.Crashed?
  }

  /** Events before this moment are not duplicates. */
  function Cutoff(now: int, window: int): int {
    if now - window < 0 then 0 else now - window
  }

  function Move(s: Bus, id: nat, p: Phase): Bus
    requires id in s.pubs
  {
    s.(pubs := s.pubs[id := s.pubs[id].(phase := p)], lock := if Holds(p) then Some(id) else if s.lock == Some(id)
      then None else s.lock)
  }

  /** One step of one publisher. */
  function Next(s: Bus, id: nat, a: Action): (r: Option<Bus>)
    ensures r.Some? ==> id in r.value.pubs && (a.Begin? || id in s.pubs)
  {
    if a.Begin? then
      if id !in s.pubs && a.window > 0 then Some(s.(pubs := s.pubs[id := Publisher(a.key, a.window, Waiting)]))
        else None
    else if id !in s.pubs then None
    else
      var pub := s.pubs[id];
      var p := pub.phase;
      match a
      case Acquire => if p.Waiting? && s.lock == None then Some(Move(s, id, Locked)) else None
      case SkipLock =>
        // the lock cannot be had: the event is published without a look at the others
        if p.Waiting? then Some(Move(s, id, Unchecked)) else None
      case TakeTime => if p.Locked? then Some(Move(s, id, Timed(s.clock))) else None
      case OpenDir => if p.Timed? then Some(Move(s, id, Scanning(p.now, s.pending.Keys, s.next))) else None
      case SkipScan =>
        // the directory cannot be opened: the same, with the lock given back first
        if p.Timed? then Some(Move(s, id, Unchecked)) else None
      case Visit(file) =>
        // readdir may also return files that came later
        if p.Scanning? && (file in p.unread || p.known <= file) then Some(Look(s, id, p, file)) else None
      case EndScan =>
        // readdir returns every file that was there at the start and has not been moved away
        if p.Scanning? && (forall f | f in p.unread :: f !in s.pending) then Some(Move(s, id, Clear(p.now, p.known)))
          else None
      case Stamp =>
        if p.Clear? then Some(Move(s, id, Stamped(p.now, s.clock, p.known)))
        else if p.Unchecked? then Some(Move(s, id, UncheckedStamped(s.clock)))
        else None
      case Rename =>
        if p.Stamped? then Some(Add(Move(s, id, Returned(true)), Event(pub.key, p.stamp, pub.window, Some(p.known))))
        else if p.UncheckedStamped? then Some(Add(Move(s, id, Returned(true)),
          Event(pub.key, p.stamp, pub.window, None)))
        else None
      case Fail => if !Ended(p) then Some(Move(s, id, Returned(false))) else None
      case Crash => if !Ended(p) then Some(Move(s, id, Crashed)) else None
  }

  function Add(s: Bus, e: Event): Bus {
    s.(pending := s.pending[s.next := e], ever := s.ever[s.next := e], next := s.next + 1)
  }

  /** The scan looks at one name; an acknowledged file is gone by the time it is opened. */
  function Look(s: Bus, id: nat, p: Phase, file: nat): Bus
    requires id in s.pubs && p.Scanning?
  {
    if file in s.pending && s.pending[file].stamp >= Cutoff(p.now, s.pubs[id].window)
      && s.pending[file].key == s.pubs[id].key
    then Move(s, id, Dropped(p.now, file))
    else Move(s, id, p.(unread := p.unread - {file}))
  }

  /** bus_ack moves an event out of the directory at any time, without the lock. */
  function Ack(s: Bus, file: nat): Bus {
    s.(pending := s.pending - {file})
  }

  predicate Init(s: Bus) {
    s.pending == map[] && s.ever == map[] && s.next == 0 && s.clock >= 0 && s.lock == None && s.pubs == map[]
  }

  /** The publisher of the event opened the directory when event `i` had been published. */
  predicate Saw(e: Event, i: nat) {
    e.known.Some? && i < e.known.value
  }

  /** Pending events with the same key are apart, if the earlier one was there when the later one's publisher looked. */
  predicate Apart(pending: map<nat, Event>) {
    forall i, j | i in pending && j in pending && i < j && pending[i].key == pending[j].key && Saw(pending[j], i) ::
      pending[j].stamp - pending[i].stamp > pending[j].window
  }

  /** The lock makes every publisher that looks see all events of those that looked before. */
  predicate CheckedInTurn(pending: map<nat, Event>) {
    forall i, j | i in pending && j in pending && i < j && pending[i].known.Some?
      && pending[j].known.Some? :: Saw(pending[j], i)
  }

  predicate CheckedBelow(pending: map<nat, Event>, known: nat) {
    forall i | i in pending && pending[i].known.Some? :: i < known
  }

  /** Of the events before `known`, no pending one with this key is as recent as the cutoff. */
  predicate NoRecent(pending: map<nat, Event>, key: string, cutoff: int, known: nat, except: set<nat>) {
    forall i | i in pending && i < known && i !in except && pending[i].key == key :: pending[i].stamp < cutoff
  }

  predicate Looked(s: Bus, pub: Publisher, now: int, known: nat, except: set<nat>) {
    && now <= s.clock && known <= s.next && CheckedBelow(s.pending, known)
    && NoRecent(s.pending, pub.key, Cutoff(now, pub.window), known, except)
  }

  predicate HolderOk(s: Bus, pub: Publisher) {
    match pub.phase
    case Timed(now) => now <= s.clock
    case Scanning(now, unread, known) => Looked(s, pub, now, known, unread)
    case Clear(now, known) => Looked(s, pub, now, known, {})
    case Stamped(now, stamp, known) => now <= stamp && 0 <= stamp <= s.clock && Looked(s, pub, now, known, {})
    case _ => true
  }

  /** A dropped event had a recent duplicate. */
  predicate DropOk(s: Bus, pub: Publisher) {
    match pub.phase
    case Dropped(now, file) => file in s.ever && s.ever[file].key == pub.key
      && s.ever[file].stamp >= Cutoff(now, pub.window)
    case UncheckedStamped(stamp) => stamp >= 0
    case _ => true
  }

  ghost predicate EventsOk(s: Bus) {
    && Apart(s.pending) && CheckedInTurn(s.pending)
    && (forall i | i in s.pending :: i in s.ever && s.ever[i] == s.pending[i])
    && forall i | i in s.ever :: i < s.next && 0 <= s.ever[i].stamp && s.ever[i].window > 0
  }

  ghost predicate PubsOk(s: Bus) {
    forall id | id in s.pubs ::
      && s.pubs[id].window > 0 && DropOk(s, s.pubs[id])
      && (Holds(s.pubs[id].phase) ==> s.lock == Some(id) && HolderOk(s, s.pubs[id]))
  }

  ghost predicate Inv(s: Bus) {
    s.clock >= 0 && EventsOk(s) && PubsOk(s)
  }

  // ---------- every step keeps the invariant ----------

  /** The new event of a publisher that looked is far enough from every event it saw. */
  lemma AddChecked(s: Bus, pub: Publisher)
    requires EventsOk(s) && pub.phase.Stamped? && HolderOk(s, pub) && pub.window > 0
    ensures EventsOk(Add(s, Event(pub.key, pub.phase.stamp, pub.window, Some(pub.phase.known))))
  {
    var e := Event(pub.key, pub.phase.stamp, pub.window, Some(pub.phase.known));
    var next := s.pending[s.next := e];
    forall i, j | i in next && j in next && i < j && next[i].key == next[j].key && Saw(next[j], i)
      ensures next[j].stamp - next[i].stamp > next[j].window
    {
      if j == s.next {
        assert i in s.pending && s.pending[i].stamp < Cutoff(pub.phase.now, pub.window);
      } else {
        assert i in s.pending && j in s.pending;
      }
    }
  }

  lemma AddUnchecked(s: Bus, e: Event)
    requires EventsOk(s) && e.known == None && e.stamp >= 0 && e.window > 0
    ensures EventsOk(Add(s, e))
  {
  }

  /**
   * A new event that was published without a look disturbs nobody; other ones come from the only holder of the
   * lock.
   */
  lemma AddOthers(s: Bus, e: Event, pub: Publisher)
    requires EventsOk(s) && DropOk(s, pub)
    ensures DropOk(Add(s, e), pub)
    ensures e.known == None && HolderOk(s, pub) ==> HolderOk(Add(s, e), pub)
  {
  }

  /** A step that publishes nothing. */
  lemma MoveKeeps(s: Bus, id: nat, p: Phase)
    requires Inv(s) && id in s.pubs && (Holds(p) ==> Holds(s.pubs[id].phase) || s.lock == None)
    requires DropOk(s, s.pubs[id].(phase := p)) && (Holds(p) ==> HolderOk(s, s.pubs[id].(phase := p)))
    ensures Inv(Move(s, id, p))
  {
    hide Apart, CheckedInTurn, NoRecent, CheckedBelow, Cutoff, Holds;
    var t := Move(s, id, p);
    forall other | other in t.pubs
      ensures t.pubs[other].window > 0 && DropOk(t, t.pubs[other])
      ensures Holds(t.pubs[other].phase) ==> t.lock == Some(other) && HolderOk(t, t.pubs[other])
    {
      assert other in s.pubs;
    }
  }

  lemma Parts(s: Bus, id: nat)
    requires Inv(s) && id in s.pubs
    ensures EventsOk(s) && s.pubs[id].window > 0 && DropOk(s, s.pubs[id])
    ensures Holds(s.pubs[id].phase) ==> s.lock == Some(id) && HolderOk(s, s.pubs[id])
  {
    hide Apart, CheckedInTurn, HolderOk, DropOk, Holds;
  }

  lemma RenameKeeps(s: Bus, id: nat, t: Bus)
    requires Inv(s) && Next(s, id, Rename) == Some(t)
    ensures Inv(t)
  {
    var pub := s.pubs[id];
    var moved := Move(s, id, Returned(true));
    Parts(s, id);
    MoveKeeps(s, id, Returned(true));
    hide Apart, CheckedInTurn, EventsOk, HolderOk, DropOk, NoRecent, CheckedBelow;
    var e := Event(pub.key, pub.phase.stamp, pub.window, if pub.phase.Stamped? then Some(pub.phase.known) else None);
    assert t == Add(moved, e);
    if pub.phase.Stamped? {
      AddChecked(s, pub);
    } else {
      UncheckedStamp(s, pub);
      AddUnchecked(s, e);
    }
    SameEvents(Add(s, e), t);
    forall other | other in t.pubs
      ensures t.pubs[other].window > 0 && DropOk(t, t.pubs[other])
      ensures Holds(t.pubs[other].phase) ==> t.lock == Some(other) && HolderOk(t, t.pubs[other])
    {
      AddOthers(moved, e, moved.pubs[other]);
    }
  }

  lemma UncheckedStamp(s: Bus, pub: Publisher)
    requires DropOk(s, pub) && pub.phase.UncheckedStamped?
    ensures pub.phase.stamp >= 0
  {
  }

  lemma SameEvents(s: Bus, t: Bus)
    requires EventsOk(s) && t.pending == s.pending && t.ever == s.ever && t.next == s.next
    ensures EventsOk(t)
  {
    hide Apart, CheckedInTurn;
  }

  lemma StepKeepsInv(s: Bus, id: nat, a: Action, t: Bus)
    requires Inv(s) && Next(s, id, a) == Some(t)
    ensures Inv(t)
  {
    hide Apart, CheckedInTurn, NoRecent, CheckedBelow;
    match a
    case Begin(_, _) => BeginKeeps(s, id, a, t);
    case Rename => RenameKeeps(s, id, t);
    case Visit(file) => VisitKeeps(s, id, file);
    case EndScan =>
      Parts(s, id);
      ScanClears(s, s.pubs[id]);
      MoveKeeps(s, id, t.pubs[id].phase);
    case OpenDir =>
      Parts(s, id);
      NothingVisited(s, s.pubs[id].key, Cutoff(s.pubs[id].phase.now, s.pubs[id].window));
      MoveKeeps(s, id, t.pubs[id].phase);
    case _ =>
      Parts(s, id);
      MoveKeeps(s, id, t.pubs[id].phase);
  }

  lemma BeginKeeps(s: Bus, id: nat, a: Action, t: Bus)
    requires Inv(s) && a.Begin? && Next(s, id, a) == Some(t)
    ensures Inv(t)
  {
    hide Apart, CheckedInTurn, NoRecent, CheckedBelow, Cutoff, EventsOk;
    SameEvents(s, t);
    forall other | other in t.pubs
      ensures t.pubs[other].window > 0 && DropOk(t, t.pubs[other])
      ensures Holds(t.pubs[other].phase) ==> t.lock == Some(other) && HolderOk(t, t.pubs[other])
    {
      assert other != id ==> other in s.pubs;
    }
  }

  lemma NothingVisited(s: Bus, key: string, cutoff: int)
    requires EventsOk(s)
    ensures NoRecent(s.pending, key, cutoff, s.next, s.pending.Keys) && CheckedBelow(s.pending, s.next)
  {
    hide Apart, CheckedInTurn;
    assert forall i | i in s.pending :: i in s.ever;
  }

  lemma VisitKeeps(s: Bus, id: nat, file: nat)
    requires Inv(s) && id in s.pubs && s.pubs[id].phase.Scanning?
    ensures Inv(Look(s, id, s.pubs[id].phase, file))
  {
    Parts(s, id);
    var pub := s.pubs[id];
    var p := pub.phase;
    VisitClears(s, pub, file);
    hide Apart, CheckedInTurn, NoRecent, CheckedBelow;
    if file in s.pending && s.pending[file].stamp >= Cutoff(p.now, pub.window) && s.pending[file].key == pub.key {
      assert s.ever[file] == s.pending[file];
      MoveKeeps(s, id, Dropped(p.now, file));
    } else {
      MoveKeeps(s, id, p.(unread := p.unread - {file}));
    }
  }

  lemma VisitClears(s: Bus, pub: Publisher, file: nat)
    requires pub.phase.Scanning? && HolderOk(s, pub)
    ensures var cutoff := Cutoff(pub.phase.now, pub.window);
            (file in s.pending && s.pending[file].stamp >= cutoff && s.pending[file].key == pub.key)
            || NoRecent(s.pending, pub.key, cutoff, pub.phase.known, pub.phase.unread - {file})
  {
  }

  lemma ScanClears(s: Bus, pub: Publisher)
    requires pub.phase.Scanning? && HolderOk(s, pub) && forall f | f in pub.phase.unread :: f !in s.pending
    ensures NoRecent(s.pending, pub.key, Cutoff(pub.phase.now, pub.window), pub.phase.known, {})
  {
  }

  lemma AckKeepsInv(s: Bus, file: nat)
    requires Inv(s)
    ensures Inv(Ack(s, file))
  {
    hide Holds, Cutoff;
    var t := Ack(s, file);
    forall id | id in t.pubs
      ensures t.pubs[id].window > 0 && DropOk(t, t.pubs[id])
      ensures Holds(t.pubs[id].phase) ==> t.lock == Some(id) && HolderOk(t, t.pubs[id])
    {
      assert id in s.pubs;
    }
  }

  lemma TickKeepsInv(s: Bus, later: int)
    requires Inv(s) && later >= s.clock
    ensures Inv(s.(clock := later))
  {
    hide Apart, CheckedInTurn, NoRecent, CheckedBelow, Holds, Cutoff;
    var t := s.(clock := later);
    forall id | id in t.pubs
      ensures t.pubs[id].window > 0 && DropOk(t, t.pubs[id])
      ensures Holds(t.pubs[id].phase) ==> t.lock == Some(id) && HolderOk(t, t.pubs[id])
    {
      assert id in s.pubs;
    }
  }

  // ---------- whole runs ----------

  datatype Step = Publish(id: nat, action: Action) | Acknowledge(file: nat) | Tick(later: int)

  function After(s: Bus, step: Step): Option<Bus> {
    match step
    case Publish(id, action) => Next(s, id, action)
    case Acknowledge(file) => Some(Ack(s, file))
    case Tick(later) => if later >= s.clock then Some(s.(clock := later)) else None
  }

  function Run(s: Bus, steps: seq<Step>): Option<Bus>
    decreases |steps|
  {
    if steps == [] then Some(s)
    else
      match After(s, steps[0])
      case None => None
      case Some(t) => Run(t, steps[1..])
  }

  lemma {:induction false} RunKeepsInv(s: Bus, steps: seq<Step>, t: Bus)
    requires Inv(s) && Run(s, steps) == Some(t)
    ensures Inv(t)
    decreases |steps|
  {
    hide Inv, Next, Ack;
    if steps != [] {
      match steps[0] {
        case Publish(id, action) => StepKeepsInv(s, id, action, Next(s, id, action).value);
        case Acknowledge(file) => AckKeepsInv(s, file);
        case Tick(later) => TickKeepsInv(s, later);
      }
      RunKeepsInv(After(s, steps[0]).value, steps[1..], t);
    }
  }

  /**
   * In every reachable state two pending events with the same key are further apart in time than the window
   * that the publisher of the later one asked for, if that publisher got to look and the earlier event was
   * there by then. If both publishers got to look, it was.
   */
  lemma PendingApart(s: Bus, steps: seq<Step>, t: Bus, earlier: nat, later: nat)
    requires Init(s) && Run(s, steps) == Some(t)
    requires earlier in t.pending && later in t.pending && earlier < later
             && t.pending[earlier].key == t.pending[later].key
    requires t.pending[later].known.Some?
    ensures Saw(t.pending[later], earlier)
            ==> t.pending[later].stamp - t.pending[earlier].stamp > t.pending[later].window > 0
    ensures t.pending[earlier].known.Some? ==> Saw(t.pending[later], earlier)
  {
    hide Run;
    RunKeepsInv(s, steps, t);
    assert t.pending[later] == t.ever[later];
  }

  /** A publisher that gives its event up as a duplicate does so for a recent event with its key. */
  lemma DroppedForReason(s: Bus, steps: seq<Step>, t: Bus, id: nat)
    requires Init(s) && Run(s, steps) == Some(t) && id in t.pubs && t.pubs[id].phase.Dropped?
    ensures var pub, p := t.pubs[id], t.pubs[id].phase;
            p.duplicate in t.ever && t.ever[p.duplicate].key == pub.key
              && p.now - t.ever[p.duplicate].stamp <= pub.window
  {
    hide Run;
    RunKeepsInv(s, steps, t);
  }

  lemma RunStep(s: Bus, step: Step, rest: seq<Step>)
    requires After(s, step).Some?
    ensures Run(s, [step] + rest) == Run(After(s, step).value, rest)
  {
    hide After;
    assert ([step] + rest)[1..] == rest;
  }

  function Unlocked(id: nat): seq<Step> {
    [Publish(id, Begin("key", 5))] + ([Publish(id, SkipLock)] + ([Publish(id, Stamp)] + ([Publish(id, Rename)] + [])))
  }

  /** Publishing without the lock, or without the directory, in a bus where all is quiet. */
  lemma UnlockedRun(s: Bus, id: nat)
    requires id !in s.pubs
    ensures var t := Run(s, Unlocked(id));
            && t.Some? && t.value.pending == s.pending[s.next := Event("key", s.clock, 5, None)]
               && t.value.next == s.next + 1
            && t.value.clock == s.clock && t.value.pubs.Keys == s.pubs.Keys + {id}
  {
    var s1 := After(s, Publish(id, Begin("key", 5))).value;
    var s2 := After(s1, Publish(id, SkipLock)).value;
    var s3 := After(s2, Publish(id, Stamp)).value;
    var s4 := After(s3, Publish(id, Rename)).value;
    hide After, Run;
    RunStep(s, Publish(id, Begin("key", 5)), [Publish(id, SkipLock)]
      + ([Publish(id, Stamp)] + ([Publish(id, Rename)] + [])));
    RunStep(s1, Publish(id, SkipLock), [Publish(id, Stamp)] + ([Publish(id, Rename)] + []));
    RunStep(s2, Publish(id, Stamp), [Publish(id, Rename)] + []);
    RunStep(s3, Publish(id, Rename), []);
    RunNothing(s4);
  }

  lemma RunNothing(s: Bus)
    ensures Run(s, []) == Some(s)
  {
  }

  lemma {:induction false} RunBoth(s: Bus, a: seq<Step>, b: seq<Step>)
    requires Run(s, a).Some?
    ensures Run(s, a + b) == Run(Run(s, a).value, b)
    decreases |a|
  {
    hide After;
    if a != [] {
      assert (a + b)[1..] == a[1..] + b && (a + b)[0] == a[0];
      RunBoth(After(s, a[0]).value, a[1..], b);
    } else {
      assert a + b == b;
    }
  }

  /** Without a look nothing keeps duplicates out: two events with one key and one stamp. */
  lemma UncheckedTwins(s: Bus)
    requires Init(s)
    ensures var t := Run(s, Unlocked(0) + Unlocked(1));
            && t.Some? && 0 in t.value.pending && 1 in t.value.pending
            && t.value.pending[0].key == t.value.pending[1].key && t.value.pending[0].stamp == t.value.pending[1].stamp
  {
    UnlockedRun(s, 0);
    var between := Run(s, Unlocked(0)).value;
    UnlockedRun(between, 1);
    hide Run, Unlocked;
    RunBoth(s, Unlocked(0), Unlocked(1));
  }
}
