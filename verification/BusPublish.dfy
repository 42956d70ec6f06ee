/** What becomes of an event that is offered to the bus: when bus_publish_dedup publishes it and when it drops it. */
module BusPublish {
  import opened Bytes
  import opened BusDedup

  // ---------- one publisher at work in a bus where all else is quiet ----------

  /** The bus with this publisher in this phase. */
  function At(s: Bus, id: nat, key: string, window: int, p: Phase): Bus {
    s.(pubs := s.pubs[id := Publisher(key, window, p)], lock := if Holds(p) then Some(id) else None)
  }

  lemma MoveAt(s: Bus, id: nat, key: string, window: int, p: Phase, q: Phase)
    requires s.lock == None
    ensures Move(At(s, id, key, window, p), id, q) == At(s, id, key, window, q)
  {
    var t := Move(At(s, id, key, window, p), id, q);
    assert t.pubs == At(s, id, key, window, q).pubs;
  }

  function Looking(id: nat, key: string, window: int): seq<Step> {
    [Publish(id, Begin(key, window))]
      + ([Publish(id, Acquire)] + ([Publish(id, TakeTime)] + ([Publish(id, OpenDir)] + [])))
  }

  function Visits(id: nat, files: seq<nat>): seq<Step> {
    seq(|files|, i requires 0 <= i < |files| => Publish(id, Visit(files[i])))
  }

  function Finishing(id: nat): seq<Step> {
    [Publish(id, EndScan)] + ([Publish(id, Stamp)] + ([Publish(id, Rename)] + []))
  }

  lemma Looks(s: Bus, id: nat, key: string, window: int)
    requires s.lock == None && id !in s.pubs && window > 0
    ensures Run(s, Looking(id, key, window)) == Some(At(s, id, key, window, Scanning(s.clock, s.pending.Keys, s.next)))
  {
    var s1, s2 := At(s, id, key, window, Waiting), At(s, id, key, window, Locked);
    var s3, s4 := At(s, id, key, window, Timed(s.clock)),
                  At(s, id, key, window, Scanning(s.clock, s.pending.Keys, s.next));
    MoveAt(s, id, key, window, Waiting, Locked);
    MoveAt(s, id, key, window, Locked, Timed(s.clock));
    MoveAt(s, id, key, window, Timed(s.clock), Scanning(s.clock, s.pending.Keys, s.next));
    assert After(s, Publish(id, Begin(key, window))) == Some(s1) && After(s1, Publish(id, Acquire)) == Some(s2);
    assert After(s2, Publish(id, TakeTime)) == Some(s3) && After(s3, Publish(id, OpenDir)) == Some(s4);
    hide After, Run, At;
    RunStep(s, Publish(id, Begin(key, window)),
            [Publish(id, Acquire)] + ([Publish(id, TakeTime)] + ([Publish(id, OpenDir)] + [])));
    RunStep(s1, Publish(id, Acquire), [Publish(id, TakeTime)] + ([Publish(id, OpenDir)] + []));
    RunStep(s2, Publish(id, TakeTime), [Publish(id, OpenDir)] + []);
    RunStep(s3, Publish(id, OpenDir), []);
    RunNothing(s4);
  }

  lemma Finishes(s: Bus, id: nat, key: string, window: int, now: int, unread: set<nat>, known: nat)
    requires s.lock == None && unread !! s.pending.Keys
    ensures Run(At(s, id, key, window, Scanning(now, unread, known)), Finishing(id))
         == Some(Add(At(s, id, key, window, Returned(true)), Event(key, s.clock, window, Some(known))))
  {
    var s1, s2 := At(s, id, key, window, Scanning(now, unread, known)), At(s, id, key, window, Clear(now, known));
    var s3 := At(s, id, key, window, Stamped(now, s.clock, known));
    var s4 := Add(At(s, id, key, window, Returned(true)), Event(key, s.clock, window, Some(known)));
    MoveAt(s, id, key, window, Scanning(now, unread, known), Clear(now, known));
    MoveAt(s, id, key, window, Clear(now, known), Stamped(now, s.clock, known));
    MoveAt(s, id, key, window, Stamped(now, s.clock, known), Returned(true));
    assert After(s1, Publish(id, EndScan)) == Some(s2) && After(s2, Publish(id, Stamp)) == Some(s3);
    assert After(s3, Publish(id, Rename)) == Some(s4);
    hide After, Run, At;
    RunStep(s1, Publish(id, EndScan), [Publish(id, Stamp)] + ([Publish(id, Rename)] + []));
    RunStep(s2, Publish(id, Stamp), [Publish(id, Rename)] + []);
    RunStep(s3, Publish(id, Rename), []);
    RunNothing(s4);
  }

  // ---------- the scan ----------

  /** This event makes one with the key, offered at `now` with the window, a duplicate. */
  predicate Duplicate(e: Event, key: string, now: int, window: int) {
    e.key == key && e.stamp >= (if now >= window then now - window else 0)
  }

  predicate NoneDuplicate(s: Bus, files: seq<nat>, key: string, window: int) {
    forall i | 0 <= i < |files| && files[i] in s.pending :: !Duplicate(s.pending[files[i]], key, s.clock, window)
  }

  predicate NoDuplicate(s: Bus, key: string, window: int) {
    forall f | f in s.pending :: !Duplicate(s.pending[f], key, s.clock, window)
  }

  predicate AllDistinct(files: seq<nat>) {
    forall i, j | 0 <= i < j < |files| :: files[i] != files[j]
  }

  /** A listing of the directory, in any order. */
  predicate Lists(files: seq<nat>, pending: map<nat, Event>) {
    AllDistinct(files) && (forall i | 0 <= i < |files| :: files[i] in pending) && forall f | f in pending :: f in files
  }

  /** The names that are still to come. */
  function Rest(files: seq<nat>): set<nat> { set f | f in files }

  lemma VisitStep(s: Bus, id: nat, key: string, window: int, unread: set<nat>, file: nat)
    requires s.lock == None && file in unread && file in s.pending
    ensures After(At(s, id, key, window, Scanning(s.clock, unread, s.next)), Publish(id, Visit(file)))
         == Some(At(s, id, key, window, if Duplicate(s.pending[file], key, s.clock, window) then Dropped(s.clock, file)
                                        else Scanning(s.clock, unread - {file}, s.next)))
  {
    MoveAt(s, id, key, window, Scanning(s.clock, unread, s.next), Dropped(s.clock, file));
    MoveAt(s, id, key, window, Scanning(s.clock, unread, s.next), Scanning(s.clock, unread - {file}, s.next));
  }

  lemma VisitsCons(id: nat, files: seq<nat>)
    requires files != []
    ensures Visits(id, files) == [Publish(id, Visit(files[0]))] + Visits(id, files[1..])
  {
  }

  lemma RestCons(files: seq<nat>)
    requires files != [] && AllDistinct(files)
    ensures Rest(files) - {files[0]} == Rest(files[1..]) && AllDistinct(files[1..])
  {
    forall f | f in files[1..] ensures f in files && f != files[0] {
      var i :| 0 <= i < |files[1..]| && files[1..][i] == f;
      assert files[i + 1] == f;
    }
  }

  lemma {:induction false} VisitsAll(s: Bus, id: nat, key: string, window: int, files: seq<nat>)
    requires s.lock == None && AllDistinct(files) && (forall i | 0 <= i < |files| :: files[i] in s.pending)
    requires NoneDuplicate(s, files, key, window)
    ensures Run(At(s, id, key, window, Scanning(s.clock, Rest(files), s.next)), Visits(id, files))
         == Some(At(s, id, key, window, Scanning(s.clock, {}, s.next)))
  {
    hide After, At, Run, Duplicate;
    var scanning := At(s, id, key, window, Scanning(s.clock, Rest(files), s.next));
    if files == [] {
      assert Visits(id, files) == [] && Rest(files) == {};
      RunNothing(scanning);
    } else {
      VisitStep(s, id, key, window, Rest(files), files[0]);
      VisitsCons(id, files);
      RestCons(files);
      RunStep(scanning, Publish(id, Visit(files[0])), Visits(id, files[1..]));
      VisitsAll(s, id, key, window, files[1..]);
    }
  }

  /** The first duplicate ends the scan. */
  lemma {:induction false} VisitsUpTo(s: Bus, id: nat, key: string, window: int, files: seq<nat>, k: nat)
    requires s.lock == None && AllDistinct(files) && (forall i | 0 <= i < |files| :: files[i] in s.pending)
    requires k < |files| && NoneDuplicate(s, files[..k], key, window)
             && Duplicate(s.pending[files[k]], key, s.clock, window)
    ensures Run(At(s, id, key, window, Scanning(s.clock, Rest(files), s.next)), Visits(id, files[..k + 1]))
         == Some(At(s, id, key, window, Dropped(s.clock, files[k])))
  {
    hide After, At, Run, Duplicate;
    var scanning := At(s, id, key, window, Scanning(s.clock, Rest(files), s.next));
    VisitStep(s, id, key, window, Rest(files), files[0]);
    VisitsCons(id, files[..k + 1]);
    RestCons(files);
    RunStep(scanning, Publish(id, Visit(files[0])), Visits(id, files[..k + 1][1..]));
    if k > 0 {
      assert files[..k][0] == files[0];
      assert files[..k + 1][1..] == files[1..][..k] && files[1..][..k - 1] == files[..k][1..];
      VisitsUpTo(s, id, key, window, files[1..], k - 1);
    } else {
      assert Visits(id, files[..1][1..]) == [];
      RunNothing(At(s, id, key, window, Dropped(s.clock, files[0])));
    }
  }

  // ---------- the outcome ----------

  /** The whole call of a publisher that goes through the directory in this order. */
  function Publishing(id: nat, key: string, window: int, files: seq<nat>): seq<Step> {
    Looking(id, key, window) + (Visits(id, files) + Finishing(id))
  }

  /** The call as far as the name `k`. */
  function UpTo(id: nat, key: string, window: int, files: seq<nat>, k: nat): seq<Step>
    requires k < |files|
  {
    Looking(id, key, window) + Visits(id, files[..k + 1])
  }

  /** Without a duplicate the call publishes: the event is pending, with its key, the time and its window. */
  lemma Publishes(s: Bus, id: nat, key: string, window: int, files: seq<nat>)
    requires s.lock == None && id !in s.pubs && window > 0 && Lists(files, s.pending) && NoDuplicate(s, key, window)
    ensures var t := Run(s, Publishing(id, key, window, files));
            && t.Some? && id in t.value.pubs && t.value.pubs[id].phase == Returned(true) && t.value.lock == None
            && t.value.pending == s.pending[s.next := Event(key, s.clock, window, Some(s.next))]
            && t.value.next == s.next + 1
  {
    ListsAll(files, s.pending);
    hide Run, Looking, Visits, Finishing, Duplicate;
    Looks(s, id, key, window);
    var scanning := At(s, id, key, window, Scanning(s.clock, s.pending.Keys, s.next));
    VisitsAll(s, id, key, window, files);
    Finishes(s, id, key, window, s.clock, {}, s.next);
    RunBoth(scanning, Visits(id, files), Finishing(id));
    RunBoth(s, Looking(id, key, window), Visits(id, files) + Finishing(id));
  }

  lemma ListsAll(files: seq<nat>, pending: map<nat, Event>)
    requires Lists(files, pending)
    ensures Rest(files) == pending.Keys
  {
  }

  /** With one the call ends at the first that it meets, and the directory is as it was. */
  lemma Drops(s: Bus, id: nat, key: string, window: int, files: seq<nat>) returns (k: nat)
    requires s.lock == None && id !in s.pubs && window > 0 && Lists(files, s.pending) && !NoDuplicate(s, key, window)
    ensures k < |files| && Duplicate(s.pending[files[k]], key, s.clock, window)
    ensures var t := Run(s, UpTo(id, key, window, files, k));
            && t.Some? && id in t.value.pubs && t.value.pubs[id].phase == Dropped(s.clock, files[k])
            && t.value.lock == None && t.value.pending == s.pending && t.value.next == s.next
  {
    ListsAll(files, s.pending);
    hide Run, Looking, Visits, Duplicate;
    k := FirstDuplicate(s, files, key, window);
    Looks(s, id, key, window);
    VisitsUpTo(s, id, key, window, files, k);
    RunBoth(s, Looking(id, key, window), Visits(id, files[..k + 1]));
  }

  lemma FirstDuplicate(s: Bus, files: seq<nat>, key: string, window: int) returns (k: nat)
    requires Lists(files, s.pending) && !NoDuplicate(s, key, window)
    ensures k < |files| && NoneDuplicate(s, files[..k], key, window)
            && Duplicate(s.pending[files[k]], key, s.clock, window)
  {
    hide Duplicate;
    var f :| f in s.pending && Duplicate(s.pending[f], key, s.clock, window);
    k := 0;
    while k < |files| && !Duplicate(s.pending[files[k]], key, s.clock, window)
      invariant k <= |files| && NoneDuplicate(s, files[..k], key, window)
      invariant f in files[k..]
    {
      assert files[..k + 1] == files[..k] + [files[k]] && files[k..] == [files[k]] + files[k + 1..];
      k := k + 1;
    }
  }

  /**
   * An event that is offered while the lock is free and nothing else happens is published exactly when no
   * pending event has its key and a stamp of at least the time less the window.
   */
  lemma PublishesIff(s: Bus, id: nat, key: string, window: int, files: seq<nat>)
    requires s.lock == None && id !in s.pubs && window > 0 && Lists(files, s.pending)
    ensures var t := Run(s, Publishing(id, key, window, files));
            t.Some? && id in t.value.pubs && t.value.pubs[id].phase == Returned(true) <==> NoDuplicate(s, key, window)
  {
    hide NoDuplicate, Duplicate, Publishing, Run, Lists;
    if NoDuplicate(s, key, window) {
      Publishes(s, id, key, window, files);
    } else {
      var k := Drops(s, id, key, window, files);
      var t := Run(s, UpTo(id, key, window, files, k)).value;
      var rest := Visits(id, files[k + 1..]) + Finishing(id);
      Split(id, key, window, files, k);
      RunBoth(s, UpTo(id, key, window, files, k), rest);
      NothingMore(t, id, rest);
    }
  }

  /** An acknowledgement takes its event out of the way of a later one, and no other event. */
  lemma PublishedAfterAck(s: Bus, file: nat, id: nat, key: string, window: int, files: seq<nat>)
    requires s.lock == None && id !in s.pubs && window > 0 && Lists(files, s.pending - {file})
    ensures var t := Run(s, [Acknowledge(file)] + Publishing(id, key, window, files));
            t.Some? && id in t.value.pubs && t.value.pubs[id].phase == Returned(true)
            <==> forall f | f in s.pending && Duplicate(s.pending[f], key, s.clock, window) :: f == file
  {
    hide Duplicate, Publishing, Lists;
    var acked := Ack(s, file);
    assert ([Acknowledge(file)] + Publishing(id, key, window, files))[1..] == Publishing(id, key, window, files);
    PublishesIff(acked, id, key, window, files);
    assert forall f | f in acked.pending :: f in s.pending && acked.pending[f] == s.pending[f];
    assert forall f | f in s.pending && f != file :: f in acked.pending;
  }

  lemma Split(id: nat, key: string, window: int, files: seq<nat>, k: nat)
    requires k < |files|
    ensures Publishing(id, key, window, files)
         == UpTo(id, key, window, files, k) + (Visits(id, files[k + 1..]) + Finishing(id))
  {
    hide Looking, Finishing;
    assert Visits(id, files) == Visits(id, files[..k + 1]) + Visits(id, files[k + 1..]);
  }

  /** A publisher that has ended takes no further step. */
  lemma NothingMore(t: Bus, id: nat, steps: seq<Step>)
    requires id in t.pubs && t.pubs[id].phase.Dropped? && steps != [] && steps[0].Publish? && steps[0].id == id
    ensures Run(t, steps) == None
  {
  }

  // ---------- failures over whole runs ----------

  /** The publisher met with a failure in this run. */
  predicate Failed(steps: seq<Step>, id: nat) {
    exists i :: 0 <= i < |steps| && steps[i] == Publish(id, Fail)
  }

  lemma FailsOnly(s: Bus, step: Step, id: nat, t: Bus)
    requires After(s, step) == Some(t) && id in t.pubs && t.pubs[id].phase == Returned(false)
    ensures step == Publish(id, Fail) || (id in s.pubs && s.pubs[id].phase == Returned(false))
  {
  }

  /** In every run a publisher returns without an event only after a failure, never for a want of duplicates. */
  lemma {:induction false} NoEventOnlyByFailure(s: Bus, steps: seq<Step>, t: Bus, id: nat)
    requires Run(s, steps) == Some(t) && (id in s.pubs ==> s.pubs[id].phase != Returned(false))
    requires id in t.pubs && t.pubs[id].phase == Returned(false)
    ensures Failed(steps, id)
    decreases |steps|
  {
    hide After;
    var next := After(s, steps[0]).value;
    if steps[0] != Publish(id, Fail) {
      if id in next.pubs && next.pubs[id].phase == Returned(false) {
        FailsOnly(s, steps[0], id, next);
      } else {
        NoEventOnlyByFailure(next, steps[1..], t, id);
        var i :| 0 <= i < |steps[1..]| && steps[1..][i] == Publish(id, Fail);
        assert steps[i + 1] == Publish(id, Fail);
      }
    }
  }
}
