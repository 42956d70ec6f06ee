/** Deleting processed events, oldest first: bus_prune of src/nbs-bus/bus.c. */
module BusPrune {
  import opened Bytes

  const MAX_EVENTS: nat := 256

  /** A directory entry of processed/; `stamp` is None when the name does not begin with a time stamp. */
  datatype File = File(regular: bool, stamp: Option<int>, size: nat)

  datatype Entry = Entry(name: string, stamp: int, size: nat)

  predicate IsEventName(name: string) {
    |name| >= 7 && name[|name| - 6..] == ".event"
  }

  predicate Listed(files: map<string, File>, name: string) {
    IsEventName(name) && name in files && files[name].regular && files[name].stamp.Some?
  }

  function EntryOf(files: map<string, File>, name: string): (e: Entry)
    requires Listed(files, name)
    ensures e.name == name
  {
    Entry(name, files[name].stamp.value, files[name].size)
  }

  /** What the scan finds, in the order of readdir; it stops when the table is full. */
  function Scan(files: map<string, File>, listing: seq<string>, room: nat): (r: seq<Entry>)
    ensures |r| <= room
    ensures forall i | 0 <= i < |r| ::
              Listed(files, r[i].name) && r[i].name in listing && r[i] == EntryOf(files, r[i].name)
  {
    if listing == [] || room == 0 then []
    else if Listed(files, listing[0]) then
      [EntryOf(files, listing[0])] + Scan(files, listing[1..], room - 1)
    else Scan(files, listing[1..], room)
  }

  /** All events of a directory, in the order of readdir. */
  function Events(files: map<string, File>, listing: seq<string>): seq<Entry> {
    if listing == [] then []
    else (if Listed(files, listing[0]) then [EntryOf(files, listing[0])] else []) + Events(files, listing[1..])
  }

  /** The events are the regular files of the listing with an event's name and a time stamp. */
  lemma {:induction false} EventsAre(files: map<string, File>, listing: seq<string>, e: Entry)
    ensures e in Events(files, listing)
            <==> e.name in listing && e.name in files && files[e.name] == File(true, Some(e.stamp), e.size)
                 && exists front :: front != "" && e.name == front + ".event"
  {
    EventName(e.name);
    if listing != [] {
      EventsAre(files, listing[1..], e);
      assert e.name in listing <==> e.name == listing[0] || e.name in listing[1..];
      EventName(listing[0]);
    }
  }

  lemma EventName(name: string)
    ensures IsEventName(name) <==> exists front :: front != "" && name == front + ".event"
  {
    if IsEventName(name) {
      assert name == name[..|name| - 6] + ".event";
    }
    forall front | front != "" && name == front + ".event" ensures IsEventName(name) {
      assert name[|name| - 6..] == ".event";
    }
  }

  /** The size of the entries whose names are not in `gone`. */
  function SumKept(es: seq<Entry>, gone: set<string>): nat {
    if es == [] then 0 else (if es[0].name in gone then 0 else es[0].size) + SumKept(es[1..], gone)
  }

  function Sum(es: seq<Entry>): nat { SumKept(es, {}) }

  /** What qsort with prune_compare may return. */
  ghost predicate OldestFirst(order: seq<Entry>, es: seq<Entry>) {
    multiset(order) == multiset(es) && forall i, j | 0 <= i < j < |order| :: order[i].stamp <= order[j].stamp
  }

  function Names(es: seq<Entry>): set<string> {
    set i | 0 <= i < |es| :: es[i].name
  }

  lemma {:induction false} KeptSplit(a: seq<Entry>, b: seq<Entry>, gone: set<string>)
    ensures SumKept(a + b, gone) == SumKept(a, gone) + SumKept(b, gone)
  {
    if a != [] {
      assert (a + b)[1..] == a[1..] + b;
      KeptSplit(a[1..], b, gone);
    } else {
      assert a + b == b;
    }
  }

  lemma TakeOut(a: seq<Entry>, b: seq<Entry>, i: nat)
    requires multiset(a) == multiset(b) && a != [] && i < |b| && b[i] == a[0]
    ensures multiset(a[1..]) == multiset(b[..i] + b[i + 1..])
  {
    assert a == [a[0]] + a[1..];
    assert b == b[..i] + [b[i]] + b[i + 1..];
    assert multiset(a) == multiset{a[0]} + multiset(a[1..]);
    assert multiset(b) == multiset(b[..i]) + multiset{b[i]} + multiset(b[i + 1..]);
    assert multiset(b[..i] + b[i + 1..]) == multiset(b[..i]) + multiset(b[i + 1..]);
    assert multiset(a[1..]) == multiset(a) - multiset{a[0]};
    assert multiset(b[..i] + b[i + 1..]) == multiset(b) - multiset{b[i]};
  }

  lemma {:induction false} KeptPermuted(a: seq<Entry>, b: seq<Entry>, gone: set<string>)
    requires multiset(a) == multiset(b)
    ensures SumKept(a, gone) == SumKept(b, gone) && |a| == |b|
  {
    assert |multiset(a)| == |a| && |multiset(b)| == |b|;
    if a != [] {
      assert a[0] in multiset(b);
      var i :| 0 <= i < |b| && b[i] == a[0];
      TakeOut(a, b, i);
      KeptPermuted(a[1..], b[..i] + b[i + 1..], gone);
      KeptSplit(b[..i], b[i..], gone);
      KeptSplit(b[..i], b[i + 1..], gone);
      assert b == b[..i] + b[i..] && b[i..][1..] == b[i + 1..];
    }
  }

  lemma ScanStep(files: map<string, File>, rest: seq<string>, room: nat, es: seq<Entry>)
    requires rest != [] && room > 0
    ensures es + Scan(files, rest, room)
         == if Listed(files, rest[0]) then es + [EntryOf(files, rest[0])] + Scan(files, rest[1..], room - 1)
           else es + Scan(files, rest[1..], room)
    ensures Listed(files, rest[0]) ==> Sum(es + [EntryOf(files, rest[0])]) == Sum(es) + EntryOf(files, rest[0]).size
  {
    hide Listed;
    if Listed(files, rest[0]) {
      var entry := EntryOf(files, rest[0]);
      KeptSplit(es, [entry], {});
      assert [entry][1..] == [];
    }
  }

  lemma ScanEnds(files: map<string, File>, rest: seq<string>, room: nat)
    requires rest == [] || room == 0
    ensures Scan(files, rest, room) == []
  {
  }

  lemma NothingScanned(files: map<string, File>, listing: seq<string>)
    ensures Sum([]) == 0
  {
  }

  /** The two directories of the bus. */
  class Bus {
    var pending: map<string, File>
    var processed: map<string, File>

    method ScanProcessed(listing: seq<string>) returns (entries: seq<Entry>, total: nat)
      ensures entries == Scan(processed, listing, MAX_EVENTS) && total == Sum(entries)
    {
      hide Listed, Sum, Scan;
      entries, total := [], 0;
      NothingScanned(processed, listing);
      assert [] + Scan(processed, listing, MAX_EVENTS) == Scan(processed, listing, MAX_EVENTS);
      var i := 0;
      assert listing[i..] == listing;
      while i < |listing| && |entries| < MAX_EVENTS
        invariant 0 <= i <= |listing| && |entries| <= MAX_EVENTS && total == Sum(entries)
        invariant entries + Scan(processed, listing[i..], MAX_EVENTS - |entries|)
                  == Scan(processed, listing, MAX_EVENTS)
      {
        var name := listing[i];
        ScanStep(processed, listing[i..], MAX_EVENTS - |entries|, entries);
        assert listing[i..][1..] == listing[i + 1..];
        if Listed(processed, name) {
          var entry := EntryOf(processed, name);
          entries, total := entries + [entry], total + entry.size;
        }
        i := i + 1;
      }
      ScanEnds(processed, listing[i..], MAX_EVENTS - |entries|);
      assert entries + [] == entries;
    }

    /**
     * bus_prune, where unlink fails for the names in `stuck`: it goes through the shortest prefix of the
     * entries, oldest first, behind which the rest and what was stuck are within the limit (or through all
     * of them), deletes what it can of that prefix, and nothing else.
     */
    method Prune(listing: seq<string>, order: seq<Entry>, maxBytes: int, stuck: set<string>) returns (visited: nat)
      requires maxBytes > 0 && OldestFirst(order, Scan(processed, listing, MAX_EVENTS))
      modifies this`processed
      ensures visited <= |order| && processed == old(processed) - (Names(order[..visited]) - stuck)
      ensures Remaining(order, visited, stuck) <= maxBytes || visited == |order|
      ensures forall m | 0 <= m < visited :: Remaining(order, m, stuck) > maxBytes
      ensures Enumerates(listing, old(processed)) && stuck == {} && |Events(old(processed), listing)| <= MAX_EVENTS
              ==> Sum(Events(processed, listing)) <= maxBytes
    {
      hide SumKept, Scan, Names, StuckSize, Enumerates, Events;
      NoNames(order, processed, stuck);
      var entries, total := ScanProcessed(listing);
      KeptPermuted(entries, order, {});
      visited := 0;
      assert order[0..] == order;
      if total <= maxBytes {
        LimitReached(processed, listing, order, 0, maxBytes, stuck);
        return;
      }
      while visited < |order| && total > maxBytes
        invariant 0 <= visited <= |order| && total == Remaining(order, visited, stuck)
        invariant processed == old(processed) - (Names(order[..visited]) - stuck)
        invariant forall m | 0 <= m < visited :: Remaining(order, m, stuck) > maxBytes
      {
        SumStep(order, visited, stuck);
        NamesSnoc(order, visited);
        if order[visited].name !in stuck {
          processed := processed - {order[visited].name};
          total := total - order[visited].size;
        }
        visited := visited + 1;
      }
      LimitReached(old(processed), listing, order, visited, maxBytes, stuck);
    }
  }

  /** The size of the entries whose deletion failed. */
  function StuckSize(es: seq<Entry>, stuck: set<string>): nat {
    if es == [] then 0
    else StuckSize(es[..|es| - 1], stuck) + if es[|es| - 1].name in stuck then es[|es| - 1].size else 0
  }

  /** What is left of the scanned entries when the first `n` have been tried. */
  function Remaining(order: seq<Entry>, n: nat, stuck: set<string>): nat
    requires n <= |order|
  {
    Sum(order[n..]) + StuckSize(order[..n], stuck)
  }

  lemma {:induction false} NothingStuck(es: seq<Entry>)
    ensures StuckSize(es, {}) == 0
  {
    if es != [] {
      NothingStuck(es[..|es| - 1]);
    }
  }

  /** When every unlink succeeds the limit is met: an empty directory is always within it. */
  lemma LimitMet(order: seq<Entry>, visited: nat, maxBytes: int)
    requires maxBytes > 0 && visited <= |order| && (Remaining(order, visited, {}) <= maxBytes || visited == |order|)
    ensures Sum(order[visited..]) <= maxBytes && Remaining(order, visited, {}) == Sum(order[visited..])
  {
    NothingStuck(order[..visited]);
  }

  lemma NamesSnoc(order: seq<Entry>, n: nat)
    requires n < |order|
    ensures Names(order[..n + 1]) == Names(order[..n]) + {order[n].name}
  {
    var a, b := order[..n + 1], order[..n];
    forall x | x in Names(a) ensures x in Names(b) + {order[n].name} {
      var i :| 0 <= i < |a| && a[i].name == x;
      assert i < n ==> b[i].name == x;
    }
    forall x | x in Names(b) + {order[n].name} ensures x in Names(a) {
      if x == order[n].name {
        assert a[n].name == x;
      } else {
        var i :| 0 <= i < |b| && b[i].name == x;
        assert a[i].name == x;
      }
    }
  }

  lemma NoNames(order: seq<Entry>, files: map<string, File>, stuck: set<string>)
    ensures Names(order[..0]) == {} && files - ({} - stuck) == files && StuckSize(order[..0], stuck) == 0
  {
  }

  lemma SumStep(order: seq<Entry>, n: nat, stuck: set<string>)
    requires n < |order|
    ensures Remaining(order, n, stuck) == Remaining(order, n + 1, stuck) + if order[n].name in stuck then 0
            else order[n].size
  {
    assert order[n..][1..] == order[n + 1..];
    assert order[..n + 1][..n] == order[..n];
  }

  predicate DistinctNames(es: seq<Entry>) {
    forall i, j | 0 <= i < j < |es| :: es[i].name != es[j].name
  }

  lemma DistinctCons(e: Entry, rest: seq<Entry>)
    requires DistinctNames(rest) && forall i | 0 <= i < |rest| :: rest[i].name != e.name
    ensures DistinctNames([e] + rest)
  {
  }

  lemma {:induction false} ScanDistinct(files: map<string, File>, listing: seq<string>, room: nat)
    requires forall i, j | 0 <= i < j < |listing| :: listing[i] != listing[j]
    ensures DistinctNames(Scan(files, listing, room))
  {
    hide Listed, DistinctNames;
    if listing != [] && room > 0 {
      ScanDistinct(files, listing[1..], room - 1);
      ScanDistinct(files, listing[1..], room);
      var rest := Scan(files, listing[1..], room - 1);
      forall i | 0 <= i < |rest| ensures rest[i].name != listing[0] {
        assert rest[i].name in listing[1..];
      }
      if Listed(files, listing[0]) {
        DistinctCons(EntryOf(files, listing[0]), rest);
      }
    } else {
      NoneDistinct();
    }
  }

  lemma NoneDistinct()
    ensures DistinctNames([])
  {
  }

  lemma {:induction false} OnceEach(es: seq<Entry>, e: Entry)
    requires DistinctNames(es)
    ensures multiset(es)[e] <= 1
  {
    if es != [] {
      OnceEach(es[1..], e);
      assert es == [es[0]] + es[1..];
      assert forall k | 0 <= k < |es[1..]| :: es[1..][k].name != es[0].name;
    }
  }

  lemma TwiceCounted(es: seq<Entry>, i: nat, j: nat)
    requires i < j < |es| && es[i] == es[j]
    ensures multiset(es)[es[i]] >= 2
  {
    assert es == es[..j] + ([es[j]] + es[j + 1..]);
    assert es[..j][i] == es[i];
    assert es[i] in multiset(es[..j]);
  }

  /** What Prune leaves: every scanned entry behind the deleted prefix is still there and not older than what went. */
  lemma NewerKept(files: map<string, File>, listing: seq<string>, order: seq<Entry>, pruned: nat, k: nat)
    requires forall i, j | 0 <= i < j < |listing| :: listing[i] != listing[j]
    requires OldestFirst(order, Scan(files, listing, MAX_EVENTS)) && pruned <= k < |order|
    ensures order[k].name in files - Names(order[..pruned])
    ensures forall i | 0 <= i < pruned :: order[i].stamp <= order[k].stamp
  {
    hide Scan, Listed;
    var es := Scan(files, listing, MAX_EVENTS);
    assert order[k] in multiset(order) && order[k] in multiset(es);
    ListedIn(files, listing, order[k]);
    ScanDistinct(files, listing, MAX_EVENTS);
    OrderDistinct(order, es);
  }

  lemma ListedIn(files: map<string, File>, listing: seq<string>, e: Entry)
    requires e in Scan(files, listing, MAX_EVENTS)
    ensures Listed(files, e.name) && e.name in files && e == EntryOf(files, e.name)
  {
  }

  // ---------- the whole directory ----------

  /** The scan finds the front of the events: all of them if the table has room, for any listing. */
  lemma {:induction false} ScanIsFront(files: map<string, File>, listing: seq<string>, room: nat)
    ensures Scan(files, listing, room) == Truncate(Events(files, listing), room)
  {
    hide Listed, Scan, Events, Truncate;
    if listing == [] || room == 0 {
      FrontEnds(files, listing, room);
    } else {
      ScanIsFront(files, listing[1..], if Listed(files, listing[0]) then room - 1 else room);
      FrontCons(files, listing, room);
    }
  }

  lemma FrontEnds(files: map<string, File>, listing: seq<string>, room: nat)
    requires listing == [] || room == 0
    ensures Scan(files, listing, room) == Truncate(Events(files, listing), room)
  {
    hide Listed;
  }

  lemma FrontCons(files: map<string, File>, listing: seq<string>, room: nat)
    requires listing != [] && room > 0
    requires var left := if Listed(files, listing[0]) then room - 1 else room;
             Scan(files, listing[1..], left) == Truncate(Events(files, listing[1..]), left)
    ensures Scan(files, listing, room) == Truncate(Events(files, listing), room)
  {
    hide Listed;
    var rest := Events(files, listing[1..]);
    if Listed(files, listing[0]) {
      var e := EntryOf(files, listing[0]);
      assert Truncate([e] + rest, room) == [e] + Truncate(rest, room - 1);
    } else {
      assert [] + rest == rest;
    }
  }

  /** A listing of the directory: each name once, and every file that is there ("." and the like may be in it too). */
  predicate Enumerates(listing: seq<string>, files: map<string, File>) {
    && (forall i, j | 0 <= i < j < |listing| :: listing[i] != listing[j])
    && forall name | name in files :: name in listing
  }

  lemma {:induction false} EventsMinus(files: map<string, File>, gone: set<string>, listing: seq<string>)
    ensures Sum(Events(files - gone, listing)) == SumKept(Events(files, listing), gone)
  {
    if listing != [] {
      var name := listing[0];
      EventsMinus(files, gone, listing[1..]);
      assert Listed(files - gone, name) <==> Listed(files, name) && name !in gone;
      EventsCons(files, listing, gone);
      EventsCons(files - gone, listing, {});
    }
  }

  lemma EventsCons(files: map<string, File>, listing: seq<string>, gone: set<string>)
    requires listing != []
    ensures SumKept(Events(files, listing), gone)
         == SumKept(Events(files, listing[1..]), gone)
            + if Listed(files, listing[0]) && listing[0] !in gone then EntryOf(files, listing[0]).size else 0
  {
    hide Listed;
    if Listed(files, listing[0]) {
      var e := EntryOf(files, listing[0]);
      KeptSplit([e], Events(files, listing[1..]), gone);
      assert [e][1..] == [];
    } else {
      assert [] + Events(files, listing[1..]) == Events(files, listing[1..]);
    }
  }

  lemma {:induction false} NoneGone(es: seq<Entry>, gone: set<string>)
    requires forall i | 0 <= i < |es| :: es[i].name !in gone
    ensures SumKept(es, gone) == Sum(es)
  {
    if es != [] {
      NoneGone(es[1..], gone);
    }
  }

  lemma {:induction false} StuckKept(es: seq<Entry>, gone: set<string>, stuck: set<string>)
    requires forall i | 0 <= i < |es| :: es[i].name in gone <==> es[i].name !in stuck
    ensures SumKept(es, gone) == StuckSize(es, stuck)
  {
    if es != [] {
      var n := |es| - 1;
      StuckKept(es[..n], gone, stuck);
      KeptSplit(es[..n], [es[n]], gone);
      assert es == es[..n] + [es[n]] && [es[n]][1..] == [];
    }
  }

  lemma NamesHas(es: seq<Entry>, i: nat)
    requires i < |es|
    ensures es[i].name in Names(es)
  {
  }

  lemma {:induction false} EventsDistinct(files: map<string, File>, listing: seq<string>)
    requires forall i, j | 0 <= i < j < |listing| :: listing[i] != listing[j]
    ensures DistinctNames(Events(files, listing))
  {
    ScanIsFront(files, listing, |Events(files, listing)|);
    ScanDistinct(files, listing, |Events(files, listing)|);
  }

  /** Distinct names stay distinct under any order. */
  lemma OrderDistinct(order: seq<Entry>, es: seq<Entry>)
    requires multiset(order) == multiset(es) && DistinctNames(es)
    ensures DistinctNames(order)
  {
    forall m | 0 <= m < |order| ensures order[m] in es {
      assert order[m] in multiset(order) && order[m] in multiset(es);
    }
    forall i, j | 0 <= i < j < |order| ensures order[i].name != order[j].name {
      if order[i].name == order[j].name {
        TwiceCounted(order, i, j);
        OnceEach(es, order[i]);
        assert false;
      }
    }
  }

  /** The names of one part of a distinct list are not among those of the other. */
  lemma PartsDisjoint(es: seq<Entry>, k: nat, gone: set<string>)
    requires DistinctNames(es) && k <= |es| && gone <= Names(es[..k])
    ensures forall i | 0 <= i < |es[k..]| :: es[k..][i].name !in gone
  {
    forall i | 0 <= i < |es[k..]| ensures es[k..][i].name !in Names(es[..k]) {
      forall j | 0 <= j < k ensures es[..k][j].name != es[k..][i].name {
        assert es[j].name != es[k + i].name;
      }
    }
  }

  lemma SameNames(a: seq<Entry>, b: seq<Entry>)
    requires multiset(a) == multiset(b)
    ensures Names(a) <= Names(b)
  {
    forall x | x in Names(a) ensures x in Names(b) {
      var i :| 0 <= i < |a| && a[i].name == x;
      assert a[i] in multiset(a) && a[i] in multiset(b);
      var j :| 0 <= j < |b| && b[j] == a[i];
      NamesHas(b, j);
    }
  }

  lemma {:induction false} NamesFront(es: seq<Entry>, n: nat)
    requires n <= |es|
    ensures Names(es[..n]) <= Names(es)
  {
    forall x | x in Names(es[..n]) ensures x in Names(es) {
      var i :| 0 <= i < n && es[..n][i].name == x;
      NamesHas(es, i);
    }
  }

  /**
   * What is left in the directory when `visited` entries have been tried: the rest of the scan and what was
   * never scanned.
   */
  lemma DirectoryTotal(files: map<string, File>, listing: seq<string>, order: seq<Entry>, visited: nat,
                       stuck: set<string>)
    requires Enumerates(listing, files) && OldestFirst(order, Scan(files, listing, MAX_EVENTS)) && visited <= |order|
    ensures |order| <= |Events(files, listing)|
    ensures Sum(Events(files - (Names(order[..visited]) - stuck), listing))
         == Remaining(order, visited, stuck) + Sum(Events(files, listing)[|order|..])
  {
    hide Scan, Listed, Events, SumKept, Names, DistinctNames, StuckSize;
    var es, gone := Events(files, listing), Names(order[..visited]) - stuck;
    ScanIsFront(files, listing, MAX_EVENTS);
    var front := Truncate(es, MAX_EVENTS);
    var k := |front|;
    assert front == es[..k] && es == es[..k] + es[k..];
    EventsMinus(files, gone, listing);
    KeptSplit(es[..k], es[k..], gone);
    KeptPermuted(order, front, gone);
    SameNames(order, front);
    NamesFront(order, visited);
    EventsDistinct(files, listing);
    PartsDisjoint(es, k, gone);
    NoneGone(es[k..], gone);
    ScanDistinct(files, listing, MAX_EVENTS);
    OrderDistinct(order, front);
    KeptOrder(order, visited, stuck);
  }

  lemma KeptOrder(order: seq<Entry>, visited: nat, stuck: set<string>)
    requires DistinctNames(order) && visited <= |order|
    ensures SumKept(order, Names(order[..visited]) - stuck) == Remaining(order, visited, stuck)
  {
    hide SumKept, DistinctNames, StuckSize;
    var gone := Names(order[..visited]) - stuck;
    assert order == order[..visited] + order[visited..];
    KeptSplit(order[..visited], order[visited..], gone);
    PartsDisjoint(order, visited, gone);
    NoneGone(order[visited..], gone);
    StuckKept(order[..visited], gone, stuck);
  }

  /**
   * When the directory ends within the limit. With at most 256 events and working unlinks it always does;
   * in general exactly when the events that were never scanned leave enough room.
   */
  lemma DirectoryLimit(files: map<string, File>, listing: seq<string>, order: seq<Entry>, visited: nat, maxBytes: int)
    requires Enumerates(listing, files) && OldestFirst(order, Scan(files, listing, MAX_EVENTS)) && visited <= |order|
             && maxBytes > 0
    requires Remaining(order, visited, {}) <= maxBytes || visited == |order|
    ensures |order| <= |Events(files, listing)|
    ensures var left := Sum(Events(files - Names(order[..visited]), listing));
            && (left <= maxBytes <==> Sum(Events(files, listing)[|order|..]) + Sum(order[visited..]) <= maxBytes)
            && (|Events(files, listing)| <= MAX_EVENTS ==> left <= maxBytes)
  {
    hide Scan, Listed, Events, SumKept, Names, StuckSize;
    DirectoryTotal(files, listing, order, visited, {});
    LimitMet(order, visited, maxBytes);
    assert Names(order[..visited]) - {} == Names(order[..visited]);
    ScanIsFront(files, listing, MAX_EVENTS);
    KeptPermuted(order, Truncate(Events(files, listing), MAX_EVENTS), {});
    if |Events(files, listing)| <= MAX_EVENTS {
      NothingUnscanned(Events(files, listing)[|order|..]);
    }
  }

  lemma LimitReached(files: map<string, File>, listing: seq<string>, order: seq<Entry>, visited: nat, maxBytes: int,
                     stuck: set<string>)
    requires OldestFirst(order, Scan(files, listing, MAX_EVENTS)) && visited <= |order| && maxBytes > 0
    requires Remaining(order, visited, stuck) <= maxBytes || visited == |order|
    ensures Enumerates(listing, files) && stuck == {} && |Events(files, listing)| <= MAX_EVENTS
            ==> Sum(Events(files - (Names(order[..visited]) - stuck), listing)) <= maxBytes
  {
    hide Scan, Events, SumKept, Names, StuckSize, OldestFirst, Enumerates;
    if Enumerates(listing, files) && stuck == {} {
      DirectoryLimit(files, listing, order, visited, maxBytes);
      assert Names(order[..visited]) - {} == Names(order[..visited]);
    }
  }

  lemma NothingUnscanned(es: seq<Entry>)
    ensures es == [] ==> Sum(es) == 0
  {
  }

  // ---------- a directory that stays above the limit ----------

  function Letters(n: nat): (s: string)
    ensures |s| == n
  {
    seq(n, _ => 'a')
  }

  function Name(i: nat): (s: string)
    ensures |s| == i + 7
  {
    Letters(i + 1) + ".event"
  }

  function CrowdNames(): set<string> {
    set i | 0 <= i < 257 :: Name(i)
  }

  /** 256 empty events and behind them one of two bytes, which has the longest name. */
  function Crowd(): map<string, File> {
    map name | name in CrowdNames() :: File(true, Some(0), if |name| == 263 then 2 else 0)
  }

  function CrowdListing(n: nat): (r: seq<string>)
    ensures |r| == n && forall i | 0 <= i < n :: r[i] == Name(i)
  {
    seq(n, i requires 0 <= i => Name(i))
  }

  lemma NameIsEvent(i: nat)
    ensures IsEventName(Name(i))
  {
    assert Name(i)[|Name(i)| - 6..] == ".event";
  }

  lemma CrowdHas(i: nat)
    requires i < 257
    ensures Listed(Crowd(), Name(i)) && EntryOf(Crowd(), Name(i)) == Entry(Name(i), 0, if i == 256 then 2 else 0)
  {
    hide Name, IsEventName;
    NameIsEvent(i);
    assert Name(i) in CrowdNames();
  }

  lemma {:induction false} CrowdEvents(n: nat)
    requires n <= 257
    ensures |Events(Crowd(), CrowdListing(257)[n..])| == 257 - n
    ensures forall i | 0 <= i < 257 - n ::
            Events(Crowd(), CrowdListing(257)[n..])[i] == Entry(Name(n + i), 0, if n + i == 256 then 2 else 0)
    decreases 257 - n
  {
    hide Listed, Name, Crowd;
    if n < 257 {
      var rest := CrowdListing(257)[n..];
      CrowdEvents(n + 1);
      CrowdHas(n);
      assert rest[0] == Name(n) && rest[1..] == CrowdListing(257)[n + 1..];
    }
  }

  lemma {:induction false} EmptyFiles(es: seq<Entry>)
    requires forall i | 0 <= i < |es| :: es[i].size == 0
    ensures Sum(es) == 0
  {
    if es != [] {
      forall i | 0 <= i < |es| - 1 ensures es[1..][i].size == 0 {
        assert es[1..][i] == es[i + 1];
      }
      EmptyFiles(es[1..]);
    }
  }

  /** With 257 events a limit of one byte is missed: the scan sees 256 empty files and deletes nothing. */
  lemma CrowdStaysAbove()
    ensures var files, listing := Crowd(), CrowdListing(257);
            var order := Scan(files, listing, MAX_EVENTS);
            && Enumerates(listing, files) && OldestFirst(order, order) && |Events(files, listing)| == 257
            && Remaining(order, 0, {}) <= 1 && Sum(Events(files - Names(order[..0]), listing)) == 2
  {
    hide Listed, Crowd, SumKept, Events, Scan, Names, StuckSize;
    var files, listing := Crowd(), CrowdListing(257);
    var order := Scan(files, listing, MAX_EVENTS);
    CrowdEvents(0);
    assert listing[0..] == listing;
    ScanIsFront(files, listing, MAX_EVENTS);
    var es := Events(files, listing);
    assert order == es[..256] && order[0..] == order;
    EmptyFiles(order);
    NothingStuck(order[..0]);
    CrowdEnumerated();
    DirectoryTotal(files, listing, order, 0, {});
    assert Names(order[..0]) - {} == Names(order[..0]);
    assert es[256..] == [es[256]];
    OneFile(es[256]);
  }

  lemma OneFile(e: Entry)
    ensures Sum([e]) == e.size
  {
    assert SumKept([e], {}) == e.size + SumKept([e][1..], {}) && SumKept([], {}) == 0;
    assert [e][1..] == [];
  }

  lemma CrowdEnumerated()
    ensures Enumerates(CrowdListing(257), Crowd())
  {
    hide Name;
    var listing := CrowdListing(257);
    forall i, j | 0 <= i < j < 257 ensures listing[i] != listing[j] {
      assert |Name(i)| != |Name(j)|;
    }
    forall name | name in Crowd() ensures name in listing {
      var i :| 0 <= i < 257 && Name(i) == name;
      assert listing[i] == name;
    }
  }
}
