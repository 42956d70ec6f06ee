/** The window of messages that cmd_read of src/nbs-chat/main.c shows. */
module Delivery {
  import opened Bytes

  // ---------- the window of one read ----------

  /** The first index at or behind `start` whose stamp is at least `after`, or `end`. */
  function FirstFrom(stamps: seq<int>, start: nat, end: nat, after: int): (r: nat)
    requires start <= end <= |stamps|
    ensures start <= r <= end && (forall i | start <= i < r :: stamps[i] < after)
    ensures r < end ==> stamps[r] >= after
    decreases end - start
  {
    if start < end && stamps[start] < after then FirstFrom(stamps, start + 1, end, after) else start
  }

  /** The end of the window once the trailing stamps above `before` are gone. */
  function LastUpTo(stamps: seq<int>, start: nat, end: nat, before: int): (r: nat)
    requires start <= end <= |stamps|
    ensures start <= r <= end && (forall i | r <= i < end :: stamps[i] > before)
    ensures r > start ==> stamps[r - 1] <= before
    decreases end
  {
    if end > start && stamps[end - 1] > before then LastUpTo(stamps, start, end - 1, before) else end
  }

  method SkipOlder(stamps: seq<int>, from: nat, end: nat, after: int) returns (start: nat)
    requires from <= end <= |stamps|
    ensures start == FirstFrom(stamps, from, end, after)
  {
    start := from;
    while start < end && stamps[start] < after
      invariant from <= start <= end && FirstFrom(stamps, start, end, after) == FirstFrom(stamps, from, end, after)
    {
      start := start + 1;
    }
  }

  method DropNewer(stamps: seq<int>, start: nat, to: nat, before: int) returns (end: nat)
    requires start <= to <= |stamps|
    ensures end == LastUpTo(stamps, start, to, before)
  {
    end := to;
    while end > start && stamps[end - 1] > before
      invariant start <= end <= to && LastUpTo(stamps, start, end, before) == LastUpTo(stamps, start, to, before)
    {
      end := end - 1;
    }
  }

  predicate Unread(cursor: int, i: int) { cursor < i }

  /**
   * Where the unread messages begin: what is shown is exactly what lies above the cursor. A cursor beyond the
   * file is to be set back to its last message, so that only messages yet to come are above it.
   */
  function UnreadFrom(count: nat, cursor: int): (r: (nat, Option<nat>))
    ensures r.0 <= count && forall i | 0 <= i < count :: r.0 <= i <==> Unread(cursor, i)
    ensures r.1.Some? <==> cursor >= count
    ensures r.1.Some? && count > 0 ==> forall i :: Unread(r.1.value, i) <==> count <= i
  {
    var start := if cursor < -1 then 0 else cursor + 1;
    if start > count then (count, Some(if count > 0 then count - 1 else 0)) else (start, None)
  }

  method UnreadStart(count: nat, cursor: int) returns (start: nat, clamped: Option<nat>)
    ensures (start, clamped) == UnreadFrom(count, cursor)
  {
    var c := if cursor < -1 then -1 else cursor;
    if c + 1 > count {
      start, clamped := count, Some(if count > 0 then count - 1 else 0);
    } else {
      start, clamped := c + 1, None;
    }
  }

  /**
   * The other filters of cmd_read: of the messages from `from` on, those between the time limits, without
   * the newest `offset` of them, and of that the newest `last`.
   */
  method Window(stamps: seq<int>, from: nat, after: int, before: int, offset: nat, last: int)
      returns (start: nat, end: nat)
    requires from <= |stamps|
    ensures from <= start <= end <= |stamps|
    ensures var a := if after > 0 then FirstFrom(stamps, from, |stamps|, after) else from;
            var b := if before > 0 then LastUpTo(stamps, a, |stamps|, before) else |stamps|;
            && (start < end ==> end == b - offset && a <= start && (start == a || end - start == last))
            && end - start == Min(if b - a <= offset then 0 else b - a - offset, last)
  {
    start, end := from, |stamps|;
    if after > 0 {
      start := SkipOlder(stamps, start, end, after);
    }
    if before > 0 {
      end := DropNewer(stamps, start, end, before);
    }
    if offset > 0 {
      if end - start <= offset {
        start := end;
      } else {
        end := end - offset;
      }
    }
    if last >= 0 && end - start > last {
      start := end - last;
    }
  }

  /** The smaller of both; a negative `last` stands for no limit. */
  function Min(n: nat, last: int): nat {
    if last >= 0 && n > last then last else n
  }
}
