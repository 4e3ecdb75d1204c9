/** The free slots of a day: one sweep over the meetings in order of their start. */
module Availability {
  import opened Options

  const MINUTE_MS: int := 60_000

  /** A calendar event; an all-day event has no instants. */
  datatype Event = Event(start: Option<int>, end: Option<int>)

  datatype Meeting = Meeting(start: int, end: int)

  datatype Slot = Slot(start: int, end: int, minutes: int)

  // ---- the busy list ----------------------------------------------------------------------------

  function Timed(events: seq<Event>): seq<Meeting> {
    if events == [] then []
    else
      var e := events[0];
      (if e.start.Some? && e.end.Some? then [Meeting(e.start.value, e.end.value)] else []) + Timed(events[1..])
  }

  /** The meetings are the events that have both instants, with those instants. */
  lemma {:induction false} TimedAreEvents(events: seq<Event>)
    ensures forall m :: m in Timed(events) <==> Event(Some(m.start), Some(m.end)) in events
  {
    if events != [] {
      TimedAreEvents(events[1..]);
      assert events == [events[0]] + events[1..];
    }
  }

  ghost predicate ByStart(ms: seq<Meeting>) {
    forall i, j :: 0 <= i < j < |ms| ==> ms[i].start <= ms[j].start
  }

  /** Puts a meeting before the first one that starts no earlier: from the right, this keeps ties in order. */
  function Insert(m: Meeting, ms: seq<Meeting>): seq<Meeting> {
    if ms == [] || m.start <= ms[0].start then [m] + ms else [ms[0]] + Insert(m, ms[1..])
  }

  /** The stable sort by start. */
  function Sort(ms: seq<Meeting>): seq<Meeting> {
    if ms == [] then [] else Insert(ms[0], Sort(ms[1..]))
  }

  lemma {:induction false} InsertAdds(m: Meeting, ms: seq<Meeting>)
    ensures multiset(Insert(m, ms)) == multiset(ms) + multiset{m}
  {
    if ms != [] && ms[0].start < m.start {
      InsertAdds(m, ms[1..]);
      assert ms == [ms[0]] + ms[1..];
    }
  }

  lemma {:induction false} InsertIsSorted(m: Meeting, ms: seq<Meeting>)
    requires ByStart(ms)
    ensures ByStart(Insert(m, ms))
  {
    if ms != [] && ms[0].start < m.start {
      var rest := Insert(m, ms[1..]);
      InsertIsSorted(m, ms[1..]);
      InsertAdds(m, ms[1..]);
      forall i | 0 <= i < |rest| ensures ms[0].start <= rest[i].start {
        assert rest[i] in multiset(rest);
        assert rest[i] == m || rest[i] in ms[1..];
      }
    }
  }

  lemma {:induction false} SortIsSorted(ms: seq<Meeting>)
    ensures ByStart(Sort(ms)) && multiset(Sort(ms)) == multiset(ms)
  {
    if ms != [] {
      SortIsSorted(ms[1..]);
      InsertIsSorted(ms[0], Sort(ms[1..]));
      InsertAdds(ms[0], Sort(ms[1..]));
      assert ms == [ms[0]] + ms[1..];
    }
  }

  // ---- the sweep --------------------------------------------------------------------------------

  function Max(a: int, b: int): int { if a < b then b else a }

  /** The latest of the start of work and the ends of the first `n` meetings. */
  function Frontier(ms: seq<Meeting>, n: nat, dayStart: int): int
    requires n <= |ms|
  {
    if n == 0 then dayStart else Max(Frontier(ms, n - 1, dayStart), ms[n - 1].end)
  }

  /** The slot between two instants, if it is long enough. */
  function Gap(from: int, to: int, duration: int): seq<Slot> {
    if to - from >= duration then [Slot(from, to, (to - from) / MINUTE_MS)] else []
  }

  function Gaps(ms: seq<Meeting>, n: nat, dayStart: int, duration: int): seq<Slot>
    requires n <= |ms|
  {
    if n == 0 then []
    else Gaps(ms, n - 1, dayStart, duration) + Gap(Frontier(ms, n - 1, dayStart), ms[n - 1].start, duration)
  }

  function Slots(ms: seq<Meeting>, dayStart: int, dayEnd: int, duration: int): seq<Slot> {
    Gaps(ms, |ms|, dayStart, duration) + Gap(Frontier(ms, |ms|, dayStart), dayEnd, duration)
  }

  method AvailableSlots(events: seq<Event>, dayStart: int, dayEnd: int, duration: int) returns (slots: seq<Slot>)
    ensures slots == Slots(Sort(Timed(events)), dayStart, dayEnd, duration)
  {
    var busy := Sort(Timed(events));
    slots := [];
    var current := dayStart;
    for n := 0 to |busy|
      invariant current == Frontier(busy, n, dayStart)
      invariant slots == Gaps(busy, n, dayStart, duration)
    {
      if busy[n].start - current >= duration {
        slots := slots + [Slot(current, busy[n].start, (busy[n].start - current) / MINUTE_MS)];
      }
      current := Max(current, busy[n].end);
    }
    if dayEnd - current >= duration {
      slots := slots + [Slot(current, dayEnd, (dayEnd - current) / MINUTE_MS)];
    }
  }

  // ---- soundness and completeness ---------------------------------------------------------------

  /** No meeting overlaps the half-open interval from `x` to `y`. */
  ghost predicate Free(ms: seq<Meeting>, x: int, y: int) {
    forall i :: 0 <= i < |ms| ==> ms[i].end <= x || y <= ms[i].start
  }

  predicate Within(x: int, y: int, slot: Slot) { slot.start <= x && y <= slot.end }

  lemma {:induction false} FrontierBounds(ms: seq<Meeting>, n: nat, dayStart: int)
    requires n <= |ms|
    ensures dayStart <= Frontier(ms, n, dayStart)
    ensures forall i :: 0 <= i < n ==> ms[i].end <= Frontier(ms, n, dayStart)
  {
    if n > 0 {
      FrontierBounds(ms, n - 1, dayStart);
    }
  }

  /** The frontier is the least such bound. */
  lemma {:induction false} FrontierIsLeast(ms: seq<Meeting>, n: nat, dayStart: int, x: int)
    requires n <= |ms| && dayStart <= x && forall i :: 0 <= i < n ==> ms[i].end <= x
    ensures Frontier(ms, n, dayStart) <= x
  {
    if n > 0 {
      FrontierIsLeast(ms, n - 1, dayStart, x);
    }
  }

  ghost predicate LongAndFree(ms: seq<Meeting>, slot: Slot, dayStart: int, duration: int) {
    && dayStart <= slot.start && slot.end - slot.start >= duration
    && slot.minutes * 60_000 <= slot.end - slot.start < (slot.minutes + 1) * 60_000
    && Free(ms, slot.start, slot.end)
  }

  lemma {:induction false} GapsAreFree(ms: seq<Meeting>, n: nat, dayStart: int, duration: int)
    requires n <= |ms| && ByStart(ms)
    ensures forall k :: 0 <= k < |Gaps(ms, n, dayStart, duration)| ==>
                          LongAndFree(ms, Gaps(ms, n, dayStart, duration)[k], dayStart, duration)
  {
    if n > 0 {
      GapsAreFree(ms, n - 1, dayStart, duration);
      FrontierBounds(ms, n - 1, dayStart);
    }
  }

  lemma SlotsAreLongAndFree(ms: seq<Meeting>, dayStart: int, dayEnd: int, duration: int)
    requires ByStart(ms)
    ensures forall k :: 0 <= k < |Slots(ms, dayStart, dayEnd, duration)| ==>
                          LongAndFree(ms, Slots(ms, dayStart, dayEnd, duration)[k], dayStart, duration)
  {
    GapsAreFree(ms, |ms|, dayStart, duration);
    FrontierBounds(ms, |ms|, dayStart);
  }

  ghost predicate InOrder(slots: seq<Slot>) {
    forall i, j :: 0 <= i < j < |slots| ==> slots[i].end <= slots[j].start
  }

  lemma {:induction false} GapsAreOrdered(ms: seq<Meeting>, n: nat, dayStart: int, duration: int)
    requires n <= |ms| && forall i :: 0 <= i < |ms| ==> ms[i].start <= ms[i].end
    ensures InOrder(Gaps(ms, n, dayStart, duration))
    ensures forall k :: 0 <= k < |Gaps(ms, n, dayStart, duration)| ==>
                          Gaps(ms, n, dayStart, duration)[k].end <= Frontier(ms, n, dayStart)
  {
    if n > 0 {
      GapsAreOrdered(ms, n - 1, dayStart, duration);
    }
  }

  lemma SweptInOrder(ms: seq<Meeting>, dayStart: int, dayEnd: int, duration: int)
    requires forall i :: 0 <= i < |ms| ==> ms[i].start <= ms[i].end
    ensures InOrder(Slots(ms, dayStart, dayEnd, duration))
  {
    GapsAreOrdered(ms, |ms|, dayStart, duration);
  }

  lemma {:induction false} GapBefore(ms: seq<Meeting>, n: nat, i: nat, dayStart: int, duration: int) returns (k: nat)
    requires i < n <= |ms| && ms[i].start - Frontier(ms, i, dayStart) >= duration
    ensures k < |Gaps(ms, n, dayStart, duration)|
    ensures Gaps(ms, n, dayStart, duration)[k].start == Frontier(ms, i, dayStart)
    ensures Gaps(ms, n, dayStart, duration)[k].end == ms[i].start
    decreases n
  {
    if i < n - 1 {
      k := GapBefore(ms, n - 1, i, dayStart, duration);
    } else {
      k := |Gaps(ms, n, dayStart, duration)| - 1;
    }
  }

  /** Walks to the first meeting that starts after the interval. */
  lemma {:induction false} FreeIntervalIsFound(ms: seq<Meeting>, n: nat, dayStart: int, dayEnd: int, duration: int,
                                               x: int, y: int)
    returns (k: nat)
    requires n <= |ms| && dayStart <= x && y <= dayEnd && y - x >= duration
    requires Free(ms, x, y) && forall i :: 0 <= i < n ==> ms[i].end <= x
    ensures k < |Slots(ms, dayStart, dayEnd, duration)| && Within(x, y, Slots(ms, dayStart, dayEnd, duration)[k])
    decreases |ms| - n
  {
    var slots := Slots(ms, dayStart, dayEnd, duration);
    FrontierIsLeast(ms, n, dayStart, x);
    if n == |ms| {
      k := |slots| - 1;
    } else if ms[n].end <= x {
      k := FreeIntervalIsFound(ms, n + 1, dayStart, dayEnd, duration, x, y);
    } else {
      var gaps := Gaps(ms, |ms|, dayStart, duration);
      k := GapBefore(ms, |ms|, n, dayStart, duration);
      assert slots[k] == gaps[k];
    }
  }

  // ---- main results -----------------------------------------------------------------------------

  /** Between `x` and `y` the calendar has no event that takes place at a time of day. */
  ghost predicate Clear(events: seq<Event>, x: int, y: int) {
    forall i :: 0 <= i < |events| && events[i].start.Some? && events[i].end.Some? ==>
      events[i].end.value <= x || y <= events[i].start.value
  }

  lemma FreeIffClear(events: seq<Event>, x: int, y: int)
    ensures Free(Timed(events), x, y) <==> Clear(events, x, y)
  {
    var ms := Timed(events);
    TimedAreEvents(events);
    forall i | 0 <= i < |ms| ensures Event(Some(ms[i].start), Some(ms[i].end)) in events { assert ms[i] in ms; }
    forall i | 0 <= i < |events| && events[i].start.Some? && events[i].end.Some?
      ensures Meeting(events[i].start.value, events[i].end.value) in ms
    {
      var m := Meeting(events[i].start.value, events[i].end.value);
      assert Event(Some(m.start), Some(m.end)) == events[i];
    }
  }

  /**
   Availability is exact: an interval inside work hours that is long enough is clear of the calendar's
   events if and only if it lies within a slot.  Nothing is assumed of the events.
   */
  lemma FreeIffInASlot(events: seq<Event>, dayStart: int, dayEnd: int, duration: int, x: int, y: int)
    requires dayStart <= x && y <= dayEnd && y - x >= duration
    ensures var slots := Slots(Sort(Timed(events)), dayStart, dayEnd, duration);
            Clear(events, x, y) <==> exists k :: 0 <= k < |slots| && Within(x, y, slots[k])
  {
    var ms := Sort(Timed(events));
    var slots := Slots(ms, dayStart, dayEnd, duration);
    FreeIffClear(events, x, y);
    SortIsSorted(Timed(events));
    SameMeetingsSameFree(Timed(events), ms, x, y);
    hide Clear, Timed;
    if Free(ms, x, y) {
      var k := FreeIntervalIsFound(ms, 0, dayStart, dayEnd, duration, x, y);
      assert Within(x, y, slots[k]);
    } else {
      SlotsAreLongAndFree(ms, dayStart, dayEnd, duration);
      forall k | 0 <= k < |slots| ensures !Within(x, y, slots[k]) {
        assert LongAndFree(ms, slots[k], dayStart, duration);
      }
    }
  }

  /**
   Every slot, also one outside work hours, starts no earlier than work does, is long enough and is clear
   of the calendar's events; its minutes are rounded down.
   */
  lemma SlotsAreFree(events: seq<Event>, dayStart: int, dayEnd: int, duration: int, k: nat)
    requires k < |Slots(Sort(Timed(events)), dayStart, dayEnd, duration)|
    ensures var slot := Slots(Sort(Timed(events)), dayStart, dayEnd, duration)[k];
            && dayStart <= slot.start && slot.end - slot.start >= duration
            && slot.minutes * 60_000 <= slot.end - slot.start < (slot.minutes + 1) * 60_000
            && Clear(events, slot.start, slot.end)
  {
    var ms := Sort(Timed(events));
    var slot := Slots(ms, dayStart, dayEnd, duration)[k];
    SortIsSorted(Timed(events));
    SlotsAreLongAndFree(ms, dayStart, dayEnd, duration);
    assert LongAndFree(ms, slot, dayStart, duration);
    SameMeetingsSameFree(Timed(events), ms, slot.start, slot.end);
    FreeIffClear(events, slot.start, slot.end);
  }

  /** No event ends before it starts. */
  ghost predicate Forward(events: seq<Event>) {
    forall e :: e in events && e.start.Some? && e.end.Some? ==> e.start.value <= e.end.value
  }

  /** Then the slots come in order and are disjoint. */
  lemma SlotsAreOrdered(events: seq<Event>, dayStart: int, dayEnd: int, duration: int)
    requires Forward(events)
    ensures InOrder(Slots(Sort(Timed(events)), dayStart, dayEnd, duration))
  {
    var ms := Sort(Timed(events));
    SortIsSorted(Timed(events));
    TimedAreEvents(events);
    forall i | 0 <= i < |ms| ensures ms[i].start <= ms[i].end {
      assert ms[i] in multiset(ms);
      assert ms[i] in Timed(events);
    }
    SweptInOrder(ms, dayStart, dayEnd, duration);
  }

  lemma SameMeetingsSameFree(a: seq<Meeting>, b: seq<Meeting>, x: int, y: int)
    requires multiset(a) == multiset(b)
    ensures Free(a, x, y) <==> Free(b, x, y)
  {
    forall i | 0 <= i < |a| ensures a[i] in b { assert a[i] in multiset(a); }
    forall i | 0 <= i < |b| ensures b[i] in a { assert b[i] in multiset(b); }
  }

  /** Then, too, no interval lies within two slots. */
  lemma InOneSlotOnly(events: seq<Event>, dayStart: int, dayEnd: int, duration: int, x: int, y: int, j: nat, k: nat)
    requires Forward(events) && x < y
    requires var slots := Slots(Sort(Timed(events)), dayStart, dayEnd, duration);
             j < |slots| && k < |slots| && Within(x, y, slots[j]) && Within(x, y, slots[k])
    ensures j == k
  {
    SlotsAreOrdered(events, dayStart, dayEnd, duration);
  }

  /** A meeting that starts after work end and lets a slot run into it. */
  ghost predicate LateGap(ms: seq<Meeting>, i: nat, dayStart: int, dayEnd: int, duration: int)
    requires i < |ms|
  {
    dayEnd < ms[i].start && ms[i].start - Frontier(ms, i, dayStart) >= duration
  }

  /**
   Every slot ends by work end exactly when no meeting that starts later comes `duration` or more after
   the frontier.  In particular it does when every meeting starts by work end.
   */
  lemma InsideHoursIff(ms: seq<Meeting>, dayStart: int, dayEnd: int, duration: int)
    ensures (forall k :: 0 <= k < |Slots(ms, dayStart, dayEnd, duration)| ==>
                           Slots(ms, dayStart, dayEnd, duration)[k].end <= dayEnd)
       <==> (forall i: nat :: i < |ms| ==> !LateGap(ms, i, dayStart, dayEnd, duration))
  {
    var slots, gaps := Slots(ms, dayStart, dayEnd, duration), Gaps(ms, |ms|, dayStart, duration);
    if i: nat :| i < |ms| && LateGap(ms, i, dayStart, dayEnd, duration) {
      var k := GapBefore(ms, |ms|, i, dayStart, duration);
      assert slots[k].end > dayEnd;
    } else {
      GapsEndByWorkEnd(ms, |ms|, dayStart, dayEnd, duration);
    }
  }

  lemma {:induction false} GapsEndByWorkEnd(ms: seq<Meeting>, n: nat, dayStart: int, dayEnd: int, duration: int)
    requires n <= |ms| && forall i: nat :: i < |ms| ==> !LateGap(ms, i, dayStart, dayEnd, duration)
    ensures forall k :: 0 <= k < |Gaps(ms, n, dayStart, duration)| ==> Gaps(ms, n, dayStart, duration)[k].end <= dayEnd
  {
    if n > 0 {
      GapsEndByWorkEnd(ms, n - 1, dayStart, dayEnd, duration);
      assert !LateGap(ms, n - 1, dayStart, dayEnd, duration);
    }
  }

  /** A long enough gap that begins when work is over. */
  ghost predicate GapAfterWork(ms: seq<Meeting>, i: nat, dayStart: int, dayEnd: int, duration: int)
    requires i < |ms|
  {
    dayEnd <= Frontier(ms, i, dayStart) && ms[i].start - Frontier(ms, i, dayStart) >= duration
  }

  lemma {:induction false} GapsStartInHours(ms: seq<Meeting>, n: nat, dayStart: int, dayEnd: int, duration: int)
    requires n <= |ms| && forall i: nat :: i < |ms| ==> !GapAfterWork(ms, i, dayStart, dayEnd, duration)
    ensures forall k :: 0 <= k < |Gaps(ms, n, dayStart, duration)| ==> Gaps(ms, n, dayStart, duration)[k].start < dayEnd
  {
    if n > 0 {
      GapsStartInHours(ms, n - 1, dayStart, dayEnd, duration);
      assert !GapAfterWork(ms, n - 1, dayStart, dayEnd, duration);
    }
  }

  /**
   Every slot starts before work end exactly when no meeting comes `duration` or more after a frontier
   that work end has already passed.
   */
  lemma StartsInHoursIff(ms: seq<Meeting>, dayStart: int, dayEnd: int, duration: int)
    requires duration > 0
    ensures (forall k :: 0 <= k < |Slots(ms, dayStart, dayEnd, duration)| ==>
                           Slots(ms, dayStart, dayEnd, duration)[k].start < dayEnd)
       <==> (forall i: nat :: i < |ms| ==> !GapAfterWork(ms, i, dayStart, dayEnd, duration))
  {
    var slots, gaps := Slots(ms, dayStart, dayEnd, duration), Gaps(ms, |ms|, dayStart, duration);
    if i: nat :| i < |ms| && GapAfterWork(ms, i, dayStart, dayEnd, duration) {
      var k := GapBefore(ms, |ms|, i, dayStart, duration);
      assert slots[k] == gaps[k] && slots[k].start >= dayEnd;
    } else {
      GapsStartInHours(ms, |ms|, dayStart, dayEnd, duration);
    }
  }

  /** A dinner at 20:00 makes a working day from 9 to 17 offer one slot from 9 to 20. */
  lemma LateMeetingOffersTheEvening()
    ensures var hour := 60 * MINUTE_MS;
            Slots([Meeting(20 * hour, 21 * hour)], 9 * hour, 17 * hour, hour) == [Slot(9 * hour, 20 * hour, 660)]
  {
    var hour := 60 * MINUTE_MS;
    var ms := [Meeting(20 * hour, 21 * hour)];
    assert Frontier(ms, 0, 9 * hour) == 9 * hour && Frontier(ms, 1, 9 * hour) == 21 * hour;
    assert Gaps(ms, 0, 9 * hour, hour) == [];
    assert Gaps(ms, 1, 9 * hour, hour) == [Slot(9 * hour, 20 * hour, 660)];
  }

  /** Two meetings after work leave a slot between them that lies wholly outside work hours. */
  lemma EveningBetweenMeetingsIsOffered()
    ensures var hour := 60 * MINUTE_MS;
            Slots([Meeting(18 * hour, 19 * hour), Meeting(21 * hour, 22 * hour)], 9 * hour, 17 * hour, hour)
            == [Slot(9 * hour, 18 * hour, 540), Slot(19 * hour, 21 * hour, 120)]
  {
    var hour := 60 * MINUTE_MS;
    var ms := [Meeting(18 * hour, 19 * hour), Meeting(21 * hour, 22 * hour)];
    assert Frontier(ms, 0, 9 * hour) == 9 * hour && Frontier(ms, 1, 9 * hour) == 19 * hour;
    assert Frontier(ms, 2, 9 * hour) == 22 * hour;
    assert Gaps(ms, 0, 9 * hour, hour) == [];
    assert Gaps(ms, 1, 9 * hour, hour) == [Slot(9 * hour, 18 * hour, 540)];
    assert Gaps(ms, 2, 9 * hour, hour) == [Slot(9 * hour, 18 * hour, 540), Slot(19 * hour, 21 * hour, 120)];
  }
}
