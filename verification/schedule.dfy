/** The phase-1 event schedule: a list of events kept in start-time order,
    with sorted insertion, five order-preserving filters, indexed access and
    removal, and an iterator. Times of day are integers; only their order is
    ever consulted. */
module Scheduling {
  import opened Base

  /** The part of an event the schedule reads. `atCapacity` stands for the
      answer of the event's own capacity test, whose definition is not part
      of this model. */
  datatype Event = Event(
    start: int,
    end: int,
    speaker: Uuid,
    title: string,
    attendees: set<Uuid>,
    atCapacity: bool)

  /** The event's attendee test: membership in its attendee set. */
  predicate CheckAttendee(e: Event, attendee: Uuid)
  {
    attendee in e.attendees
  }

  /** The exceptions the schedule and its iterator throw. */
  datatype ScheduleError = IndexOutOfBounds | NoSuchElement

  /** The schedule's event list; any list may be wrapped, sorted or not. */
  type Schedule = seq<Event>

  /** A new schedule holds no events. */
  const EmptySchedule: Schedule := []

  /** Non-decreasing by start time. */
  predicate Sorted(s: Schedule)
  {
    forall i, j :: 0 <= i < j < |s| ==> s[i].start <= s[j].start
  }

  /** `r` is `s` with some elements dropped and the rest kept in order. */
  predicate Subsequence<T(==)>(r: seq<T>, s: seq<T>)
    decreases |s|
  {
    if |r| == 0 then true
    else if |s| == 0 then false
    else (r[0] == s[0] && Subsequence(r[1..], s[1..])) || Subsequence(r, s[1..])
  }

  lemma {:induction false} SubsequenceMembers<T>(r: seq<T>, s: seq<T>)
    requires Subsequence(r, s)
    ensures forall x :: x in r ==> x in s
    decreases |s|
  {
    if |r| > 0 {
      if r[0] == s[0] && Subsequence(r[1..], s[1..]) {
        SubsequenceMembers(r[1..], s[1..]);
        assert r == [r[0]] + r[1..];
        assert s == [s[0]] + s[1..];
      } else {
        SubsequenceMembers(r, s[1..]);
        assert s == [s[0]] + s[1..];
      }
    }
  }

  /** Dropping events from a sorted schedule leaves it sorted. */
  lemma {:induction false} SubsequenceKeepsSorted(r: Schedule, s: Schedule)
    requires Subsequence(r, s)
    ensures Sorted(s) ==> Sorted(r)
    decreases |s|
  {
    if |r| > 0 && Sorted(s) {
      if r[0] == s[0] && Subsequence(r[1..], s[1..]) {
        SubsequenceKeepsSorted(r[1..], s[1..]);
        SubsequenceMembers(r[1..], s[1..]);
        forall i, j | 0 <= i < j < |r|
          ensures r[i].start <= r[j].start
        {
          assert r[j] == r[1..][j - 1];
          if i == 0 {
            assert r[j] in s[1..];
            var k :| 0 <= k < |s[1..]| && s[1..][k] == r[j];
            assert s[k + 1] == r[j];
          } else {
            assert r[i] == r[1..][i - 1];
          }
        }
      } else {
        SubsequenceKeepsSorted(r, s[1..]);
      }
    }
  }

  /** The loop shared by every `retrieve…` query: a fresh list of the events
      that `keep` accepts, in schedule order, each kept as often as it occurs. */
  function Filter(s: Schedule, keep: Event -> bool): (r: Schedule)
    ensures Subsequence(r, s)
    ensures forall x :: x in r <==> x in s && keep(x)
    ensures forall x :: multiset(r)[x] == if keep(x) then multiset(s)[x] else 0
    decreases |s|
  {
    if |s| == 0 then []
    else
      var rest := Filter(s[1..], keep);
      assert s == [s[0]] + s[1..];
      if keep(s[0]) then [s[0]] + rest else rest
  }

  // ---------------------------------------------------------------------
  // Queries

  /** The interval test of `retrieveEventsByTimeInterval`: the event starts
      at or before `start` and ends within [start, end], or it starts within
      [start, end) and ends after `end`. */
  predicate InTimeInterval(e: Event, start: int, end: int)
  {
    || (e.start <= start && start <= e.end && e.end <= end)
    || (start <= e.start && e.start < end && e.end > end)
  }

  /** The events meeting the interval test, in schedule order. */
  function EventsInInterval(s: Schedule, start: int, end: int): (r: Schedule)
    ensures Subsequence(r, s)
    ensures forall x :: x in r <==> x in s && InTimeInterval(x, start, end)
    ensures forall x :: multiset(r)[x] == if InTimeInterval(x, start, end) then multiset(s)[x] else 0
    ensures Sorted(s) ==> Sorted(r)
  {
    var r := Filter(s, e => InTimeInterval(e, start, end));
    SubsequenceKeepsSorted(r, s);
    r
  }

  /** The events the given speaker hosts, in schedule order. */
  function EventsBySpeaker(s: Schedule, speaker: Uuid): (r: Schedule)
    ensures Subsequence(r, s)
    ensures forall x :: x in r <==> x in s && x.speaker == speaker
    ensures forall x :: multiset(r)[x] == if x.speaker == speaker then multiset(s)[x] else 0
    ensures Sorted(s) ==> Sorted(r)
  {
    var r := Filter(s, (e: Event) => e.speaker == speaker);
    SubsequenceKeepsSorted(r, s);
    r
  }

  /** The events whose title equals `title` exactly, in schedule order. */
  function EventsByTitle(s: Schedule, title: string): (r: Schedule)
    ensures Subsequence(r, s)
    ensures forall x :: x in r <==> x in s && x.title == title
    ensures forall x :: multiset(r)[x] == if x.title == title then multiset(s)[x] else 0
    ensures Sorted(s) ==> Sorted(r)
  {
    var r := Filter(s, (e: Event) => e.title == title);
    SubsequenceKeepsSorted(r, s);
    r
  }

  /** The events the attendee attends, in schedule order. */
  function EventsByAttendee(s: Schedule, attendee: Uuid): (r: Schedule)
    ensures Subsequence(r, s)
    ensures forall x :: x in r <==> x in s && attendee in x.attendees
    ensures forall x :: multiset(r)[x] == if attendee in x.attendees then multiset(s)[x] else 0
    ensures Sorted(s) ==> Sorted(r)
  {
    var r := Filter(s, e => CheckAttendee(e, attendee));
    SubsequenceKeepsSorted(r, s);
    r
  }

  /** Whether the attendee may sign up: not yet attending, and the event is
      not at capacity. */
  predicate SignupAble(e: Event, attendee: Uuid)
  {
    !CheckAttendee(e, attendee) && !e.atCapacity
  }

  /** The events the attendee could still sign up for, in schedule order. */
  function SignupAbleEvents(s: Schedule, attendee: Uuid): (r: Schedule)
    ensures Subsequence(r, s)
    ensures forall x :: x in r <==> x in s && attendee !in x.attendees && !x.atCapacity
    ensures forall x :: multiset(r)[x] == if SignupAble(x, attendee) then multiset(s)[x] else 0
    ensures Sorted(s) ==> Sorted(r)
  {
    var r := Filter(s, e => SignupAble(e, attendee));
    SubsequenceKeepsSorted(r, s);
    r
  }

  /** No event is both attended by and open for signup to the same person;
      every event is in one of the two lists unless it is full and the
      person is not attending. */
  lemma AttendedAndSignupAbleSplit(s: Schedule, attendee: Uuid)
    ensures forall x :: !(x in EventsByAttendee(s, attendee) && x in SignupAbleEvents(s, attendee))
    ensures forall x :: x in s ==>
      x in EventsByAttendee(s, attendee) || x in SignupAbleEvents(s, attendee) || x.atCapacity
  {
  }

  /** An event that starts before the window and ends after it is not
      returned, although it overlaps the whole window. */
  lemma SpanningEventExcluded(s: Schedule, start: int, end: int, e: Event)
    requires e.start < start && end < e.end
    ensures e !in EventsInInterval(s, start, end)
  {
  }

  /** Nor is an event that starts strictly after the window opens and ends
      no later than it closes: it lies wholly inside the window but meets
      neither half of the test. */
  lemma InnerEventExcluded(s: Schedule, start: int, end: int, e: Event)
    requires start < e.start && e.end <= end
    ensures e !in EventsInInterval(s, start, end)
  {
  }

  /** Worked cases over the window 10:00–10:30 (minutes since midnight). */
  lemma IntervalExamples(speaker: Uuid, title: string)
    ensures var early := Event(585, 615, speaker, title, {}, false);
            var late := Event(615, 660, speaker, title, {}, false);
            var wide := Event(540, 660, speaker, title, {}, false);
            var r := EventsInInterval([early, late, wide], 600, 630);
            early in r && late in r && wide !in r
  {
  }

  // ---------------------------------------------------------------------
  // Insertion

  /** Where `addEvent` puts an event starting at `t`: the first position
      whose event does not start before `t`, or the end of the list when
      every event starts before `t`. */
  function InsertionPoint(s: Schedule, t: int): (i: nat)
    ensures i <= |s|
    ensures forall k :: 0 <= k < i ==> s[k].start < t
    ensures i < |s| ==> t <= s[i].start
    decreases |s|
  {
    if |s| == 0 || t <= s[0].start then 0
    else
      var i := 1 + InsertionPoint(s[1..], t);
      assert forall k :: 1 <= k < |s| ==> s[k] == s[1..][k - 1];
      i
  }

  /** `addEvent`, with the end-of-list check made before each read: the event
      goes just before the first event that does not start before it, so it
      lands ahead of any events with the same start. */
  function AddEvent(s: Schedule, e: Event): (r: Schedule)
    ensures |r| == |s| + 1
    ensures multiset(r) == multiset(s) + multiset{e}
    ensures var i := InsertionPoint(s, e.start);
      && r[i] == e
      && (forall k :: 0 <= k < i ==> r[k] == s[k] && r[k].start < e.start)
      && (forall k :: i < k < |r| ==> r[k] == s[k - 1])
    ensures forall k ::
              0 <= k < |r| && k != InsertionPoint(s, e.start) && r[k].start == e.start ==>
              InsertionPoint(s, e.start) < k
  {
    var i := InsertionPoint(s, e.start);
    var r := s[..i] + [e] + s[i..];
    assert s == s[..i] + s[i..];
    assert multiset(r) == multiset(s[..i]) + multiset{e} + multiset(s[i..]);
    assert forall k :: 0 <= k < i ==> r[k] == s[k];
    assert forall k :: i < k < |r| ==> r[k] == s[k - 1];
    r
  }

  /** Inserting into a sorted schedule keeps it sorted. */
  lemma AddEventKeepsSorted(s: Schedule, e: Event)
    requires Sorted(s)
    ensures Sorted(AddEvent(s, e))
  {
  }

  /** An event starting after every scheduled one is appended. */
  lemma AddLatestEventAppends(s: Schedule, e: Event)
    requires forall k :: 0 <= k < |s| ==> s[k].start < e.start
    ensures AddEvent(s, e) == s + [e]
  {
  }

  /** The scan of `addEvent` as the source writes it: `events.get(i)` is
      evaluated before anything checks `i` against the size, so a scan that
      runs off the end throws. */
  function ScanAsWritten(s: Schedule, t: int, i: nat): (r: Result<nat, ScheduleError>)
    ensures r.Ok? ==> i <= r.value < |s| && t <= s[r.value].start
    decreases |s| - i
  {
    if i >= |s| then Err(IndexOutOfBounds)
    else if s[i].start < t then ScanAsWritten(s, t, i + 1)
    else Ok(i)
  }

  /** `addEvent` as written: it inserts where `AddEvent` does when some event
      does not start before the new one, and otherwise (in particular on an
      empty schedule) throws and leaves the list unchanged. */
  function AddEventAsWritten(s: Schedule, e: Event): (r: Result<Schedule, ScheduleError>)
    ensures r.Ok? <==> exists k :: 0 <= k < |s| && e.start <= s[k].start
    ensures r.Ok? ==> r.value == AddEvent(s, e)
    ensures r.Err? ==> r.error == IndexOutOfBounds
  {
    ScanAsWrittenFindsInsertionPoint(s, e.start, 0);
    match ScanAsWritten(s, e.start, 0)
    case Ok(i) => Ok(s[..i] + [e] + s[i..])
    case Err(x) => Err(x)
  }

  /** From any position not past the insertion point, the unchecked scan
      stops at the insertion point when it lies inside the list, and throws
      when it is the end of the list. */
  lemma {:induction false} ScanAsWrittenFindsInsertionPoint(s: Schedule, t: int, i: nat)
    requires i <= InsertionPoint(s, t)
    ensures ScanAsWritten(s, t, i)
      == if InsertionPoint(s, t) < |s| then Ok(InsertionPoint(s, t)) else Err(IndexOutOfBounds)
    decreases |s| - i
  {
    if i < |s| && i < InsertionPoint(s, t) {
      ScanAsWrittenFindsInsertionPoint(s, t, i + 1);
    }
  }

  /** The defect: adding to an empty schedule, or adding an event later than
      every scheduled one, throws instead of appending. */
  lemma AddEventAsWrittenFailsOnLatest(s: Schedule, e: Event)
    requires forall k :: 0 <= k < |s| ==> s[k].start < e.start
    ensures AddEventAsWritten(s, e) == Err(IndexOutOfBounds)
    ensures AddEvent(s, e) == s + [e]
  {
  }

  // ---------------------------------------------------------------------
  // Indexed access

  /** `retrieveEventByIndex`: the event at `index`, or the exception for an
      index outside [0, size). */
  function EventAt(s: Schedule, index: int): (r: Result<Event, ScheduleError>)
    ensures r.Ok? <==> 0 <= index < |s|
    ensures r.Ok? ==> r.value == s[index]
    ensures r.Err? ==> r.error == IndexOutOfBounds
  {
    if 0 <= index < |s| then Ok(s[index]) else Err(IndexOutOfBounds)
  }

  /** `removeEventByIndex`: the schedule without the event at `index`, the
      others kept in order, or the exception for an index outside [0, size). */
  function RemoveAt(s: Schedule, index: int): (r: Result<Schedule, ScheduleError>)
    ensures r.Ok? <==> 0 <= index < |s|
    ensures r.Err? ==> r.error == IndexOutOfBounds
    ensures r.Ok? ==> |r.value| == |s| - 1
    ensures r.Ok? ==> forall k :: 0 <= k < |r.value| ==> r.value[k] == if k < index then s[k] else s[k + 1]
    ensures r.Ok? ==> multiset(r.value) + multiset{s[index]} == multiset(s)
    ensures r.Ok? && Sorted(s) ==> Sorted(r.value)
  {
    if 0 <= index < |s| then
      assert s == s[..index] + [s[index]] + s[index + 1..];
      Ok(s[..index] + s[index + 1..])
    else Err(IndexOutOfBounds)
  }

  /** After an insertion the event sits at its insertion point. */
  lemma AddedEventAtInsertionPoint(s: Schedule, e: Event)
    ensures EventAt(AddEvent(s, e), InsertionPoint(s, e.start)) == Ok(e)
  {
  }

  /** Removing an added event at its insertion point restores the schedule. */
  lemma RemoveUndoesAdd(s: Schedule, e: Event)
    ensures RemoveAt(AddEvent(s, e), InsertionPoint(s, e.start)) == Ok(s)
  {
    var added := AddEvent(s, e);
    var i := InsertionPoint(s, e.start);
    var r := RemoveAt(added, i);
    assert r.Ok? && |r.value| == |s|;
    forall k | 0 <= k < |s|
      ensures r.value[k] == s[k]
    {
      if k < i {
        assert r.value[k] == added[k];
      } else {
        assert r.value[k] == added[k + 1];
      }
    }
    assert r.value == s;
  }

  // ---------------------------------------------------------------------
  // Iteration

  /** The iterator's state: the index of the next event to return. It reads
      the live list, so the list may shrink underneath it. */
  datatype Cursor = Cursor(current: nat)

  /** A fresh iterator starts at the front. */
  const FreshCursor: Cursor := Cursor(0)

  predicate HasNext(s: Schedule, c: Cursor)
  {
    c.current < |s|
  }

  /** `next`: the event at the cursor and the advanced cursor, or the
      no-such-element exception once the list is exhausted. */
  function Next(s: Schedule, c: Cursor): (r: Result<(Event, Cursor), ScheduleError>)
    ensures r.Ok? <==> HasNext(s, c)
    ensures r.Ok? ==> r.value.0 == s[c.current] && r.value.1.current == c.current + 1
    ensures r.Err? ==> r.error == NoSuchElement
  {
    if c.current < |s| then Ok((s[c.current], Cursor(c.current + 1)))
    else Err(NoSuchElement)
  }

  /** The events a caller receives by calling `next` while `hasNext` holds:
      the rest of the list from the cursor, in list order. */
  function Drain(s: Schedule, c: Cursor): (r: seq<Event>)
    ensures r == if c.current <= |s| then s[c.current..] else []
    decreases |s| - c.current
  {
    match Next(s, c)
    case Err(_) => []
    case Ok((e, c')) =>
      assert s[c.current..] == [e] + s[c'.current..];
      [e] + Drain(s, c')
  }

  /** A fresh iterator yields the whole schedule in order. */
  lemma IterationYieldsSchedule(s: Schedule)
    ensures Drain(s, FreshCursor) == s
  {
  }

  /** `hasNext` holds exactly when calling `next` until it fails would still
      yield something, and the first event so yielded is the one at the
      cursor. */
  lemma HasNextIffMoreToDrain(s: Schedule, c: Cursor)
    ensures HasNext(s, c) <==> Drain(s, c) != []
    ensures HasNext(s, c) ==> Drain(s, c)[0] == s[c.current]
  {
  }

  /** A new schedule: sorted, with nothing to retrieve, remove or iterate
      over. Adding to it gives the one-event list with the bound check, and
      throws as written. */
  lemma EmptyScheduleFacts(e: Event, index: int)
    ensures Sorted(EmptySchedule)
    ensures EventAt(EmptySchedule, index) == Err(IndexOutOfBounds)
    ensures RemoveAt(EmptySchedule, index) == Err(IndexOutOfBounds)
    ensures !HasNext(EmptySchedule, FreshCursor)
    ensures AddEvent(EmptySchedule, e) == [e]
    ensures AddEventAsWritten(EmptySchedule, e) == Err(IndexOutOfBounds)
  {
  }
}
