/** Merging live events into a replayed page, from apps/web/src/lib/api.ts. */
module LiveMerge {
  import opened Outcomes

  datatype LocalEvent = LocalEvent(sequence: nat, eventId: nat, body: string)
  datatype EventPage = EventPage(events: seq<LocalEvent>, nextCursor: nat)

  function Max(a: nat, b: nat): nat {
    if a < b then b else a
  }

  // ----- the sort of the page

  /** Insert after all events whose sequence is not greater. */
  function Insert(events: seq<LocalEvent>, e: LocalEvent): seq<LocalEvent> {
    if events == [] || events[|events| - 1].sequence <= e.sequence then events + [e]
    else Insert(events[..|events| - 1], e) + [events[|events| - 1]]
  }

  /** The stable sort by sequence. */
  function SortBySequence(events: seq<LocalEvent>): seq<LocalEvent> {
    if events == [] then [] else Insert(SortBySequence(events[..|events| - 1]), events[|events| - 1])
  }

  predicate HasId(events: seq<LocalEvent>, eventId: nat) {
    exists i :: 0 <= i < |events| && events[i].eventId == eventId
  }

  function AppendLiveEvent(page: Option<EventPage>, e: LocalEvent): EventPage {
    match page
    case None => EventPage([e], e.sequence)
    case Some(p) =>
      if HasId(p.events, e.eventId) then p
      else EventPage(SortBySequence(p.events + [e]), Max(p.nextCursor, e.sequence))
  }

  /** Merge live events in the order in which they arrive. */
  function Merge(page: Option<EventPage>, arrivals: seq<LocalEvent>): Option<EventPage> {
    if arrivals == [] then page
    else Some(AppendLiveEvent(Merge(page, arrivals[..|arrivals| - 1]), arrivals[|arrivals| - 1]))
  }

  // ----- pages

  ghost predicate Ascending(events: seq<LocalEvent>) {
    forall i, j :: 0 <= i < j < |events| ==> events[i].sequence < events[j].sequence
  }

  /** Strictly ascending, and the cursor is the last sequence, 0 when empty. */
  ghost predicate IsPage(p: EventPage) {
    Ascending(p.events) && p.nextCursor == if p.events == [] then 0 else p.events[|p.events| - 1].sequence
  }

  function EventsOf(page: Option<EventPage>): seq<LocalEvent> {
    if page.None? then [] else page.value.events
  }

  ghost predicate SameEvents(a: seq<LocalEvent>, b: seq<LocalEvent>) {
    forall e :: e in a <==> e in b
  }

  /** Events of one log: identifier and sequence each determine the event. */
  ghost predicate IsLog(log: set<LocalEvent>) {
    forall a, b :: a in log && b in log && (a.eventId == b.eventId || a.sequence == b.sequence) ==> a == b
  }

  ghost predicate FromLog(events: seq<LocalEvent>, log: set<LocalEvent>) {
    forall e :: e in events ==> e in log
  }

  /** A page of the log, or none yet. */
  ghost predicate IsPageOf(page: Option<EventPage>, log: set<LocalEvent>) {
    (page.Some? ==> IsPage(page.value)) && FromLog(EventsOf(page), log)
  }

  lemma LastIsLast(a: seq<LocalEvent>, b: seq<LocalEvent>)
    requires Ascending(a) && Ascending(b) && SameEvents(a, b) && a != []
    ensures b != [] && a[|a| - 1] == b[|b| - 1]
  {
    var x := a[|a| - 1];
    assert x in a;
    assert x in b;
    var y := b[|b| - 1];
    assert y in b;
    assert y in a;
    var i :| 0 <= i < |a| && a[i] == y;
    var j :| 0 <= j < |b| && b[j] == x;
  }

  lemma ButLast(a: seq<LocalEvent>)
    requires Ascending(a) && a != []
    ensures forall e :: e in a[..|a| - 1] <==> e in a && e != a[|a| - 1]
  {
    assert a == a[..|a| - 1] + [a[|a| - 1]];
  }

  lemma {:induction false} SortedIsUnique(a: seq<LocalEvent>, b: seq<LocalEvent>)
    requires Ascending(a) && Ascending(b) && SameEvents(a, b)
    ensures a == b
  {
    if a == [] {
      NoEvents(b);
    } else {
      LastIsLast(a, b);
      ButLast(a);
      ButLast(b);
      var x, y := a[..|a| - 1], b[..|b| - 1];
      forall e ensures e in x <==> e in y {
        assert e in a <==> e in b;
      }
      SortedIsUnique(x, y);
      assert a == a[..|a| - 1] + [a[|a| - 1]] && b == b[..|b| - 1] + [b[|b| - 1]];
    }
  }

  lemma NoEvents(b: seq<LocalEvent>)
    requires forall e :: e !in b
    ensures b == []
  {
    if b != [] {
      FirstIsIn(b);
    }
  }

  lemma FirstIsIn(b: seq<LocalEvent>)
    requires b != []
    ensures b[0] in b
  {
  }

  lemma {:induction false} SortedStays(events: seq<LocalEvent>)
    requires Ascending(events)
    ensures SortBySequence(events) == events
  {
    if events != [] {
      SortedStays(events[..|events| - 1]);
    }
  }

  lemma {:induction false} InsertHolds(events: seq<LocalEvent>, e: LocalEvent)
    ensures forall x :: x in Insert(events, e) <==> x in events || x == e
    ensures Insert(events, e) != []
    ensures Insert(events, e)[|Insert(events, e)| - 1].sequence
      == Max(if events == [] then 0 else events[|events| - 1].sequence, e.sequence)
  {
    if events != [] && events[|events| - 1].sequence > e.sequence {
      InsertHolds(events[..|events| - 1], e);
      assert events == events[..|events| - 1] + [events[|events| - 1]];
    }
  }

  /** A new sequence goes to its place. */
  lemma {:induction false} InsertKeeps(events: seq<LocalEvent>, e: LocalEvent)
    requires Ascending(events) && forall i :: 0 <= i < |events| ==> events[i].sequence != e.sequence
    ensures Ascending(Insert(events, e))
  {
    if events != [] && events[|events| - 1].sequence > e.sequence {
      var n := |events| - 1;
      InsertKeeps(events[..n], e);
      InsertHolds(events[..n], e);
      var front := Insert(events[..n], e);
      forall i | 0 <= i < |front| ensures front[i].sequence < events[n].sequence {
        assert front[i] in front;
      }
    }
  }

  /** An event with a known identifier is the one that is there. */
  lemma KnownEvent(events: seq<LocalEvent>, e: LocalEvent, log: set<LocalEvent>)
    requires IsLog(log) && FromLog(events, log) && e in log && HasId(events, e.eventId)
    ensures e in events
  {
    var i :| 0 <= i < |events| && events[i].eventId == e.eventId;
    assert events[i] in events;
  }

  /** An event with a new identifier has a new sequence and is inserted at its place. */
  lemma NewEvent(events: seq<LocalEvent>, e: LocalEvent, log: set<LocalEvent>)
    requires IsLog(log) && FromLog(events, log) && e in log && !HasId(events, e.eventId) && Ascending(events)
    ensures SortBySequence(events + [e]) == Insert(events, e) && Ascending(Insert(events, e))
  {
    forall i | 0 <= i < |events| ensures events[i].sequence != e.sequence {
      assert events[i] in events;
    }
    assert (events + [e])[..|events|] == events;
    SortedStays(events);
    InsertKeeps(events, e);
  }

  /** One arrival adds its event, if it is new, and keeps the page in order. */
  lemma AppendKeeps(page: Option<EventPage>, e: LocalEvent, log: set<LocalEvent>)
    requires IsLog(log) && IsPageOf(page, log) && e in log
    ensures IsPage(AppendLiveEvent(page, e))
    ensures forall x :: x in AppendLiveEvent(page, e).events <==> x in EventsOf(page) || x == e
  {
    hide IsLog, HasId, Insert, SortBySequence;
    if page.Some? {
      var events := page.value.events;
      if HasId(events, e.eventId) {
        KnownEvent(events, e, log);
      } else {
        NewEvent(events, e, log);
        InsertHolds(events, e);
      }
    }
  }

  lemma {:induction false} MergeKeeps(page: Option<EventPage>, arrivals: seq<LocalEvent>, log: set<LocalEvent>)
    requires IsLog(log) && IsPageOf(page, log) && FromLog(arrivals, log)
    ensures Merge(page, arrivals).Some? <==> page.Some? || arrivals != []
    ensures IsPageOf(Merge(page, arrivals), log)
    ensures forall e :: e in EventsOf(Merge(page, arrivals)) <==> e in EventsOf(page) || e in arrivals
  {
    if arrivals != [] {
      var n := |arrivals| - 1;
      assert arrivals == arrivals[..n] + [arrivals[n]];
      MergeKeeps(page, arrivals[..n], log);
      AppendKeeps(Merge(page, arrivals[..n]), arrivals[n], log);
    }
  }

  /** The merged page depends only on which events arrived, not on their order or on repetitions;
    it is strictly ascending and its cursor is its last sequence. */
  lemma MergeIgnoresOrder(page: Option<EventPage>, a: seq<LocalEvent>, b: seq<LocalEvent>, log: set<LocalEvent>)
    requires IsLog(log) && IsPageOf(page, log) && FromLog(a, log) && SameEvents(a, b)
    ensures Merge(page, a) == Merge(page, b)
    ensures Merge(page, a).Some? ==> IsPage(Merge(page, a).value)
  {
    MergeKeeps(page, a, log);
    MergeKeeps(page, b, log);
    BothEmpty(a, b);
    BothEmpty(b, a);
    var p, q := Merge(page, a), Merge(page, b);
    forall e ensures e in EventsOf(p) <==> e in EventsOf(q) {
      assert e in a <==> e in b;
    }
    PageIsUnique(p, q);
  }

  lemma PageIsUnique(p: Option<EventPage>, q: Option<EventPage>)
    requires p.Some? <==> q.Some?
    requires p.Some? ==> IsPage(p.value) && IsPage(q.value)
    requires SameEvents(EventsOf(p), EventsOf(q))
    ensures p == q
  {
    SortedIsUnique(EventsOf(p), EventsOf(q));
  }

  lemma BothEmpty(a: seq<LocalEvent>, b: seq<LocalEvent>)
    requires SameEvents(a, b)
    ensures a == [] ==> b == []
  {
    if a == [] {
      NoEvents(b);
    }
  }
}
