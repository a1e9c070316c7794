/** The host's event log and its replay to clients, from crates/leave-core/src/event_store.rs,
  migrations/host.sql and apps/leave/src/acp.rs.
 */
module EventLog {
  import opened Bytes
  import opened Outcomes

  datatype EventRecord = EventRecord(sequence: nat, eventId: nat, workspaceId: nat, sessionId: Option<string>,
                                     kind: string, payload: seq<Byte>)

  /** All events of a workspace, or those of one of its sessions. */
  datatype Query = Query(workspaceId: nat, sessionId: Option<string>)

  predicate Selects(q: Query, e: EventRecord) {
    e.workspaceId == q.workspaceId && (q.sessionId.None? || e.sessionId == q.sessionId)
  }

  const MAX_PAGE: nat := 1000

  function Min(a: nat, b: nat): nat {
    if a < b then a else b
  }

  // ----- the log

  ghost predicate Ascending(events: seq<EventRecord>) {
    forall i, j :: 0 <= i < j < |events| ==> events[i].sequence < events[j].sequence
  }

  ghost predicate Within(events: seq<EventRecord>, low: nat, high: nat) {
    forall i :: 0 <= i < |events| ==> low < events[i].sequence <= high
  }

  ghost predicate DistinctIds(events: seq<EventRecord>) {
    forall i, j :: 0 <= i < j < |events| ==> events[i].eventId != events[j].eventId
  }

  ghost predicate ValidLog(events: seq<EventRecord>, last: nat) {
    Ascending(events) && Within(events, 0, last) && DistinctIds(events)
  }

  /** The matching events after a cursor, in log order. */
  function Selected(events: seq<EventRecord>, q: Query, after: nat): seq<EventRecord> {
    if events == [] then []
    else
      var e := events[|events| - 1];
      Selected(events[..|events| - 1], q, after) + if Selects(q, e) && e.sequence > after then [e] else []
  }

  /** What one request returns. */
  function Page(events: seq<EventRecord>, q: Query, after: nat, limit: nat): seq<EventRecord> {
    var all := Selected(events, q, after);
    all[..Min(|all|, Min(limit, MAX_PAGE))]
  }

  /** The events of other workspaces. */
  function Without(events: seq<EventRecord>, workspaceId: nat): seq<EventRecord> {
    if events == [] then []
    else
      var e := events[|events| - 1];
      Without(events[..|events| - 1], workspaceId) + if e.workspaceId == workspaceId then [] else [e]
  }

  /** The selected events are the matching ones, in ascending order. */
  lemma {:induction false} SelectedIs(events: seq<EventRecord>, q: Query, after: nat)
    requires Ascending(events)
    ensures Ascending(Selected(events, q, after))
    ensures forall e :: e in Selected(events, q, after) <==> e in events && Selects(q, e) && e.sequence > after
  {
    if events != [] {
      var n := |events| - 1;
      var front := Selected(events[..n], q, after);
      SelectedIs(events[..n], q, after);
      assert events == events[..n] + [events[n]];
      forall i | 0 <= i < |front| ensures front[i].sequence < events[n].sequence {
        assert front[i] in front;
      }
    }
  }

  lemma {:induction false} OthersStay(events: seq<EventRecord>, workspaceId: nat)
    ensures forall e :: e in Without(events, workspaceId) <==> e in events && e.workspaceId != workspaceId
  {
    if events != [] {
      var n := |events| - 1;
      OthersStay(events[..n], workspaceId);
      assert events == events[..n] + [events[n]];
    }
  }

  lemma ValidFront(events: seq<EventRecord>, last: nat)
    requires ValidLog(events, last) && events != []
    ensures var n := |events| - 1;
      && ValidLog(events[..n], last) && 0 < events[n].sequence <= last
      && forall e :: e in events[..n] ==> e.sequence < events[n].sequence && e.eventId != events[n].eventId
  {
  }

  lemma ValidWith(front: seq<EventRecord>, last: nat, e: EventRecord)
    requires ValidLog(front, last) && 0 < e.sequence <= last
    requires forall x :: x in front ==> x.sequence < e.sequence && x.eventId != e.eventId
    ensures ValidLog(front + [e], last)
  {
  }

  lemma {:induction false} RemovalKeepsValid(events: seq<EventRecord>, last: nat, workspaceId: nat)
    requires ValidLog(events, last)
    ensures ValidLog(Without(events, workspaceId), last)
    ensures forall e :: e in Without(events, workspaceId) <==> e in events && e.workspaceId != workspaceId
  {
    OthersStay(events, workspaceId);
    if events != [] {
      hide ValidLog;
      var n := |events| - 1;
      ValidFront(events, last);
      RemovalKeepsValid(events[..n], last, workspaceId);
      if events[n].workspaceId != workspaceId {
        ValidWith(Without(events[..n], workspaceId), last, events[n]);
      }
    }
  }

  /** A logged event after the cursor, of the workspace and, if the query names one, of the session. */
  ghost predicate Follows(events: seq<EventRecord>, q: Query, after: nat, e: EventRecord) {
    && e in events && e.sequence > after && e.workspaceId == q.workspaceId
    && match q.sessionId
       case None => true
       case Some(session) => e.sessionId == Some(session)
  }

  /** Every event belongs to a registered workspace. */
  ghost predicate Referenced(events: seq<EventRecord>, workspaces: set<nat>) {
    forall e :: e in events ==> e.workspaceId in workspaces
  }

  class EventStore {
    var workspaces: map<nat, string>
    var events: seq<EventRecord>
    var lastSequence: nat

    ghost predicate Valid()
      reads this
    {
      && ValidLog(events, lastSequence) && Referenced(events, workspaces.Keys)
      && forall v, w :: v in workspaces && w in workspaces && workspaces[v] == workspaces[w] ==> v == w
    }

    constructor ()
      ensures Valid() && workspaces == map[] && events == [] && lastSequence == 0
    {
      workspaces, events, lastSequence := map[], [], 0;
    }

    /** Register a workspace or give it another path; a path belongs to one workspace. */
    method UpsertWorkspace(id: nat, path: string) returns (ok: bool)
      requires Valid()
      modifies this
      ensures Valid() && events == old(events) && lastSequence == old(lastSequence)
      ensures ok <==> forall w :: w in old(workspaces) && old(workspaces)[w] == path ==> w == id
      ensures workspaces == if ok then old(workspaces)[id := path] else old(workspaces)
    {
      ok := forall w :: w in workspaces && workspaces[w] == path ==> w == id;
      if ok {
        workspaces := workspaces[id := path];
      }
    }

    /** Sequences are never reused, not even after a workspace and its events are removed. */
    method AppendEvent(eventId: nat, workspaceId: nat, sessionId: Option<string>, kind: string, payload: seq<Byte>)
      returns (result: Result<EventRecord, ()>)
      requires Valid()
      modifies this
      ensures Valid() && workspaces == old(workspaces)
      ensures result.Ok? <==> workspaceId in workspaces && forall e :: e in old(events) ==> e.eventId != eventId
      ensures result.Ok? ==> events == old(events) + [result.value] && lastSequence == old(lastSequence) + 1
      ensures result.Ok? ==> result.value == EventRecord(lastSequence, eventId, workspaceId, sessionId, kind, payload)
      ensures result.Err? ==> events == old(events) && lastSequence == old(lastSequence)
    {
      if workspaceId !in workspaces || exists i :: 0 <= i < |events| && events[i].eventId == eventId {
        return Err(());
      }
      ghost var before, last := events, lastSequence;
      lastSequence := lastSequence + 1;
      var record := EventRecord(lastSequence, eventId, workspaceId, sessionId, kind, payload);
      events := events + [record];
      LogGrows(before, last, record);
      return Ok(record);
    }

    method RemoveWorkspace(workspaceId: nat) returns (removed: bool)
      requires Valid()
      modifies this
      ensures Valid() && lastSequence == old(lastSequence)
      ensures removed <==> workspaceId in old(workspaces)
      ensures workspaces == old(workspaces) - {workspaceId}
      ensures events == Without(old(events), workspaceId)
      ensures forall e :: e in events <==> e in old(events) && e.workspaceId != workspaceId
    {
      RemovalKeepsValid(events, lastSequence, workspaceId);
      removed := workspaceId in workspaces;
      workspaces := workspaces - {workspaceId};
      events := Without(events, workspaceId);
    }

    /** Ascending, at most `limit` and at most a thousand, and nothing between the cursor and the
      last event of the page is left out. */
    method EventsAfter(q: Query, after: nat, limit: nat) returns (page: seq<EventRecord>)
      requires Valid()
      ensures page == Page(events, q, after, limit)
      ensures |page| <= limit && |page| <= 1000 && Ascending(page)
      ensures forall e :: e in page ==> Follows(events, q, after, e)
      ensures forall e :: page != [] && Follows(events, q, after, e) && e.sequence <= page[|page| - 1].sequence ==>
        e in page
    {
      page := Page(events, q, after, limit);
      SelectedIs(events, q, after);
      PagePrefix(events, q, after, limit);
    }
  }

  lemma PagePrefix(events: seq<EventRecord>, q: Query, after: nat, limit: nat)
    requires Ascending(events)
    ensures var page := Page(events, q, after, limit);
      && (forall e :: e in page ==> Follows(events, q, after, e))
      && forall e :: page != [] && Follows(events, q, after, e) && e.sequence <= page[|page| - 1].sequence ==> e in page
  {
    var all, page := Selected(events, q, after), Page(events, q, after, limit);
    SelectedIs(events, q, after);
    forall e | e in page ensures e in all {
      var i :| 0 <= i < |page| && page[i] == e;
      assert all[i] == e;
    }
    forall e | page != [] && e in all && e.sequence <= page[|page| - 1].sequence ensures e in page {
      var i :| 0 <= i < |all| && all[i] == e;
      assert all[|page| - 1].sequence < all[i].sequence || i < |page|;
      assert page[i] == e;
    }
  }

  // ----- a client that replays

  /** The registered workspaces, the log, what a client holds, and what has been sent to live subscribers. */
  datatype State = State(workspaces: set<nat>, events: seq<EventRecord>, last: nat, held: seq<EventRecord>, cursor: nat,
                         unsent: set<EventRecord>, sent: seq<EventRecord>)

  datatype Step =
    | Register(workspaceId: nat)
    | Append(event: EventRecord)
    | Remove(workspaceId: nat)
    | Poll(limit: nat)
    | Send(event: EventRecord)

  /** Publishing is two steps, so sends may be in any order; a client keeps its cursor on an empty page. */
  ghost predicate Next(q: Query, s: State, step: Step, t: State) {
    match step
    case Register(w) =>
      t == s.(workspaces := s.workspaces + {w})
    case Append(e) =>
      && e.sequence == s.last + 1 && e.workspaceId in s.workspaces
      && (forall other :: other in s.events ==> other.eventId != e.eventId)
      && t == s.(events := s.events + [e], last := s.last + 1, unsent := s.unsent + {e})
    case Remove(w) =>
      t == s.(workspaces := s.workspaces - {w}, events := Without(s.events, w))
    case Poll(limit) =>
      var page := Page(s.events, q, s.cursor, limit);
      t == if page == [] then s else s.(held := s.held + page, cursor := page[|page| - 1].sequence)
    case Send(e) =>
      e in s.unsent && t == s.(unsent := s.unsent - {e}, sent := s.sent + [e])
  }

  /** The client holds matching events in ascending order, and no matching event of the log up to
    its cursor is missing. */
  ghost predicate InStep(q: Query, s: State) {
    && Ascending(s.held) && s.cursor <= s.last
    && s.cursor == (if s.held == [] then 0 else s.held[|s.held| - 1].sequence)
    && (forall e :: e in s.held ==> Selects(q, e) && 0 < e.sequence <= s.cursor)
    && (forall e :: e in s.events && Selects(q, e) && e.sequence <= s.cursor ==> e in s.held)
  }

  /** No event is sent twice. */
  ghost predicate SentOnce(s: State) {
    && (forall e :: e in s.unsent || e in s.sent ==> e.sequence <= s.last)
    && (forall e :: e in s.sent ==> e !in s.unsent)
    && (forall i, j :: 0 <= i < j < |s.sent| ==> s.sent[i] != s.sent[j])
  }

  /** What is held, sent or about to be sent for the workspace is in the log. */
  ghost predicate FromLog(q: Query, s: State) {
    && (forall e :: e in s.held ==> e in s.events)
    && (forall e :: e in s.unsent && e.workspaceId == q.workspaceId ==> e in s.events)
    && (forall e :: e in s.sent && e.workspaceId == q.workspaceId ==> e in s.events)
  }

  ghost predicate Good(q: Query, s: State) {
    ValidLog(s.events, s.last) && Referenced(s.events, s.workspaces) && InStep(q, s) && SentOnce(s)
  }

  lemma {:induction false} AscendingAppend(a: seq<EventRecord>, b: seq<EventRecord>, cursor: nat)
    requires Ascending(a) && Ascending(b)
    requires (forall e :: e in a ==> e.sequence <= cursor) && forall e :: e in b ==> e.sequence > cursor
    ensures Ascending(a + b)
  {
    forall i, j | 0 <= i < |a| && 0 <= j < |b| ensures a[i].sequence < b[j].sequence {
      assert a[i] in a && b[j] in b;
    }
  }

  lemma LastIsGreatest(page: seq<EventRecord>)
    requires Ascending(page) && page != []
    ensures page[|page| - 1] in page && forall e :: e in page ==> e.sequence <= page[|page| - 1].sequence
  {
    forall e | e in page ensures e.sequence <= page[|page| - 1].sequence {
      var k :| 0 <= k < |page| && page[k] == e;
      assert k == |page| - 1 || page[k].sequence < page[|page| - 1].sequence;
    }
  }

  lemma FromWithin(events: seq<EventRecord>, last: nat, e: EventRecord)
    requires Within(events, 0, last) && e in events
    ensures 0 < e.sequence <= last
  {
  }

  lemma PageKeepsStep(q: Query, s: State, page: seq<EventRecord>)
    requires ValidLog(s.events, s.last) && InStep(q, s) && page != [] && Ascending(page)
    requires forall e :: e in page ==> Follows(s.events, q, s.cursor, e)
    requires forall e :: Follows(s.events, q, s.cursor, e) && e.sequence <= page[|page| - 1].sequence ==> e in page
    ensures InStep(q, s.(held := s.held + page, cursor := page[|page| - 1].sequence))
  {
    var cursor, held := page[|page| - 1].sequence, s.held + page;
    LastIsGreatest(page);
    AscendingAppend(s.held, page, s.cursor);
    FromWithin(s.events, s.last, page[|page| - 1]);
    assert held[|held| - 1] == page[|page| - 1];
    forall e | e in held ensures Selects(q, e) && 0 < e.sequence <= cursor {
      assert e in s.held || e in page;
    }
    forall e | e in s.events && Selects(q, e) && e.sequence <= cursor ensures e in held {
      assert e.sequence <= s.cursor || Follows(s.events, q, s.cursor, e);
    }
  }

  lemma PollKeeps(q: Query, s: State, limit: nat, page: seq<EventRecord>)
    requires ValidLog(s.events, s.last) && InStep(q, s) && page == Page(s.events, q, s.cursor, limit) && page != []
    ensures InStep(q, s.(held := s.held + page, cursor := page[|page| - 1].sequence))
  {
    SelectedIs(s.events, q, s.cursor);
    PagePrefix(s.events, q, s.cursor, limit);
    PageKeepsStep(q, s, page);
  }

  lemma AppendKeeps(q: Query, s: State, e: EventRecord, t: State)
    requires Good(q, s) && Next(q, s, Append(e), t)
    ensures Good(q, t)
  {
    assert forall x :: x in t.events <==> x in s.events || x == e;
    LogGrows(s.events, s.last, e);
    hide ValidLog, Selects;
  }

  lemma LogGrows(events: seq<EventRecord>, last: nat, e: EventRecord)
    requires ValidLog(events, last) && e.sequence == last + 1
    requires forall other :: other in events ==> other.eventId != e.eventId
    ensures ValidLog(events + [e], last + 1)
  {
  }

  lemma SendKeeps(q: Query, s: State, e: EventRecord, t: State)
    requires Good(q, s) && Next(q, s, Send(e), t)
    ensures Good(q, t)
  {
    assert forall x :: x in t.sent <==> x in s.sent || x == e;
    forall i | 0 <= i < |s.sent| ensures s.sent[i] != e {
      assert s.sent[i] in s.sent;
    }
  }

  lemma RemoveKeeps(q: Query, s: State, w: nat, t: State)
    requires Good(q, s) && Next(q, s, Remove(w), t)
    ensures Good(q, t)
  {
    RemovalKeepsValid(s.events, s.last, w);
  }

  lemma StepKeeps(q: Query, s: State, step: Step, t: State)
    requires Good(q, s) && Next(q, s, step, t)
    ensures Good(q, t)
  {
    match step
    case Register(w) =>
    case Append(e) => AppendKeeps(q, s, e, t);
    case Remove(w) => RemoveKeeps(q, s, w, t);
    case Poll(limit) =>
      var page := Page(s.events, q, s.cursor, limit);
      if page != [] {
        PollKeeps(q, s, limit, page);
      }
    case Send(e) => SendKeeps(q, s, e, t);
  }

  lemma StepKeepsLog(q: Query, s: State, step: Step, t: State)
    requires Good(q, s) && FromLog(q, s) && Next(q, s, step, t) && step != Remove(q.workspaceId)
    ensures FromLog(q, t)
  {
    match step
    case Register(w) =>
    case Append(e) =>
    case Remove(w) => RemovalKeepsValid(s.events, s.last, w);
    case Poll(limit) => PagePrefix(s.events, q, s.cursor, limit);
    case Send(e) =>
  }

  ghost predicate IsRun(q: Query, states: seq<State>, steps: seq<Step>) {
    && |states| == |steps| + 1
    && forall i :: 0 <= i < |steps| ==> Next(q, states[i], steps[i], states[i + 1])
  }

  ghost predicate Initial(s: State) {
    && ValidLog(s.events, s.last) && Referenced(s.events, s.workspaces)
    && s.held == [] && s.cursor == 0 && s.unsent == {} && s.sent == []
  }

  lemma {:induction false} RunKeeps(q: Query, states: seq<State>, steps: seq<Step>, k: nat)
    requires IsRun(q, states, steps) && Initial(states[0]) && k <= |steps|
    ensures Good(q, states[k])
    ensures (forall i :: 0 <= i < k ==> steps[i] != Remove(q.workspaceId)) ==> FromLog(q, states[k])
  {
    if k > 0 {
      RunKeeps(q, states, steps, k - 1);
      StepKeeps(q, states[k - 1], steps[k - 1], states[k]);
      if forall i :: 0 <= i < k ==> steps[i] != Remove(q.workspaceId) {
        StepKeepsLog(q, states[k - 1], steps[k - 1], states[k]);
      }
    }
  }

  /** At every moment of every run the client holds all matching events of the log up to its cursor,
    in order and none twice, and nothing is broadcast twice. As long as the followed workspace has
    not been removed it holds nothing else, and whatever was broadcast is in the log. */
  lemma ReplayIsExact(q: Query, states: seq<State>, steps: seq<Step>, k: nat)
    requires IsRun(q, states, steps) && Initial(states[0]) && k <= |steps|
    ensures var s := states[k];
      && Ascending(s.held)
      && (forall e :: e in s.events && Selects(q, e) && e.sequence <= s.cursor ==> e in s.held)
      && (forall i, j :: 0 <= i < j < |s.sent| ==> s.sent[i] != s.sent[j])
    ensures (forall i :: 0 <= i < k ==> steps[i] != Remove(q.workspaceId)) ==>
      var s := states[k];
      && (forall e :: e in s.held <==> e in s.events && Selects(q, e) && e.sequence <= s.cursor)
      && (forall e :: e in s.sent && e.workspaceId == q.workspaceId ==> e in s.events)
  {
    RunKeeps(q, states, steps, k);
  }

  /** A page brings as many matching events as the limit allows; a client that gets none although it
    asked for some has all of them. */
  lemma PollAdvances(q: Query, s: State, limit: nat, t: State)
    requires Good(q, s) && Next(q, s, Poll(limit), t)
    ensures |t.held| == |s.held| + Min(|Selected(s.events, q, s.cursor)|, Min(limit, 1000))
    ensures limit > 0 && t == s ==> forall e :: e in s.events && Selects(q, e) ==> e in s.held
  {
    SelectedIs(s.events, q, s.cursor);
    if limit > 0 && t == s {
      forall e | e in s.events && Selects(q, e) ensures e in s.held {
        assert e !in Selected(s.events, q, s.cursor);
      }
    }
  }

  lemma FirstSelected(events: seq<EventRecord>, q: Query, e: EventRecord)
    requires Ascending(events) && e in events && Selects(q, e) && e.sequence > 0
    ensures var all := Selected(events, q, 0); all != [] && all[0] in all && all[0].sequence <= e.sequence
  {
    var all := Selected(events, q, 0);
    SelectedIs(events, q, 0);
    assert e in all;
    var i :| 0 <= i < |all| && all[i] == e;
    assert i == 0 || all[0].sequence < all[i].sequence;
  }

  /** Some matching event up to the cursor is still in the log. */
  ghost predicate StillLogged(q: Query, s: State) {
    exists e :: e in s.events && Selects(q, e) && e.sequence <= s.cursor
  }

  /** The page after cursor 0 starts with an event the client holds exactly when some matching event
    up to its cursor is still in the log. */
  lemma FirstPageRepeats(q: Query, s: State, again: seq<EventRecord>, limit: nat)
    requires Good(q, s) && limit > 0 && again == Page(s.events, q, 0, limit)
    ensures (again != [] && again[0] in s.held) <==> StillLogged(q, s)
  {
    SelectedIs(s.events, q, 0);
    if StillLogged(q, s) {
      var e :| e in s.events && Selects(q, e) && e.sequence <= s.cursor;
      FromWithin(s.events, s.last, e);
      FirstSelected(s.events, q, e);
      assert again[0] == Selected(s.events, q, 0)[0];
    }
    if again != [] && again[0] in s.held {
      var all := Selected(s.events, q, 0);
      assert again[0] == all[0] && all[0] in all;
    }
  }

  /** The cursor the server reports with an empty page is 0. In every run, a client that follows it is
    sent an event it already holds exactly when its own cursor was beyond 0, unless the workspace
    has been removed. */
  lemma EmptyPageCursor(q: Query, states: seq<State>, steps: seq<Step>, k: nat, again: seq<EventRecord>, limit: nat)
    requires IsRun(q, states, steps) && Initial(states[0]) && k <= |steps|
    requires forall i :: 0 <= i < k ==> steps[i] != Remove(q.workspaceId)
    requires limit > 0 && again == Page(states[k].events, q, 0, limit)
    ensures (again != [] && again[0] in states[k].held) <==> states[k].cursor > 0
  {
    var s := states[k];
    RunKeeps(q, states, steps, k);
    FirstPageRepeats(q, s, again, limit);
    if s.held != [] {
      var last := s.held[|s.held| - 1];
      assert last in s.held;
    } else {
      assert forall e :: e in s.events ==> e.sequence > 0;
    }
  }

  /** A run in which it happens: one event is appended, two pages are asked for, the second one is
    empty, and the page after the reported cursor is the same event again. */
  lemma EmptyPageRepeats(e: EventRecord) returns (q: Query, states: seq<State>, steps: seq<Step>)
    requires e.sequence == 1
    ensures IsRun(q, states, steps) && Initial(states[0]) && steps == [Append(e), Poll(1), Poll(1)]
    ensures states[2].cursor == 1 && Page(states[2].events, q, 1, 1) == []
    ensures Page(states[3].events, q, 0, 1) == [e] && states[3].held == [e]
  {
    q := Query(e.workspaceId, None);
    steps := [Append(e), Poll(1), Poll(1)];
    var s := State({e.workspaceId}, [], 0, [], 0, {}, []);
    var t := s.(events := [e], last := 1, unsent := {e});
    var u := t.(held := [e], cursor := 1);
    OnlyEvent(q, e);
    states := [s, t, u, u];
    assert Next(q, s, steps[0], t) && Next(q, t, steps[1], u) && Next(q, u, steps[2], u);
  }

  lemma OnlyEvent(q: Query, e: EventRecord)
    requires Selects(q, e) && e.sequence == 1
    ensures Page([e], q, 0, 1) == [e] && Page([e], q, 1, 1) == []
  {
    assert [e][..0] == [];
    assert Selected([e], q, 0) == [e] && Selected([e], q, 1) == [];
  }
}
