/** The bubbles of a session, from apps/web/src/screens/session-screen.tsx. */
module Timeline {
  import opened Outcomes
  import opened Sequences

  datatype Kind = User | Agent | Thought | Approval | System | Tool

  datatype Event =
    | PromptEvent(eventId: string, text: string)
    | RequestEvent(eventId: string, requestId: string, text: string)
    | ResolvedEvent(requestId: string, status: string)
    | ChunkEvent(eventId: string, speaker: Kind, messageId: string, text: string)
    | ToolEvent(eventId: string, text: string)
    | NoticeEvent(eventId: string, text: string)
    | OtherEvent

  datatype Message = Message(id: string, kind: Kind, body: string, requestId: string, resolution: Option<string>)

  predicate IsSpeaker(kind: Kind) {
    kind == User || kind == Agent || kind == Thought
  }

  function Name(kind: Kind): string
    requires IsSpeaker(kind)
  {
    match kind case User => "user" case Agent => "agent" case _ => "thought"
  }

  /** Event identifiers are UUIDs, and chunks are spoken by the user or the agent. */
  predicate IsEvent(e: Event) {
    && (e.ChunkEvent? ==> IsSpeaker(e.speaker))
    && (e.ResolvedEvent? || e.OtherEvent? || (|e.eventId| == 36 && ':' !in e.eventId))
  }

  ghost predicate AreEvents(events: seq<Event>) {
    forall i :: 0 <= i < |events| ==> IsEvent(events[i])
  }

  // ----- permission outcomes

  predicate Resolves(e: Event, requestId: string) {
    e.ResolvedEvent? && e.requestId == requestId
  }

  ghost predicate IsLast(events: seq<Event>, requestId: string, i: nat)
    requires i < |events|
  {
    Resolves(events[i], requestId) && forall j :: i < j < |events| ==> !Resolves(events[j], requestId)
  }

  /** The status of the last resolution of the request. */
  function LastStatus(events: seq<Event>, requestId: string): (status: Option<string>)
    ensures status.None? ==> forall i :: 0 <= i < |events| ==> !Resolves(events[i], requestId)
    ensures status.Some? ==>
      exists i :: 0 <= i < |events| && IsLast(events, requestId, i) && events[i].status == status.value
  {
    if events == [] then None
    else
      var last := events[|events| - 1];
      if Resolves(last, requestId) then Some(last.status)
      else LastStatus(events[..|events| - 1], requestId)
  }

  function Get(m: map<string, string>, key: string): Option<string> {
    if key in m then Some(m[key]) else None
  }

  method CollectResolutions(events: seq<Event>) returns (resolutions: map<string, string>)
    ensures forall id :: Get(resolutions, id) == LastStatus(events, id)
  {
    resolutions := map[];
    for i := 0 to |events|
      invariant forall id :: Get(resolutions, id) == LastStatus(events[..i], id)
    {
      assert events[..i + 1][..i] == events[..i];
      if events[i].ResolvedEvent? {
        resolutions := resolutions[events[i].requestId := events[i].status];
      }
    }
    assert events[..|events|] == events;
  }

  // ----- which bubble an event goes to

  /** Whether the event shows at all; an empty chunk does not. */
  predicate Shows(e: Event) {
    !e.ResolvedEvent? && !e.OtherEvent? && (e.ChunkEvent? ==> e.text != "")
  }

  function KindOf(e: Event): Kind
    requires Shows(e)
  {
    match e
    case PromptEvent(_, _) => User
    case RequestEvent(_, _, _) => Approval
    case ChunkEvent(_, speaker, _, _) => speaker
    case ToolEvent(_, _) => Tool
    case _ => System
  }

  const CHUNK: string := "chunk:"

  function ChunkId(messageId: string, kind: Kind): string
    requires IsSpeaker(kind)
  {
    CHUNK + messageId + ":" + Name(kind)
  }

  function AutoId(eventId: string): string {
    CHUNK + "auto:" + eventId
  }

  /** The index of the first message with the identifier, or the length. */
  function IndexOf(messages: seq<Message>, id: string): (i: nat)
    ensures i <= |messages| && (i < |messages| ==> messages[i].id == id)
    ensures forall k :: 0 <= k < i ==> messages[k].id != id
  {
    if messages == [] || messages[0].id == id then 0 else 1 + IndexOf(messages[1..], id)
  }

  predicate Growing(messages: seq<Message>, kind: Kind) {
    messages != [] && messages[|messages| - 1].kind == kind && CHUNK <= messages[|messages| - 1].id
  }

  /** The bubble the event's text is appended to, or the number of bubbles for a new one. */
  function Target(messages: seq<Message>, e: Event): (i: nat)
    requires Shows(e) && IsEvent(e)
    ensures i <= |messages|
  {
    if !e.ChunkEvent? then |messages|
    else if e.messageId != "" then IndexOf(messages, ChunkId(e.messageId, e.speaker))
    else if Growing(messages, e.speaker) then |messages| - 1
    else |messages|
  }

  function NewMessage(e: Event, resolution: Option<string>): (m: Message)
    requires Shows(e) && IsEvent(e)
    ensures m.kind == KindOf(e) && m.body == e.text
  {
    match e
    case RequestEvent(id, requestId, text) => Message(id, Approval, text, requestId, resolution)
    case ChunkEvent(id, speaker, messageId, text) =>
      Message(if messageId != "" then ChunkId(messageId, speaker) else AutoId(id), speaker, text, "", None)
    case _ => Message(e.eventId, KindOf(e), e.text, "", None)
  }

  // ----- identifiers do not collide

  /** What follows the last colon. */
  function AfterColon(s: string): string {
    if s == "" || s[|s| - 1] == ':' then "" else AfterColon(s[..|s| - 1]) + [s[|s| - 1]]
  }

  lemma {:induction false} AfterColonIs(front: string, back: string)
    requires ':' !in back
    ensures AfterColon(front + ":" + back) == back
    decreases |back|
  {
    var n := |back| - 1;
    if back != "" {
      AfterColonIs(front, back[..n]);
      assert (front + ":" + back)[..|front| + 1 + n] == front + ":" + back[..n];
    }
  }

  lemma ChunkIdKind(messageId: string, kind: Kind)
    requires IsSpeaker(kind)
    ensures AfterColon(ChunkId(messageId, kind)) == Name(kind)
  {
    AfterColonIs(CHUNK + messageId, Name(kind));
  }

  lemma ChunkIdIsUnique(m: string, a: Kind, n: string, b: Kind)
    requires IsSpeaker(a) && IsSpeaker(b)
    ensures ChunkId(m, a) == ChunkId(n, b) <==> a == b && m == n
  {
    hide AfterColon, ChunkId;
    ChunkIdKind(m, a);
    ChunkIdKind(n, b);
    if ChunkId(m, a) == ChunkId(n, b) {
      SameSpeaker(a, b);
      SameChunkId(m, n, a);
    }
  }

  lemma SameSpeaker(a: Kind, b: Kind)
    requires IsSpeaker(a) && IsSpeaker(b) && Name(a) == Name(b)
    ensures a == b
  {
    assert |Name(User)| == 4 && |Name(Agent)| == 5 && |Name(Thought)| == 7;
  }

  lemma SameChunkId(m: string, n: string, kind: Kind)
    requires IsSpeaker(kind) && ChunkId(m, kind) == ChunkId(n, kind)
    ensures m == n
  {
    hide Name;
    var tail := ":" + Name(kind);
    SameTail(CHUNK, m, n, tail);
    assert ChunkId(m, kind) == CHUNK + m + tail && ChunkId(n, kind) == CHUNK + n + tail;
  }

  lemma SameTail(head: string, m: string, n: string, tail: string)
    ensures head + m + tail == head + n + tail ==> m == n
  {
    var s, t := head + m + tail, head + n + tail;
    if s == t {
      assert s[|head|..|s| - |tail|] == m && t[|head|..|t| - |tail|] == n;
    }
  }

  lemma AutoIdEvent(eventId: string)
    requires ':' !in eventId
    ensures AfterColon(AutoId(eventId)) == eventId
  {
    AfterColonIs(CHUNK + "auto", eventId);
    assert AutoId(eventId) == CHUNK + "auto" + ":" + eventId;
  }

  lemma ChunkHasColon(id: string)
    requires CHUNK <= id
    ensures ':' in id
  {
    assert id[5] == ':';
  }

  /** A bubble that chunks may go to names its kind. */
  ghost predicate IdIsSound(m: Message) {
    CHUNK <= m.id ==>
      IsSpeaker(m.kind)
      && ((exists messageId :: m.id == ChunkId(messageId, m.kind))
          || exists eventId :: m.id == AutoId(eventId) && |eventId| == 36 && ':' !in eventId)
  }

  lemma TargetHasKind(messages: seq<Message>, e: Event)
    requires Shows(e) && IsEvent(e) && forall b :: 0 <= b < |messages| ==> IdIsSound(messages[b])
    ensures Target(messages, e) < |messages| ==> messages[Target(messages, e)].kind == KindOf(e)
  {
    var b := Target(messages, e);
    if b < |messages| && e.messageId != "" {
      var m := messages[b];
      assert CHUNK <= m.id;
      if messageId :| m.id == ChunkId(messageId, m.kind) {
        ChunkIdKind(messageId, m.kind);
        ChunkIdKind(e.messageId, e.speaker);
      } else {
        var eventId :| m.id == AutoId(eventId) && |eventId| == 36 && ':' !in eventId;
        ChunkIdKind(e.messageId, e.speaker);
        AutoIdEvent(eventId);
      }
    }
  }

  lemma NewIdIsSound(e: Event, resolution: Option<string>)
    requires Shows(e) && IsEvent(e)
    ensures IdIsSound(NewMessage(e, resolution))
  {
    var m := NewMessage(e, resolution);
    if e.ChunkEvent? {
      if e.messageId != "" {
        assert m.id == ChunkId(e.messageId, m.kind);
      } else {
        assert m.id == AutoId(e.eventId);
      }
    } else {
      if CHUNK <= e.eventId {
        ChunkHasColon(e.eventId);
      }
    }
  }

  // ----- every text in its bubble

  /** The texts of the events that go to bubble `b`, in order. */
  ghost function Gathered(events: seq<Event>, owners: seq<nat>, b: nat): string
    requires |owners| == |events|
  {
    if events == [] then ""
    else
      var n := |events| - 1;
      Gathered(events[..n], owners[..n], b) + if Shows(events[n]) && owners[n] == b then events[n].text else ""
  }

  /** Every event that shows has a bubble of its kind. */
  ghost predicate OwnersOk(messages: seq<Message>, events: seq<Event>, owners: seq<nat>) {
    |owners| == |events| && forall i :: 0 <= i < |events| && Shows(events[i]) ==>
      owners[i] < |messages| && messages[owners[i]].kind == KindOf(events[i])
  }

  /** Bubble `b` has an event among the first `n`. */
  ghost predicate Started(events: seq<Event>, owners: seq<nat>, b: nat, n: nat)
    requires |owners| == |events| && n <= |events|
  {
    exists k :: 0 <= k < n && Shows(events[k]) && owners[k] == b
  }

  /** Every bubble holds exactly the texts of its events, and has at least one. */
  ghost predicate BodiesOk(messages: seq<Message>, events: seq<Event>, owners: seq<nat>) {
    |owners| == |events| && forall b :: 0 <= b < |messages| ==>
      messages[b].body == Gathered(events, owners, b) && Started(events, owners, b, |events|)
  }

  /** A later bubble starts with a later event. */
  ghost predicate InOrder(events: seq<Event>, owners: seq<nat>) {
    |owners| == |events| && forall i :: 0 <= i < |events| && Shows(events[i]) ==>
      owners[i] == 0 || Started(events, owners, owners[i] - 1, i)
  }

  /** Chunks of one message by one speaker share the bubble that its identifier names. */
  ghost predicate ByMessage(messages: seq<Message>, events: seq<Event>, owners: seq<nat>) {
    |owners| == |events| && forall i :: 0 <= i < |events| ==> NamedOk(messages, events[i], owners[i])
  }

  ghost predicate NamedOk(messages: seq<Message>, e: Event, owner: nat) {
    Shows(e) && e.ChunkEvent? && IsSpeaker(e.speaker) && e.messageId != "" ==>
      owner < |messages| && owner == IndexOf(messages, ChunkId(e.messageId, e.speaker))
  }

  /** Approvals show the last outcome of their request, other bubbles none. */
  ghost predicate ResolutionsOk(messages: seq<Message>, events: seq<Event>) {
    forall b :: 0 <= b < |messages| ==>
      messages[b].resolution == if messages[b].kind == Approval then LastStatus(events, messages[b].requestId) else None
  }

  /** The number of bubbles the first `n` events make. */
  ghost function Bubbles(events: seq<Event>, owners: seq<nat>, n: nat): nat
    requires |owners| == |events| && n <= |events|
  {
    if n == 0 then 0
    else
      var before := Bubbles(events, owners, n - 1);
      if Shows(events[n - 1]) && owners[n - 1] >= before then owners[n - 1] + 1 else before
  }

  /** A chunk without message identifier goes to the newest of the `n` bubbles before it, if that one
    is its speaker's and made of chunks, and to a new one otherwise. */
  ghost predicate StreamOk(messages: seq<Message>, e: Event, owner: nat, n: nat) {
    Shows(e) && e.ChunkEvent? && e.messageId == "" ==>
      && n <= |messages| && owner < |messages| && CHUNK <= messages[owner].id
      && owner == if n > 0 && messages[n - 1].kind == e.speaker && CHUNK <= messages[n - 1].id then n - 1 else n
  }

  ghost predicate InStreams(messages: seq<Message>, events: seq<Event>, owners: seq<nat>) {
    && |owners| == |events| && |messages| == Bubbles(events, owners, |events|)
    && forall i :: 0 <= i < |events| ==> StreamOk(messages, events[i], owners[i], Bubbles(events, owners, i))
  }

  /** A bubble of the event's own, the `n`-th. */
  ghost predicate HasOwn(messages: seq<Message>, owner: nat, n: nat, m: nat, id: string, kind: Kind, text: string,
                         requestId: string) {
    && owner == n < |messages| && m == n + 1
    && messages[n].id == id && messages[n].kind == kind && messages[n].body == text
    && messages[n].requestId == requestId
  }

  /** What the timeline shows of an event, with `n` bubbles before it and `m` after it. */
  ghost predicate IsShown(messages: seq<Message>, e: Event, owner: nat, n: nat, m: nat) {
    match e
    case PromptEvent(id, text) => HasOwn(messages, owner, n, m, id, User, text, "")
    case RequestEvent(id, requestId, text) => HasOwn(messages, owner, n, m, id, Approval, text, requestId)
    case ToolEvent(id, text) => HasOwn(messages, owner, n, m, id, Tool, text, "")
    case NoticeEvent(id, text) => HasOwn(messages, owner, n, m, id, System, text, "")
    case ChunkEvent(_, speaker, _, text) =>
      if text == "" then m == n
      else owner < |messages| && messages[owner].kind == speaker && m == (if owner < n then n else n + 1)
    case ResolvedEvent(_, _) => m == n
    case OtherEvent => m == n
  }

  ghost predicate AllShown(messages: seq<Message>, events: seq<Event>, owners: seq<nat>) {
    |owners| == |events| && forall i :: 0 <= i < |events| ==>
      IsShown(messages, events[i], owners[i], Bubbles(events, owners, i), Bubbles(events, owners, i + 1))
  }

  ghost predicate IsTimeline(messages: seq<Message>, events: seq<Event>, owners: seq<nat>) {
    && OwnersOk(messages, events, owners) && BodiesOk(messages, events, owners) && InOrder(events, owners)
    && ByMessage(messages, events, owners) && InStreams(messages, events, owners)
    && AllShown(messages, events, owners)
    && forall b :: 0 <= b < |messages| ==> IdIsSound(messages[b])
  }

  /** Put the event's text where it belongs. */
  function Placed(messages: seq<Message>, e: Event, resolution: Option<string>): seq<Message>
    requires Shows(e) && IsEvent(e)
  {
    var b := Target(messages, e);
    if b < |messages| then messages[b := messages[b].(body := messages[b].body + e.text)]
    else messages + [NewMessage(e, resolution)]
  }

  lemma {:induction false} NothingYet(events: seq<Event>, owners: seq<nat>, b: nat)
    requires |owners| == |events| && forall i :: 0 <= i < |events| && Shows(events[i]) ==> owners[i] < b
    ensures Gathered(events, owners, b) == ""
  {
    if events != [] {
      var n := |events| - 1;
      NothingYet(events[..n], owners[..n], b);
    }
  }

  lemma GatheredStep(events: seq<Event>, owners: seq<nat>, e: Event, owner: nat, b: nat)
    requires |owners| == |events|
    ensures Gathered(events + [e], owners + [owner], b) ==
      Gathered(events, owners, b) + if Shows(e) && owner == b then e.text else ""
  {
    assert (events + [e])[..|events|] == events && (owners + [owner])[..|owners|] == owners;
  }

  lemma BodiesKept(messages: seq<Message>, events: seq<Event>, owners: seq<nat>, e: Event, resolution: Option<string>)
    requires OwnersOk(messages, events, owners) && BodiesOk(messages, events, owners) && Shows(e) && IsEvent(e)
    ensures BodiesOk(Placed(messages, e, resolution), events + [e], owners + [Target(messages, e)])
  {
    var owner, after := Target(messages, e), Placed(messages, e, resolution);
    var all, to := events + [e], owners + [owner];
    forall b: nat | b < |after|
      ensures after[b].body == Gathered(all, to, b) && Started(all, to, b, |all|)
    {
      GatheredStep(events, owners, e, owner, b);
      if b < |messages| {
        StartedStays(events, owners, e, owner, b, |events|, |all|);
      } else {
        NothingYet(events, owners, b);
        assert Shows(all[|events|]) && to[|events|] == b;
      }
    }
  }

  lemma IdsKept(messages: seq<Message>, e: Event, resolution: Option<string>)
    requires Shows(e) && IsEvent(e) && forall b :: 0 <= b < |messages| ==> IdIsSound(messages[b])
    ensures var after := Placed(messages, e, resolution);
      forall b :: 0 <= b < |after| ==> IdIsSound(after[b])
  {
    var after := Placed(messages, e, resolution);
    forall b | 0 <= b < |after| ensures IdIsSound(after[b]) {
      if b < |messages| {
        SameId(messages[b], after[b]);
      } else {
        NewIdIsSound(e, resolution);
      }
    }
  }

  lemma SameId(m: Message, n: Message)
    requires IdIsSound(m) && m.id == n.id && m.kind == n.kind
    ensures IdIsSound(n)
  {
  }

  lemma OwnersKept(messages: seq<Message>, events: seq<Event>, owners: seq<nat>, e: Event, resolution: Option<string>)
    requires OwnersOk(messages, events, owners) && Shows(e) && IsEvent(e)
    requires forall b :: 0 <= b < |messages| ==> IdIsSound(messages[b])
    ensures OwnersOk(Placed(messages, e, resolution), events + [e], owners + [Target(messages, e)])
  {
    TargetHasKind(messages, e);
  }

  lemma OrderKept(messages: seq<Message>, events: seq<Event>, owners: seq<nat>, e: Event)
    requires BodiesOk(messages, events, owners) && InOrder(events, owners) && Shows(e) && IsEvent(e)
    ensures InOrder(events + [e], owners + [Target(messages, e)])
  {
    hide Started, BodiesOk, Target;
    var owner := Target(messages, e);
    var all, to := events + [e], owners + [owner];
    forall i | 0 <= i < |all| && Shows(all[i]) ensures to[i] == 0 || Started(all, to, to[i] - 1, i) {
      EarlierBubble(messages, events, owners, owner, e, i);
    }
  }

  lemma StartedStays(events: seq<Event>, owners: seq<nat>, e: Event, owner: nat, b: nat, n: nat, m: nat)
    requires |owners| == |events| && n <= |events| && n <= m <= |events| + 1 && Started(events, owners, b, n)
    ensures Started(events + [e], owners + [owner], b, m)
  {
    var k :| 0 <= k < n && Shows(events[k]) && owners[k] == b;
    assert (events + [e])[k] == events[k] && (owners + [owner])[k] == b;
  }

  lemma EarlierBubble(messages: seq<Message>, events: seq<Event>, owners: seq<nat>, owner: nat, e: Event, i: nat)
    requires BodiesOk(messages, events, owners) && InOrder(events, owners)
    requires owner <= |messages| && i <= |events| && Shows((events + [e])[i])
    ensures (owners + [owner])[i] == 0 || Started(events + [e], owners + [owner], (owners + [owner])[i] - 1, i)
  {
    if i < |events| {
      if owners[i] > 0 {
        StartedStays(events, owners, e, owner, owners[i] - 1, i, i);
      }
    } else if owner > 0 {
      StartedStays(events, owners, e, owner, owner - 1, i, i);
    }
  }

  lemma IndexStays(messages: seq<Message>, e: Event, resolution: Option<string>, id: string)
    requires Shows(e) && IsEvent(e) && IndexOf(messages, id) < |messages|
    ensures IndexOf(Placed(messages, e, resolution), id) == IndexOf(messages, id)
  {
    IndexIs(Placed(messages, e, resolution), id, IndexOf(messages, id));
  }

  lemma {:induction false} IndexIs(messages: seq<Message>, id: string, i: nat)
    requires i < |messages| && messages[i].id == id && forall k :: 0 <= k < i ==> messages[k].id != id
    ensures IndexOf(messages, id) == i
  {
    if i > 0 {
      IndexIs(messages[1..], id, i - 1);
    }
  }

  lemma NamedKept(messages: seq<Message>, events: seq<Event>, owners: seq<nat>, e: Event, resolution: Option<string>)
    requires ByMessage(messages, events, owners) && Shows(e) && IsEvent(e)
    ensures ByMessage(Placed(messages, e, resolution), events + [e], owners + [Target(messages, e)])
  {
    var owner, after := Target(messages, e), Placed(messages, e, resolution);
    var all, to := events + [e], owners + [owner];
    forall i | 0 <= i < |all| ensures NamedOk(after, all[i], to[i]) {
      var f := all[i];
      if Shows(f) && f.ChunkEvent? && IsSpeaker(f.speaker) && f.messageId != "" {
        if i < |events| {
          assert NamedOk(messages, events[i], owners[i]);
          IndexStays(messages, e, resolution, ChunkId(f.messageId, f.speaker));
        } else {
          IndexIs(after, ChunkId(f.messageId, f.speaker), owner);
        }
      }
    }
  }

  lemma {:induction false} BubblesStay(events: seq<Event>, owners: seq<nat>, e: Event, owner: nat, n: nat)
    requires |owners| == |events| && n <= |events|
    ensures Bubbles(events + [e], owners + [owner], n) == Bubbles(events, owners, n)
  {
    if n > 0 { BubblesStay(events, owners, e, owner, n - 1); }
  }

  lemma StreamStays(messages: seq<Message>, e: Event, resolution: Option<string>, f: Event, owner: nat, n: nat)
    requires Shows(e) && IsEvent(e) && StreamOk(messages, f, owner, n)
    ensures StreamOk(Placed(messages, e, resolution), f, owner, n)
  {
  }

  lemma StreamStarts(messages: seq<Message>, e: Event, resolution: Option<string>)
    requires Shows(e) && IsEvent(e)
    ensures StreamOk(Placed(messages, e, resolution), e, Target(messages, e), |messages|)
  {
  }

  lemma PlacedSize(messages: seq<Message>, e: Event, resolution: Option<string>)
    requires Shows(e) && IsEvent(e)
    ensures |Placed(messages, e, resolution)| == if Target(messages, e) < |messages| then |messages| else |messages| + 1
  {
  }

  lemma StreamKept(messages: seq<Message>, events: seq<Event>, owners: seq<nat>, e: Event, resolution: Option<string>,
                   i: nat)
    requires InStreams(messages, events, owners) && Shows(e) && IsEvent(e) && i <= |events|
    ensures var all, to := events + [e], owners + [Target(messages, e)];
      StreamOk(Placed(messages, e, resolution), all[i], to[i], Bubbles(all, to, i))
  {
    hide StreamOk, Placed, Target;
    BubblesStay(events, owners, e, Target(messages, e), i);
    if i < |events| {
      StreamStays(messages, e, resolution, events[i], owners[i], Bubbles(events, owners, i));
    } else {
      StreamStarts(messages, e, resolution);
    }
  }

  lemma SizeKept(messages: seq<Message>, events: seq<Event>, owners: seq<nat>, e: Event, resolution: Option<string>)
    requires |owners| == |events| && |messages| == Bubbles(events, owners, |events|) && Shows(e) && IsEvent(e)
    ensures |Placed(messages, e, resolution)| == Bubbles(events + [e], owners + [Target(messages, e)], |events| + 1)
  {
    hide Placed, Target;
    PlacedSize(messages, e, resolution);
    BubblesStay(events, owners, e, Target(messages, e), |events|);
  }

  lemma StreamsKept(messages: seq<Message>, events: seq<Event>, owners: seq<nat>, e: Event, resolution: Option<string>)
    requires InStreams(messages, events, owners) && Shows(e) && IsEvent(e)
    ensures InStreams(Placed(messages, e, resolution), events + [e], owners + [Target(messages, e)])
  {
    hide StreamOk, Placed, Target, Bubbles;
    var after, all, to := Placed(messages, e, resolution), events + [e], owners + [Target(messages, e)];
    SizeKept(messages, events, owners, e, resolution);
    forall i | 0 <= i < |all| ensures StreamOk(after, all[i], to[i], Bubbles(all, to, i)) {
      StreamKept(messages, events, owners, e, resolution, i);
    }
  }

  lemma HiddenStream(messages: seq<Message>, events: seq<Event>, owners: seq<nat>, e: Event, i: nat)
    requires InStreams(messages, events, owners) && !Shows(e) && i <= |events|
    ensures var all, to := events + [e], owners + [0];
      StreamOk(messages, all[i], to[i], Bubbles(all, to, i))
  {
    hide StreamOk;
    BubblesStay(events, owners, e, 0, i);
    if i < |events| {
      assert StreamOk(messages, events[i], owners[i], Bubbles(events, owners, i));
    } else {
      HiddenChunk(messages, e, 0, Bubbles(events, owners, i));
    }
  }

  lemma HiddenSize(messages: seq<Message>, events: seq<Event>, owners: seq<nat>, e: Event)
    requires |owners| == |events| && |messages| == Bubbles(events, owners, |events|) && !Shows(e)
    ensures |messages| == Bubbles(events + [e], owners + [0], |events| + 1)
  {
    BubblesStay(events, owners, e, 0, |events|);
  }

  lemma HiddenStreams(messages: seq<Message>, events: seq<Event>, owners: seq<nat>, e: Event)
    requires InStreams(messages, events, owners) && !Shows(e)
    ensures InStreams(messages, events + [e], owners + [0])
  {
    hide StreamOk, Bubbles;
    var all, to := events + [e], owners + [0];
    HiddenSize(messages, events, owners, e);
    forall i | 0 <= i < |all| ensures StreamOk(messages, all[i], to[i], Bubbles(all, to, i)) {
      HiddenStream(messages, events, owners, e, i);
    }
  }

  lemma HiddenChunk(messages: seq<Message>, e: Event, owner: nat, n: nat)
    requires !Shows(e)
    ensures StreamOk(messages, e, owner, n)
  {
  }

  lemma TargetIsChunk(messages: seq<Message>, e: Event)
    requires Shows(e) && IsEvent(e) && Target(messages, e) < |messages|
    ensures ':' in messages[Target(messages, e)].id
  {
    hide IndexOf;
    ChunkHasColon(messages[Target(messages, e)].id);
  }

  lemma ShownStays(messages: seq<Message>, e: Event, resolution: Option<string>, f: Event, owner: nat, n: nat, m: nat)
    requires Shows(e) && IsEvent(e) && IsEvent(f) && IsShown(messages, f, owner, n, m)
    ensures IsShown(Placed(messages, e, resolution), f, owner, n, m)
  {
    hide Target;
    if Target(messages, e) < |messages| {
      TargetIsChunk(messages, e);
    }
  }

  lemma ShownAtEnd(messages: seq<Message>, e: Event, resolution: Option<string>)
    requires Shows(e) && IsEvent(e) && forall b :: 0 <= b < |messages| ==> IdIsSound(messages[b])
    ensures var owner := Target(messages, e);
      IsShown(Placed(messages, e, resolution), e, owner, |messages|,
              if owner < |messages| then |messages| else owner + 1)
  {
    TargetHasKind(messages, e);
  }

  lemma ShownKept(messages: seq<Message>, events: seq<Event>, owners: seq<nat>, e: Event, resolution: Option<string>)
    requires AreEvents(events) && IsEvent(e) && Shows(e)
    requires AllShown(messages, events, owners) && |messages| == Bubbles(events, owners, |events|)
    requires forall b :: 0 <= b < |messages| ==> IdIsSound(messages[b])
    ensures AllShown(Placed(messages, e, resolution), events + [e], owners + [Target(messages, e)])
  {
    hide IsShown, Placed, Target, IdIsSound, Shows, IsEvent;
    var owner := Target(messages, e);
    var after, all, to := Placed(messages, e, resolution), events + [e], owners + [owner];
    forall i | 0 <= i < |all| ensures IsShown(after, all[i], to[i], Bubbles(all, to, i), Bubbles(all, to, i + 1)) {
      BubblesStay(events, owners, e, owner, i);
      if i < |events| {
        BubblesStay(events, owners, e, owner, i + 1);
        ShownStays(messages, e, resolution, events[i], owners[i], Bubbles(events, owners, i),
                   Bubbles(events, owners, i + 1));
      } else {
        ShownAtEnd(messages, e, resolution);
      }
    }
  }

  lemma HiddenShown(messages: seq<Message>, events: seq<Event>, owners: seq<nat>, e: Event)
    requires AllShown(messages, events, owners) && !Shows(e)
    ensures AllShown(messages, events + [e], owners + [0])
  {
    hide HasOwn;
    var all, to := events + [e], owners + [0];
    forall i | 0 <= i < |all| ensures IsShown(messages, all[i], to[i], Bubbles(all, to, i), Bubbles(all, to, i + 1)) {
      BubblesStay(events, owners, e, 0, i);
      if i < |events| {
        BubblesStay(events, owners, e, 0, i + 1);
      }
    }
  }

  lemma PlacedKeeps(messages: seq<Message>, events: seq<Event>, owners: seq<nat>, e: Event, resolution: Option<string>)
    requires AreEvents(events) && IsTimeline(messages, events, owners) && Shows(e) && IsEvent(e)
    ensures IsTimeline(Placed(messages, e, resolution), events + [e], owners + [Target(messages, e)])
  {
    hide OwnersOk, BodiesOk, InOrder, ByMessage, AllShown, IdIsSound, Placed, Target, StreamOk, Bubbles;
    ShownKept(messages, events, owners, e, resolution);
    BodiesKept(messages, events, owners, e, resolution);
    NamedKept(messages, events, owners, e, resolution);
    OwnersKept(messages, events, owners, e, resolution);
    IdsKept(messages, e, resolution);
    OrderKept(messages, events, owners, e);
    StreamsKept(messages, events, owners, e, resolution);
  }

  lemma HiddenKeeps(messages: seq<Message>, events: seq<Event>, owners: seq<nat>, e: Event)
    requires IsTimeline(messages, events, owners) && !Shows(e)
    ensures IsTimeline(messages, events + [e], owners + [0])
  {
    hide InStreams, AllShown;
    HiddenStreams(messages, events, owners, e);
    HiddenShown(messages, events, owners, e);
    var all, to := events + [e], owners + [0];
    forall i | 0 <= i < |all| ensures NamedOk(messages, all[i], to[i]) {
      assert i < |events| ==> NamedOk(messages, events[i], owners[i]);
    }
    forall b: nat | b < |messages| ensures messages[b].body == Gathered(all, to, b) && Started(all, to, b, |all|) {
      GatheredStep(events, owners, e, 0, b);
      StartedStays(events, owners, e, 0, b, |events|, |all|);
    }
    forall i | 0 <= i < |all| && Shows(all[i]) ensures to[i] == 0 || Started(all, to, to[i] - 1, i) {
      EarlierBubble(messages, events, owners, 0, e, i);
    }
  }

  lemma ResolutionKept(messages: seq<Message>, events: seq<Event>, e: Event, resolution: Option<string>)
    requires ResolutionsOk(messages, events) && Shows(e) && IsEvent(e)
    requires e.RequestEvent? ==> resolution == LastStatus(events, e.requestId)
    ensures ResolutionsOk(Placed(messages, e, resolution), events)
  {
  }

  /** Two chunks with message identifiers share a bubble exactly when speaker and identifier agree. */
  lemma SameMessageSameBubble(messages: seq<Message>, events: seq<Event>, owners: seq<nat>, i: nat, j: nat)
    requires AreEvents(events) && IsTimeline(messages, events, owners) && i < |events| && j < |events|
    requires events[i].ChunkEvent? && events[i].messageId != "" && Shows(events[i])
    requires events[j].ChunkEvent? && events[j].messageId != "" && Shows(events[j])
    ensures owners[i] == owners[j] <==>
      events[i].speaker == events[j].speaker && events[i].messageId == events[j].messageId
  {
    var e, f := events[i], events[j];
    assert IsEvent(e) && IsEvent(f) && NamedOk(messages, e, owners[i]) && NamedOk(messages, f, owners[j]);
    ChunkIdIsUnique(e.messageId, e.speaker, f.messageId, f.speaker);
  }

  lemma {:induction false} BubblesGrow(events: seq<Event>, owners: seq<nat>, m: nat, n: nat)
    requires |owners| == |events| && m <= n <= |events|
    ensures Bubbles(events, owners, m) <= Bubbles(events, owners, n)
  {
    if m < n { BubblesGrow(events, owners, m, n - 1); }
  }

  lemma BubblesStep(events: seq<Event>, owners: seq<nat>, i: nat)
    requires |owners| == |events| && i < |events| && Shows(events[i])
    requires Bubbles(events, owners, i) <= owners[i] + 1
    ensures Bubbles(events, owners, i + 1) == owners[i] + 1
  {
  }

  lemma StreamsMeet(messages: seq<Message>, e: Event, p: nat, n: nat, f: Event, q: nat, m: nat)
    requires Shows(e) && e.ChunkEvent? && e.messageId == "" && StreamOk(messages, e, p, n)
    requires Shows(f) && f.ChunkEvent? && f.messageId == "" && StreamOk(messages, f, q, m)
    requires messages[p].kind == e.speaker && messages[q].kind == f.speaker
    ensures p == n || p + 1 == n
    ensures m > p ==> (p == q <==> e.speaker == f.speaker && m == p + 1)
  {
  }

  /** Two chunks without message identifiers share a bubble exactly when they have one speaker and no
    bubble was added between them, whatever was appended to older bubbles meanwhile. */
  lemma StreamStaysTogether(messages: seq<Message>, events: seq<Event>, owners: seq<nat>, i: nat, j: nat)
    requires IsTimeline(messages, events, owners) && i < j < |events|
    requires events[i].ChunkEvent? && events[i].messageId == "" && Shows(events[i])
    requires events[j].ChunkEvent? && events[j].messageId == "" && Shows(events[j])
    ensures owners[i] == owners[j] <==>
      events[i].speaker == events[j].speaker && Bubbles(events, owners, i + 1) == Bubbles(events, owners, j)
  {
    hide BodiesOk, InOrder, ByMessage, IdIsSound, StreamOk, Bubbles;
    var n, m := Bubbles(events, owners, i), Bubbles(events, owners, j);
    assert StreamOk(messages, events[i], owners[i], n) && StreamOk(messages, events[j], owners[j], m);
    BubblesGrow(events, owners, i + 1, j);
    StreamsMeet(messages, events[i], owners[i], n, events[j], owners[j], m);
    BubblesStep(events, owners, i);
  }

  // ----- no text is lost or repeated

  /** The texts of all events that show. */
  ghost function Texts(events: seq<Event>): string {
    if events == [] then ""
    else
      var n := |events| - 1;
      Texts(events[..n]) + if Shows(events[n]) then events[n].text else ""
  }

  ghost function Bodies(messages: seq<Message>): string {
    if messages == [] then "" else Bodies(messages[..|messages| - 1]) + messages[|messages| - 1].body
  }

  /** The texts gathered for the first `m` bubbles. */
  ghost function GatheredBelow(events: seq<Event>, owners: seq<nat>, m: nat): string
    requires |owners| == |events|
  {
    if m == 0 then "" else GatheredBelow(events, owners, m - 1) + Gathered(events, owners, m - 1)
  }

  /** How often an event shows the character, if it counts. */
  ghost function Weight(e: Event, counts: bool, c: char): nat {
    if Shows(e) && counts then Count(e.text, c) else 0
  }

  /** How often the events that count show the character. */
  ghost function Total(events: seq<Event>, counts: seq<bool>, c: char): nat
    requires |counts| == |events|
  {
    if events == [] then 0
    else
      var n := |events| - 1;
      Total(events[..n], counts[..n], c) + Weight(events[n], counts[n], c)
  }

  ghost function Exactly(owners: seq<nat>, b: nat): (counts: seq<bool>)
    ensures |counts| == |owners| && forall i :: 0 <= i < |owners| ==> counts[i] == (owners[i] == b)
  {
    seq(|owners|, i requires 0 <= i < |owners| => owners[i] == b)
  }

  ghost function Below(owners: seq<nat>, m: nat): (counts: seq<bool>)
    ensures |counts| == |owners| && forall i :: 0 <= i < |owners| ==> counts[i] == (owners[i] < m)
  {
    seq(|owners|, i requires 0 <= i < |owners| => owners[i] < m)
  }

  /** Disjoint choices add up. */
  lemma {:induction false} TotalSplits(events: seq<Event>, a: seq<bool>, b: seq<bool>, either: seq<bool>, c: char)
    requires |a| == |b| == |either| == |events|
    requires forall i :: 0 <= i < |events| ==> !(a[i] && b[i]) && either[i] == (a[i] || b[i])
    ensures Total(events, either, c) == Total(events, a, c) + Total(events, b, c)
  {
    if events != [] {
      var n := |events| - 1;
      TotalSplits(events[..n], a[..n], b[..n], either[..n], c);
    }
  }

  lemma {:induction false} GatheredCount(events: seq<Event>, owners: seq<nat>, b: nat, c: char)
    requires |owners| == |events|
    ensures Count(Gathered(events, owners, b), c) == Total(events, Exactly(owners, b), c)
  {
    if events != [] {
      var n := |events| - 1;
      var more := if Shows(events[n]) && owners[n] == b then events[n].text else "";
      GatheredCount(events[..n], owners[..n], b, c);
      CountConcat(Gathered(events[..n], owners[..n], b), more, c);
      assert Exactly(owners, b)[..n] == Exactly(owners[..n], b);
    }
  }

  lemma {:induction false} BelowCount(events: seq<Event>, owners: seq<nat>, m: nat, c: char)
    requires |owners| == |events|
    ensures Count(GatheredBelow(events, owners, m), c) == Total(events, Below(owners, m), c)
  {
    if m == 0 {
      NoneCount(events, Below(owners, m), c);
    } else {
      BelowCount(events, owners, m - 1, c);
      GatheredCount(events, owners, m - 1, c);
      CountConcat(GatheredBelow(events, owners, m - 1), Gathered(events, owners, m - 1), c);
      TotalSplits(events, Below(owners, m - 1), Exactly(owners, m - 1), Below(owners, m), c);
    }
  }

  lemma {:induction false} NoneCount(events: seq<Event>, counts: seq<bool>, c: char)
    requires |counts| == |events| && forall i :: 0 <= i < |events| ==> !counts[i]
    ensures Total(events, counts, c) == 0
  {
    if events != [] {
      NoneCount(events[..|events| - 1], counts[..|events| - 1], c);
    }
  }

  /** When every event that shows counts, the total is that of all texts. */
  lemma {:induction false} AllCount(events: seq<Event>, counts: seq<bool>, c: char)
    requires |counts| == |events| && forall i :: 0 <= i < |events| && Shows(events[i]) ==> counts[i]
    ensures Total(events, counts, c) == Count(Texts(events), c)
  {
    if events != [] {
      var n := |events| - 1;
      AllCount(events[..n], counts[..n], c);
      CountConcat(Texts(events[..n]), if Shows(events[n]) then events[n].text else "", c);
    }
  }

  lemma {:induction false} BodiesAreGathered(messages: seq<Message>, events: seq<Event>, owners: seq<nat>, m: nat)
    requires BodiesOk(messages, events, owners) && m <= |messages|
    ensures Bodies(messages[..m]) == GatheredBelow(events, owners, m)
  {
    if m > 0 {
      BodiesAreGathered(messages, events, owners, m - 1);
      assert messages[..m][..m - 1] == messages[..m - 1];
    }
  }

  /** The bubbles together hold the characters of all events that show, each as often as it occurs. */
  lemma TextIsConserved(messages: seq<Message>, events: seq<Event>, owners: seq<nat>, c: char)
    requires IsTimeline(messages, events, owners)
    ensures Count(Bodies(messages), c) == Count(Texts(events), c)
  {
    hide InOrder, ByMessage, InStreams, AllShown, IdIsSound;
    BodiesAreGathered(messages, events, owners, |messages|);
    assert messages[..|messages|] == messages;
    BelowCount(events, owners, |messages|, c);
    AllCount(events, Below(owners, |messages|), c);
  }

  lemma EmptyTimeline(events: seq<Event>)
    ensures IsTimeline([], [], []) && ResolutionsOk([], events)
  {
  }

  /** Prompts, requests, tool updates and notices each have a bubble of their own, of their kind and with
    their text; a chunk is in one of its speaker; every bubble is the texts of its events in order. */
  method BuildTimeline(events: seq<Event>) returns (messages: seq<Message>, ghost owners: seq<nat>)
    requires AreEvents(events)
    ensures IsTimeline(messages, events, owners) && ResolutionsOk(messages, events)
    ensures AllShown(messages, events, owners) && |messages| == Bubbles(events, owners, |events|)
  {
    hide IsTimeline, ResolutionsOk, Placed, Target;
    var resolutions := CollectResolutions(events);
    messages, owners := [], [];
    EmptyTimeline(events);
    for i := 0 to |events|
      invariant IsTimeline(messages, events[..i], owners) && ResolutionsOk(messages, events)
    {
      var e := events[i];
      assert events[..i + 1] == events[..i] + [e];
      if Shows(e) {
        var resolution := if e.RequestEvent? then Get(resolutions, e.requestId) else None;
        PlacedKeeps(messages, events[..i], owners, e, resolution);
        ResolutionKept(messages, events, e, resolution);
        owners := owners + [Target(messages, e)];
        messages := AppendEvent(messages, e, resolution);
      } else {
        HiddenKeeps(messages, events[..i], owners, e);
        owners := owners + [0];
      }
    }
    assert events[..|events|] == events;
    WhatIsShown(messages, events, owners);
  }

  lemma WhatIsShown(messages: seq<Message>, events: seq<Event>, owners: seq<nat>)
    requires IsTimeline(messages, events, owners)
    ensures AllShown(messages, events, owners) && |messages| == Bubbles(events, owners, |events|)
  {
  }

  method AppendEvent(messages: seq<Message>, e: Event, resolution: Option<string>) returns (after: seq<Message>)
    requires Shows(e) && IsEvent(e)
    ensures after == Placed(messages, e, resolution)
  {
    if e.ChunkEvent? {
      if e.messageId != "" {
        var existing := IndexOf(messages, ChunkId(e.messageId, e.speaker));
        if existing < |messages| {
          return messages[existing := messages[existing].(body := messages[existing].body + e.text)];
        }
      } else if messages != [] {
        var previous := messages[|messages| - 1];
        if previous.kind == e.speaker && CHUNK <= previous.id {
          return messages[|messages| - 1 := previous.(body := previous.body + e.text)];
        }
      }
    }
    return messages + [NewMessage(e, resolution)];
  }
}
