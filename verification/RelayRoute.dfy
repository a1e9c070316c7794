/** The fan-out of frames to the endpoints of a route, from apps/relay/src/lib.rs and apps/relay/src/routes.rs. */
module RelayRoute {
  import opened Bytes
  import opened Outcomes
  import opened Protocol

  const CHANNEL_CAPACITY: nat := 256

  /** A frame and the endpoint that published it. */
  datatype RoutedFrame = RoutedFrame(endpointId: nat, frame: seq<Byte>)

  datatype Received = Frame(value: RoutedFrame) | Empty | Lagged

  /** What a receiver at position `next` gets, if only the last frames are kept. */
  function ReceiveAt(history: seq<RoutedFrame>, next: nat): Received {
    if next >= |history| then Empty
    else if |history| - next > CHANNEL_CAPACITY then Lagged
    else Frame(history[next])
  }

  /** The shared ring buffer of a route. */
  class Channel {
    var slots: array<RoutedFrame>
    var sent: nat
    ghost var history: seq<RoutedFrame>

    ghost predicate Valid()
      reads this, slots
    {
      && slots.Length == CHANNEL_CAPACITY && sent == |history|
      && forall k :: 0 <= k < |history| && |history| - k <= CHANNEL_CAPACITY ==>
        slots[k % CHANNEL_CAPACITY] == history[k]
    }

    constructor ()
      ensures Valid() && fresh(slots) && history == []
    {
      slots := new RoutedFrame[CHANNEL_CAPACITY](_ => RoutedFrame(0, []));
      sent, history := 0, [];
    }

    method Send(frame: RoutedFrame)
      requires Valid()
      modifies this, slots
      ensures Valid() && slots == old(slots) && history == old(history) + [frame]
    {
      slots[sent % CHANNEL_CAPACITY] := frame;
      sent := sent + 1;
      history := history + [frame];
    }

    /** The ring buffer behaves like the whole history with all but the last frames forgotten. */
    method Receive(next: nat) returns (r: Received)
      requires Valid()
      ensures r == ReceiveAt(history, next)
    {
      if next >= sent {
        return Empty;
      }
      if sent - next > CHANNEL_CAPACITY {
        return Lagged;
      }
      return Frame(slots[next % CHANNEL_CAPACITY]);
    }
  }

  // ----- what an endpoint gets

  /** The frames of others, in order. */
  function Others(id: nat, frames: seq<RoutedFrame>): seq<seq<Byte>> {
    if frames == [] then []
    else
      var last := frames[|frames| - 1];
      Others(id, frames[..|frames| - 1]) + if last.endpointId == id then [] else [last.frame]
  }

  datatype Endpoint = Endpoint(since: nat, next: nat, delivered: seq<seq<Byte>>, open: bool)

  /** A gap-free run of the route's frames since the endpoint subscribed, minus its own. */
  ghost predicate IsFaithful(id: nat, e: Endpoint, history: seq<RoutedFrame>) {
    e.since <= e.next <= |history| && e.delivered == Others(id, history[e.since..e.next])
  }

  /** One turn of the endpoint's writer. An own frame is passed over; an overrun closes the endpoint. */
  function Turned(id: nat, e: Endpoint, r: Received, reached: bool): Endpoint {
    match r
    case Empty => e
    case Lagged => e.(open := false)
    case Frame(f) =>
      if f.endpointId == id then e.(next := e.next + 1)
      else if reached then e.(next := e.next + 1, delivered := e.delivered + [f.frame])
      else e.(open := false)
  }

  lemma OthersGrow(id: nat, history: seq<RoutedFrame>, since: nat, next: nat)
    requires since <= next < |history|
    ensures Others(id, history[since..next + 1]) ==
      Others(id, history[since..next]) + if history[next].endpointId == id then [] else [history[next].frame]
  {
    assert history[since..next + 1][..next - since] == history[since..next];
  }

  lemma TurnIsFaithful(id: nat, e: Endpoint, history: seq<RoutedFrame>, reached: bool)
    requires IsFaithful(id, e, history) && e.open
    ensures IsFaithful(id, Turned(id, e, ReceiveAt(history, e.next), reached), history)
  {
    if e.next < |history| {
      OthersGrow(id, history, e.since, e.next);
    }
  }

  // ----- every run of a route

  datatype State = State(routeId: string, history: seq<RoutedFrame>, endpoints: map<nat, Endpoint>)

  datatype Step =
    | Attach(id: nat)
    | Publish(id: nat, frame: seq<Byte>)
    | Write(id: nat, reached: bool)
    | Detach(id: nat)

  /** The reader accepts a frame that decodes to a routable envelope for this route. */
  predicate Accepts(decode: seq<Byte> -> Option<RelayEnvelope>, isUuid: string -> bool, routeId: string,
                    frame: seq<Byte>) {
    && decode(frame).Some? && decode(frame).value.routeId == routeId
    && ValidateEnvelope(isUuid, decode(frame).value).Ok?
  }

  ghost predicate Next(decode: seq<Byte> -> Option<RelayEnvelope>, isUuid: string -> bool, s: State, step: Step,
                       t: State) {
    match step
    case Attach(id) =>
      id !in s.endpoints && t == s.(endpoints := s.endpoints[id := Endpoint(|s.history|, |s.history|, [], true)])
    case Publish(id, frame) =>
      && id in s.endpoints && Accepts(decode, isUuid, s.routeId, frame)
      && t == s.(history := s.history + [RoutedFrame(id, frame)])
    case Write(id, reached) =>
      && id in s.endpoints && s.endpoints[id].open
      && var e := s.endpoints[id];
         t == s.(endpoints := s.endpoints[id := Turned(id, e, ReceiveAt(s.history, e.next), reached)])
    case Detach(id) =>
      id in s.endpoints && t == s.(endpoints := s.endpoints[id := s.endpoints[id].(open := false)])
  }

  ghost predicate EndpointOk(s: State, id: nat) {
    id in s.endpoints ==> IsFaithful(id, s.endpoints[id], s.history)
  }

  ghost predicate Good(decode: seq<Byte> -> Option<RelayEnvelope>, isUuid: string -> bool, s: State) {
    && (forall id :: EndpointOk(s, id))
    && forall f :: f in s.history ==> Accepts(decode, isUuid, s.routeId, f.frame)
  }

  lemma EndpointKept(decode: seq<Byte> -> Option<RelayEnvelope>, isUuid: string -> bool, s: State, step: Step,
                     t: State, id: nat)
    requires EndpointOk(s, id) && Next(decode, isUuid, s, step, t)
    ensures EndpointOk(t, id)
  {
    if id in s.endpoints {
      var e := s.endpoints[id];
      if step.Publish? {
        assert t.history[e.since..e.next] == s.history[e.since..e.next];
      } else if step.Write? && step.id == id {
        TurnIsFaithful(id, e, s.history, step.reached);
      }
    } else if step.Attach? {
      assert s.history[|s.history|..] == [];
    }
  }

  lemma GoodKept(decode: seq<Byte> -> Option<RelayEnvelope>, isUuid: string -> bool, s: State, step: Step, t: State)
    requires Good(decode, isUuid, s) && Next(decode, isUuid, s, step, t)
    ensures Good(decode, isUuid, t) && t.routeId == s.routeId
  {
    forall id: nat ensures EndpointOk(t, id) {
      EndpointKept(decode, isUuid, s, step, t, id);
    }
  }

  ghost predicate IsRun(decode: seq<Byte> -> Option<RelayEnvelope>, isUuid: string -> bool, states: seq<State>,
                        steps: seq<Step>) {
    && |states| == |steps| + 1 && states[0].history == [] && states[0].endpoints == map[]
    && forall i :: 0 <= i < |steps| ==> Next(decode, isUuid, states[i], steps[i], states[i + 1])
  }

  lemma {:induction false} RunIsGood(decode: seq<Byte> -> Option<RelayEnvelope>, isUuid: string -> bool,
                                     states: seq<State>, steps: seq<Step>, k: nat)
    requires IsRun(decode, isUuid, states, steps) && k <= |steps|
    ensures Good(decode, isUuid, states[k]) && states[k].routeId == states[0].routeId
  {
    if k > 0 {
      RunIsGood(decode, isUuid, states, steps, k - 1);
      GoodKept(decode, isUuid, states[k - 1], steps[k - 1], states[k]);
    }
  }

  /** At every moment of every run, what an endpoint has received is a gap-free run of the frames
    published since it attached, minus its own, and every such frame is a routable envelope for
    this route. */
  lemma FanOutIsFaithful(decode: seq<Byte> -> Option<RelayEnvelope>, isUuid: string -> bool,
                         states: seq<State>, steps: seq<Step>, k: nat, id: nat)
    requires IsRun(decode, isUuid, states, steps) && k <= |steps| && id in states[k].endpoints
    ensures IsFaithful(id, states[k].endpoints[id], states[k].history)
    ensures forall i :: 0 <= i < |states[k].endpoints[id].delivered| ==>
      Accepts(decode, isUuid, states[0].routeId, states[k].endpoints[id].delivered[i])
  {
    RunIsGood(decode, isUuid, states, steps, k);
    assert EndpointOk(states[k], id);
    var e := states[k].endpoints[id];
    forall i | 0 <= i < |e.delivered| ensures Accepts(decode, isUuid, states[0].routeId, e.delivered[i]) {
      var f := OthersAreFrames(id, states[k].history[e.since..e.next], i);
    }
  }

  /** The frames of others are exactly those at the positions `at`, in order. */
  lemma {:induction false} OthersAre(id: nat, frames: seq<RoutedFrame>) returns (at: seq<nat>)
    ensures |at| == |Others(id, frames)| && (forall i, j :: 0 <= i < j < |at| ==> at[i] < at[j])
    ensures forall i :: 0 <= i < |at| ==> at[i] < |frames| && Others(id, frames)[i] == frames[at[i]].frame
    ensures forall k :: 0 <= k < |frames| ==> (frames[k].endpointId != id <==> k in at)
  {
    if frames == [] {
      at := [];
    } else {
      var n := |frames| - 1;
      at := OthersAre(id, frames[..n]);
      if frames[n].endpointId != id {
        at := at + [n];
      }
    }
  }

  lemma {:induction false} OthersAreFrames(id: nat, frames: seq<RoutedFrame>, i: nat) returns (f: RoutedFrame)
    requires i < |Others(id, frames)|
    ensures f in frames && f.frame == Others(id, frames)[i] && f.endpointId != id
    decreases |frames|
  {
    var n := |frames| - 1;
    if i < |Others(id, frames[..n])| {
      f := OthersAreFrames(id, frames[..n], i);
    } else {
      f := frames[n];
    }
  }

  /** Once closed, an endpoint stays closed and gets nothing more. */
  lemma {:induction false} ClosedStays(decode: seq<Byte> -> Option<RelayEnvelope>, isUuid: string -> bool,
                                       states: seq<State>, steps: seq<Step>, j: nat, k: nat, id: nat)
    requires IsRun(decode, isUuid, states, steps) && j <= k <= |steps|
    requires id in states[j].endpoints && !states[j].endpoints[id].open
    ensures id in states[k].endpoints && states[k].endpoints[id] == states[j].endpoints[id]
    decreases k - j
  {
    if j < k {
      ClosedStays(decode, isUuid, states, steps, j, k - 1, id);
      assert Next(decode, isUuid, states[k - 1], steps[k - 1], states[k]);
    }
  }

  /** A turn of an endpoint that has fallen more than the capacity behind closes it: at no later
    moment of the run is it open or has received more. A turn of any other endpoint that is
    behind, and whose peer takes frames, brings the next frame of another endpoint. */
  lemma OverrunCloses(decode: seq<Byte> -> Option<RelayEnvelope>, isUuid: string -> bool,
                      states: seq<State>, steps: seq<Step>, j: nat, k: nat, id: nat, reached: bool)
    requires IsRun(decode, isUuid, states, steps) && j < k <= |steps| && steps[j] == Write(id, reached)
    ensures id in states[j].endpoints && id in states[j + 1].endpoints && id in states[k].endpoints
    ensures var before, after := states[j].endpoints[id], states[j + 1].endpoints[id];
      var history := states[j].history;
      if |history| - before.next > 256 then
        !states[k].endpoints[id].open && states[k].endpoints[id].delivered == before.delivered
      else if |history| <= before.next then after == before
      else if history[before.next].endpointId == id then
        after.open && after.next == before.next + 1 && after.delivered == before.delivered
      else if reached then
        after.open && after.next == before.next + 1
          && after.delivered == before.delivered + [history[before.next].frame]
      else !states[k].endpoints[id].open && states[k].endpoints[id].delivered == before.delivered
  {
    assert Next(decode, isUuid, states[j], steps[j], states[j + 1]);
    if !states[j + 1].endpoints[id].open {
      ClosedStays(decode, isUuid, states, steps, j + 1, k, id);
    } else {
      EndpointsStay(decode, isUuid, states, steps, j + 1, k, id);
    }
  }

  lemma {:induction false} EndpointsStay(decode: seq<Byte> -> Option<RelayEnvelope>, isUuid: string -> bool,
                                         states: seq<State>, steps: seq<Step>, j: nat, k: nat, id: nat)
    requires IsRun(decode, isUuid, states, steps) && j <= k <= |steps| && id in states[j].endpoints
    ensures id in states[k].endpoints
    decreases k - j
  {
    if j < k {
      EndpointsStay(decode, isUuid, states, steps, j, k - 1, id);
      assert Next(decode, isUuid, states[k - 1], steps[k - 1], states[k]);
    }
  }

  // ----- the source's socket

  class Socket {
    const id: nat
    const channel: Channel
    var since: nat
    var next: nat
    var delivered: seq<seq<Byte>>
    var open: bool

    ghost predicate Valid()
      reads this, channel, channel.slots
    {
      channel.Valid() && IsFaithful(id, View(), channel.history)
    }

    ghost function View(): Endpoint
      reads this
    {
      Endpoint(since, next, delivered, open)
    }

    constructor (id: nat, channel: Channel)
      requires channel.Valid()
      ensures Valid() && this.id == id && this.channel == channel && open && next == |channel.history|
    {
      this.id, this.channel := id, channel;
      since, next, delivered, open := channel.sent, channel.sent, [], true;
      new;
      assert channel.history[|channel.history|..] == [];
    }

    /** One turn of the writer; `reached` is whether the peer takes the frame. */
    method Write(reached: bool)
      requires Valid() && open
      modifies this
      ensures Valid() && View() == Turned(id, old(View()), ReceiveAt(channel.history, old(next)), reached)
    {
      TurnIsFaithful(id, View(), channel.history, reached);
      var r := channel.Receive(next);
      match r
      case Empty =>
      case Lagged => open := false;
      case Frame(f) =>
        if f.endpointId == id {
          next := next + 1;
        } else if reached {
          next, delivered := next + 1, delivered + [f.frame];
        } else {
          open := false;
        }
    }

    /** The reader for one binary frame: forward it or give up. */
    method Read(decode: seq<Byte> -> Option<RelayEnvelope>, isUuid: string -> bool, routeId: string, frame: seq<Byte>)
      returns (forwarded: bool)
      requires Valid()
      modifies channel, channel.slots
      ensures Valid() && channel.slots == old(channel.slots)
      ensures forwarded <==> Accepts(decode, isUuid, routeId, frame)
      ensures channel.history
        == if forwarded then old(channel.history) + [RoutedFrame(id, frame)] else old(channel.history)
      ensures View() == old(View())
    {
      var envelope := decode(frame);
      if envelope.None? {
        return false;
      }
      if envelope.value.routeId != routeId || ValidateEnvelope(isUuid, envelope.value).Err? {
        return false;
      }
      channel.Send(RoutedFrame(id, frame));
      assert channel.history[since..next] == old(channel.history[since..next]);
      return true;
    }
  }
}
