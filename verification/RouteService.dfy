/** The host's serve loop over one relay route, from apps/leave/src/relay_tunnel.rs.

  The MLS group is abstract: a frame either opens to a sender and a plaintext or does not, adding
  and removing a member either happens as a whole or not at all, and what the environment does to
  a frame is part of the arrival. Request decoding is a given function.
 */
module RouteService {
  import opened Bytes
  import opened Outcomes
  import opened Protocol
  import opened Pairing
  import opened Tunnel

  datatype DeviceGrant = DeviceGrant(role: Role, capabilities: set<Capability>)

  const NEWLY_PAIRED := DeviceGrant(Operator, {})

  type Decoder = seq<Byte> -> Option<TunnelRequest>

  datatype OpenedMessage = OpenedMessage(sender: string, plaintext: seq<Byte>)

  /** A frame, and how the group, the router and the connection respond while it is handled. */
  datatype Arrival = Arrival(frame: seq<Byte>, opens: Option<OpenedMessage>, joins: Option<string>, removes: bool,
                             routerStatus: Option<nat>, seals: bool, sends: bool)

  datatype Reply = Reply(exchangeId: string, status: nat)

  /** A request that reached the router, and the grant its sender held at that moment. */
  datatype Call = Call(sender: string, request: TunnelRequest, grant: DeviceGrant)

  datatype State = State(deviceId: string, members: seq<string>, registry: map<string, DeviceGrant>,
                         pairing: Option<Tag>, admitted: seq<string>,
                         calls: seq<Call>, replies: seq<Reply>, ended: bool)

  // ----- the pure parts

  predicate Permitted(registry: map<string, DeviceGrant>, sender: string, verb: string, path: string) {
    sender in registry && Authorize(registry[sender].role, registry[sender].capabilities, ActionFor(verb, path))
  }

  const DEVICES: string := "/api/v1/local/devices/"

  /** The device a request asks to revoke, if that is what it is asking. */
  function RevocationTarget(decode: Decoder, message: OpenedMessage): Option<string> {
    match decode(message.plaintext)
    case None => None
    case Some(r) =>
      if r.verb != "DELETE" || !(DEVICES <= r.path) then None
      else
        var device := r.path[|DEVICES|..];
        if device != "" && '/' !in device then Some(device) else None
  }

  /** The first member without a grant other than the host itself. */
  function NewestDevice(deviceId: string, members: seq<string>, registry: map<string, DeviceGrant>): (d: Option<string>)
    ensures d.Some? ==> d.value in members && d.value != deviceId && d.value !in registry
    ensures d.None? ==> forall m :: m in members ==> m == deviceId || m in registry
  {
    if members == [] then None
    else if members[0] != deviceId && members[0] !in registry then Some(members[0])
    else NewestDevice(deviceId, members[1..], registry)
  }

  /** The members without the first one of that name. */
  function RemoveFirst(members: seq<string>, name: string): (rest: seq<string>)
    ensures forall m :: m in members && m != name ==> m in rest
    ensures forall m :: m in rest ==> m in members
  {
    if members == [] then []
    else if members[0] == name then members[1..]
    else [members[0]] + RemoveFirst(members[1..], name)
  }

  function ExchangeOf(decode: Decoder, message: OpenedMessage): string {
    match decode(message.plaintext) case None => "" case Some(r) => r.exchangeId
  }

  // ----- one arrival

  /** The group and the registry after a revocation, and the answer. */
  function Revoked(decode: Decoder, s: State, message: OpenedMessage, target: string, removes: bool): (State, Reply) {
    var exchange := ExchangeOf(decode, message);
    if message.sender !in s.registry
      || !Authorize(s.registry[message.sender].role, s.registry[message.sender].capabilities, ManageMembers)
    then (s, Reply(exchange, 403))
    else if target == message.sender then (s, Reply(exchange, 400))
    else if target !in s.members || !removes then (s, Reply(exchange, 404))
    else (s.(members := RemoveFirst(s.members, target), registry := s.registry - {target}), Reply(exchange, 204))
  }

  function Handled(decode: Decoder, s: State, message: OpenedMessage, routerStatus: Option<nat>): (State, Reply) {
    match decode(message.plaintext)
    case None => (s, Reply("unknown", 400))
    case Some(r) =>
      if Validate(r).Err? then (s, Reply(r.exchangeId, 400))
      else if !Permitted(s.registry, message.sender, r.verb, r.path) then (s, Reply(r.exchangeId, 403))
      else
        (s.(calls := s.calls + [Call(message.sender, r, s.registry[message.sender])]),
         Reply(r.exchangeId, if routerStatus.Some? then routerStatus.value else 500))
  }

  function Answered(decode: Decoder, s: State, message: OpenedMessage, a: Arrival): (State, Reply) {
    match RevocationTarget(decode, message)
    case Some(target) => Revoked(decode, s, message, target, a.removes)
    case None => Handled(decode, s, message, a.routerStatus)
  }

  /** A pairing code admits one device and closes. */
  ghost function Paired(s: State, a: Arrival): State {
    if s.pairing.None? || Accepted(s.pairing.value, a.frame).Err? || a.joins.None? then s
    else
      var t := s.(members := s.members + [a.joins.value], admitted := s.admitted + [a.joins.value]);
      if !a.sends then t.(ended := true)
      else
        var device := NewestDevice(t.deviceId, t.members, t.registry);
        t.(registry := if device.Some? then t.registry[device.value := NEWLY_PAIRED] else t.registry, pairing := None)
  }

  ghost function Served(decode: Decoder, s: State, a: Arrival): State {
    if s.ended then s
    else if IsPairingFrame(a.frame) then Paired(s, a)
    else
      match a.opens
      case None => s
      case Some(message) =>
        var (t, reply) := Answered(decode, s, message, a);
        if a.seals && a.sends then t.(replies := t.replies + [reply]) else t.(ended := true)
  }

  ghost function ServedAll(decode: Decoder, s: State, arrivals: seq<Arrival>): State {
    if arrivals == [] then s
    else Served(decode, ServedAll(decode, s, arrivals[..|arrivals| - 1]), arrivals[|arrivals| - 1])
  }

  // ----- what every run keeps

  ghost predicate KeysAreMembers(s: State) {
    forall device :: device in s.registry ==> device in s.members
  }

  /** A grant is an old one or that of a newly paired device. */
  ghost predicate GrantsAreOldOrNew(start: map<string, DeviceGrant>, s: State) {
    forall device :: device in s.registry ==>
      s.registry[device] == NEWLY_PAIRED || (device in start && s.registry[device] == start[device])
  }

  ghost predicate IsAuthorized(c: Call) {
    IsAcceptable(c.request) && Authorize(c.grant.role, c.grant.capabilities, ActionFor(c.request.verb, c.request.path))
  }

  /** At most one device is admitted while the code shows, and none afterwards. */
  ghost predicate PairsOnce(s: State) {
    |s.admitted| <= 1 && (s.admitted != [] ==> s.pairing.None? || s.ended)
  }

  ghost predicate Good(start: map<string, DeviceGrant>, s: State) {
    GrantsAreOldOrNew(start, s) && PairsOnce(s) && forall c :: c in s.calls ==> IsAuthorized(c)
  }

  lemma ServedKeepsMembers(decode: Decoder, s: State, a: Arrival)
    requires KeysAreMembers(s)
    ensures KeysAreMembers(Served(decode, s, a))
  {
  }

  lemma GrantsKept(decode: Decoder, start: map<string, DeviceGrant>, s: State, a: Arrival)
    requires GrantsAreOldOrNew(start, s)
    ensures GrantsAreOldOrNew(start, Served(decode, s, a))
  {
    hide Accepted, IsPairingFrame, RevocationTarget, Authorize, Validate, Permitted, NewestDevice;
  }

  lemma PairsOnceKept(decode: Decoder, s: State, a: Arrival)
    requires PairsOnce(s)
    ensures PairsOnce(Served(decode, s, a))
  {
    hide Accepted, IsPairingFrame, RevocationTarget, Authorize, Validate, Permitted, NewestDevice;
  }

  lemma CallsKept(decode: Decoder, s: State, a: Arrival)
    requires forall c :: c in s.calls ==> IsAuthorized(c)
    ensures forall c :: c in Served(decode, s, a).calls ==> IsAuthorized(c)
  {
    CallsNeedAGrant(decode, s, a);
    hide Served, IsAuthorized;
    var t := Served(decode, s, a);
    if t.calls != s.calls {
      var n := |t.calls| - 1;
      assert t.calls == s.calls + [t.calls[n]];
    }
  }

  lemma ServedKeeps(decode: Decoder, start: map<string, DeviceGrant>, s: State, a: Arrival)
    requires Good(start, s)
    ensures Good(start, Served(decode, s, a))
  {
    hide Served, GrantsAreOldOrNew, PairsOnce, IsAuthorized;
    GrantsKept(decode, start, s, a);
    PairsOnceKept(decode, s, a);
    CallsKept(decode, s, a);
  }

  /** Whatever frames arrive: registered devices stay members, at most one device is admitted, grants
    never grow, and the router is only called for acceptable requests that the sender's grant
    authorizes. */
  lemma {:induction false} ServingIsSafe(decode: Decoder, s: State, arrivals: seq<Arrival>)
    requires KeysAreMembers(s) && s.admitted == [] && s.calls == []
    ensures var t := ServedAll(decode, s, arrivals);
      KeysAreMembers(t) && Good(s.registry, t)
  {
    if arrivals != [] {
      var n := |arrivals| - 1;
      ServingIsSafe(decode, s, arrivals[..n]);
      ServedKeepsMembers(decode, ServedAll(decode, s, arrivals[..n]), arrivals[n]);
      ServedKeeps(decode, s.registry, ServedAll(decode, s, arrivals[..n]), arrivals[n]);
    }
  }

  /** A call reaches the router only for a sender that holds a grant at that moment. */
  lemma CallsNeedAGrant(decode: Decoder, s: State, a: Arrival)
    ensures var t := Served(decode, s, a);
      t.calls == s.calls ||
      (a.opens.Some? && a.opens.value.sender in s.registry && t.calls != [] && t.calls[..|t.calls| - 1] == s.calls
        && var c := t.calls[|t.calls| - 1];
           c.sender == a.opens.value.sender && c.grant == s.registry[c.sender] && IsAuthorized(c))
  {
  }

  // ----- what an opened frame does

  /** The sender may make the request now. */
  ghost predicate MayCall(registry: map<string, DeviceGrant>, sender: string, r: TunnelRequest) {
    && IsAcceptable(r) && sender in registry
    && Authorize(registry[sender].role, registry[sender].capabilities, ActionFor(r.verb, r.path))
  }

  /** A request that revokes nobody reaches the router exactly when it is acceptable and authorized, and
    the answer tells which: 400, 403, what the router says, or 500 if it fails. */
  lemma RequestIsHandled(decode: Decoder, s: State, message: OpenedMessage, a: Arrival)
    requires RevocationTarget(decode, message).None?
    ensures var (t, reply) := Answered(decode, s, message, a);
      match decode(message.plaintext)
      case None => t == s && reply.status == 400
      case Some(r) =>
        if MayCall(s.registry, message.sender, r) then
          && t == s.(calls := s.calls + [Call(message.sender, r, s.registry[message.sender])])
          && reply.status == match a.routerStatus { case None => 500 case Some(status) => status }
        else t == s && reply.status == if IsAcceptable(r) then 403 else 400
  {
    hide IsAcceptable, Authorize, ActionFor, RevocationTarget;
  }

  /** What counts as a revocation. */
  lemma RevocationIs(decode: Decoder, message: OpenedMessage, device: string)
    ensures RevocationTarget(decode, message) == Some(device) <==>
      && decode(message.plaintext).Some? && decode(message.plaintext).value.verb == "DELETE"
      && decode(message.plaintext).value.path == "/api/v1/local/devices/" + device
      && device != "" && '/' !in device
  {
    if decode(message.plaintext).Some? {
      var path := decode(message.plaintext).value.path;
      if DEVICES <= path {
        assert path == DEVICES + path[|DEVICES|..];
      } else {
        assert path != DEVICES + device;
      }
      if path == DEVICES + device {
        assert path[|DEVICES|..] == device;
      }
    }
  }

  /** Only an owner revokes, and only another member; then that member and its grant are gone, and nobody
    else's. Every other revocation changes nothing. */
  lemma RevocationIsHandled(decode: Decoder, s: State, message: OpenedMessage, a: Arrival, target: string)
    requires RevocationTarget(decode, message) == Some(target)
    ensures var (t, reply) := Answered(decode, s, message, a);
      var owner := message.sender in s.registry && s.registry[message.sender].role == Owner;
      if owner && target != message.sender && target in s.members && a.removes then
        && reply.status == 204
        && t == s.(members := t.members, registry := s.registry - {target})
        && exists i :: IsWithout(s.members, t.members, i) && s.members[i] == target
      else
        t == s && reply.status == if !owner then 403 else if target == message.sender then 400 else 404
  {
    hide RevocationTarget;
    if target in s.members {
      var i := RemoveFirstIs(s.members, target);
    }
  }

  ghost predicate IsWithout(all: seq<string>, rest: seq<string>, i: int) {
    0 <= i < |all| && rest == all[..i] + all[i + 1..]
  }

  lemma {:induction false} RemoveFirstIs(members: seq<string>, name: string) returns (i: nat)
    requires name in members
    ensures IsWithout(members, RemoveFirst(members, name), i) && members[i] == name
  {
    if members[0] == name {
      i := 0;
    } else {
      var k := RemoveFirstIs(members[1..], name);
      i := k + 1;
      assert members[..i] == [members[0]] + members[1..][..k] && members[i + 1..] == members[1..][k + 1..];
    }
  }

  /** The calls that the arrivals ought to make, each under the grants of its moment. */
  ghost function CallsDue(decode: Decoder, s: State, arrivals: seq<Arrival>): seq<Call> {
    if arrivals == [] then []
    else
      var n := |arrivals| - 1;
      CallsDue(decode, s, arrivals[..n]) + CallDue(decode, ServedAll(decode, s, arrivals[..n]), arrivals[n])
  }

  ghost function CallDue(decode: Decoder, s: State, a: Arrival): seq<Call> {
    if s.ended || IsPairingFrame(a.frame) || a.opens.None? || RevocationTarget(decode, a.opens.value).Some? then []
    else
      match decode(a.opens.value.plaintext)
      case None => []
      case Some(r) =>
        if MayCall(s.registry, a.opens.value.sender, r)
        then [Call(a.opens.value.sender, r, s.registry[a.opens.value.sender])] else []
  }

  lemma CallIsMade(decode: Decoder, s: State, a: Arrival)
    ensures Served(decode, s, a).calls == s.calls + CallDue(decode, s, a)
  {
    hide MayCall, Revoked, Handled, RevocationTarget;
    if !s.ended && !IsPairingFrame(a.frame) && a.opens.Some? {
      if RevocationTarget(decode, a.opens.value).None? {
        RequestIsHandled(decode, s, a.opens.value, a);
      } else {
        RevocationIsHandled(decode, s, a.opens.value, a, RevocationTarget(decode, a.opens.value).value);
      }
    }
  }

  /** Over every frame sequence the router gets exactly the acceptable requests that were authorized when
    they came, in order. */
  lemma {:induction false} EveryCallIsMade(decode: Decoder, s: State, arrivals: seq<Arrival>)
    ensures ServedAll(decode, s, arrivals).calls == s.calls + CallsDue(decode, s, arrivals)
  {
    if arrivals != [] {
      var n := |arrivals| - 1;
      EveryCallIsMade(decode, s, arrivals[..n]);
      CallIsMade(decode, ServedAll(decode, s, arrivals[..n]), arrivals[n]);
    }
  }

  // ----- which frames are answered, and when the loop ends

  predicate IsRequest(a: Arrival) {
    !IsPairingFrame(a.frame) && a.opens.Some?
  }

  /** The arrivals that open or are pairing frames. */
  function Meaningful(arrivals: seq<Arrival>): seq<Arrival> {
    if arrivals == [] then []
    else
      var n := |arrivals| - 1;
      Meaningful(arrivals[..n])
      + if IsRequest(arrivals[n]) || IsPairingFrame(arrivals[n].frame) then [arrivals[n]] else []
  }

  /** Frames that do not open can be left out of any run: the state does not depend on them. */
  lemma {:induction false} UnopenedFramesDoNotMatter(decode: Decoder, s: State, arrivals: seq<Arrival>)
    ensures ServedAll(decode, s, arrivals) == ServedAll(decode, s, Meaningful(arrivals))
  {
    if arrivals != [] {
      var n := |arrivals| - 1;
      var kept, last := Meaningful(arrivals[..n]), arrivals[n];
      UnopenedFramesDoNotMatter(decode, s, arrivals[..n]);
      if IsRequest(last) || IsPairingFrame(last.frame) {
        assert (kept + [last])[..|kept|] == kept;
      } else {
        assert Meaningful(arrivals) == kept;
      }
    }
  }

  /** The arrival breaks the loop: an answer cannot be sealed or sent, or the welcome cannot be sent. */
  ghost predicate Ends(s: State, a: Arrival) {
    if IsPairingFrame(a.frame) then
      s.pairing.Some? && Accepted(s.pairing.value, a.frame).Ok? && a.joins.Some? && !a.sends
    else a.opens.Some? && !(a.seals && a.sends)
  }

  lemma {:induction false} EndedStays(decode: Decoder, s: State, arrivals: seq<Arrival>)
    requires s.ended
    ensures ServedAll(decode, s, arrivals) == s
  {
    if arrivals != [] { EndedStays(decode, s, arrivals[..|arrivals| - 1]); }
  }

  /** The answers to the requests among the arrivals, each from the state it arrived in. */
  ghost function RepliesTo(decode: Decoder, s: State, arrivals: seq<Arrival>): seq<Reply> {
    if arrivals == [] then []
    else
      var n := |arrivals| - 1;
      var last, before := arrivals[n], ServedAll(decode, s, arrivals[..n]);
      RepliesTo(decode, s, arrivals[..n])
      + if IsRequest(last) then [Answered(decode, before, last.opens.value, last).1] else []
  }

  function RequestsIn(arrivals: seq<Arrival>): seq<OpenedMessage> {
    if arrivals == [] then []
    else
      var n := |arrivals| - 1;
      RequestsIn(arrivals[..n]) + if IsRequest(arrivals[n]) then [arrivals[n].opens.value] else []
  }

  function ExchangeNamed(decode: Decoder, message: OpenedMessage): string {
    match decode(message.plaintext) case None => "unknown" case Some(r) => r.exchangeId
  }

  /** Every request has its own answer, in order and under its own exchange identifier. */
  lemma {:induction false} RepliesMatchRequests(decode: Decoder, s: State, arrivals: seq<Arrival>)
    ensures |RepliesTo(decode, s, arrivals)| == |RequestsIn(arrivals)|
    ensures forall k :: 0 <= k < |RequestsIn(arrivals)| ==>
      RepliesTo(decode, s, arrivals)[k].exchangeId == ExchangeNamed(decode, RequestsIn(arrivals)[k])
  {
    if arrivals != [] {
      var n := |arrivals| - 1;
      RepliesMatchRequests(decode, s, arrivals[..n]);
      if IsRequest(arrivals[n]) {
        AnswerNamesExchange(decode, ServedAll(decode, s, arrivals[..n]), arrivals[n].opens.value, arrivals[n]);
      }
    }
  }

  lemma AnswerNamesExchange(decode: Decoder, s: State, message: OpenedMessage, a: Arrival)
    ensures Answered(decode, s, message, a).1.exchangeId == ExchangeNamed(decode, message)
  {
  }

  lemma ServedReplies(decode: Decoder, s: State, a: Arrival)
    requires !s.ended
    ensures Served(decode, s, a).ended <==> Ends(s, a)
    ensures Served(decode, s, a).replies
      == s.replies + if IsRequest(a) && !Ends(s, a) then [Answered(decode, s, a.opens.value, a).1] else []
  {
  }

  /** As long as the loop runs, the answers sent are those to all requests so far. */
  lemma {:induction false} EveryRequestIsAnswered(decode: Decoder, s: State, arrivals: seq<Arrival>)
    requires !s.ended && !ServedAll(decode, s, arrivals).ended
    ensures ServedAll(decode, s, arrivals).replies == s.replies + RepliesTo(decode, s, arrivals)
  {
    if arrivals != [] {
      var n := |arrivals| - 1;
      var before := ServedAll(decode, s, arrivals[..n]);
      EveryRequestIsAnswered(decode, s, arrivals[..n]);
      ServedReplies(decode, before, arrivals[n]);
    }
  }

  /** Arrival `k` is the one that ends the loop. */
  ghost predicate EndsAt(decode: Decoder, s: State, arrivals: seq<Arrival>, k: int) {
    && 0 <= k < |arrivals|
    && !ServedAll(decode, s, arrivals[..k]).ended && Ends(ServedAll(decode, s, arrivals[..k]), arrivals[k])
  }

  /** The loop ends exactly when some arrival ends it, and then the answers sent are those to the
    requests before that arrival. */
  lemma {:induction false} RunEndsWhen(decode: Decoder, s: State, arrivals: seq<Arrival>)
    requires !s.ended
    ensures ServedAll(decode, s, arrivals).ended <==> exists k :: EndsAt(decode, s, arrivals, k)
    ensures forall k :: EndsAt(decode, s, arrivals, k) ==>
      ServedAll(decode, s, arrivals).replies == s.replies + RepliesTo(decode, s, arrivals[..k])
  {
    if arrivals != [] {
      var n := |arrivals| - 1;
      var front := arrivals[..n];
      var before := ServedAll(decode, s, front);
      RunEndsWhen(decode, s, front);
      assert forall k :: 0 <= k <= n ==> arrivals[..k] == front[..k];
      assert forall k :: k != n ==> (EndsAt(decode, s, arrivals, k) <==> EndsAt(decode, s, front, k));
      if !before.ended {
        ServedReplies(decode, before, arrivals[n]);
        EveryRequestIsAnswered(decode, s, front);
        assert EndsAt(decode, s, arrivals, n) <==> Ends(before, arrivals[n]);
      } else {
        assert !EndsAt(decode, s, arrivals, n);
      }
    }
  }

  /** Membership shrinks only when an owner removes another device, which is then unregistered. */
  lemma OnlyOwnersRevoke(decode: Decoder, s: State, a: Arrival)
    requires var t := Served(decode, s, a); |t.members| < |s.members| || exists d :: d in s.registry && d !in t.registry
    ensures a.opens.Some? && a.opens.value.sender in s.registry && s.registry[a.opens.value.sender].role == Owner
    ensures RevocationTarget(decode, a.opens.value).Some?
    ensures var target := RevocationTarget(decode, a.opens.value).value;
      && target != a.opens.value.sender && target in s.members
      && Served(decode, s, a).registry == s.registry - {target}
      && Served(decode, s, a).members == RemoveFirst(s.members, target)
  {
  }

  // ----- from a fresh group

  /** The state in which a route is opened. */
  ghost predicate IsFresh(s: State) {
    s.members == [s.deviceId] && s.registry == map[] && s.admitted == [] && s.calls == [] && !s.ended
  }

  /** The host and at most one phone, which holds the grant of a newly paired device or none. */
  ghost predicate OnePhone(deviceId: string, s: State) {
    && s.members == [deviceId] + s.admitted && |s.admitted| <= 1
    && (s.admitted != [] ==> s.pairing.None? || s.ended)
    && forall device :: device in s.registry ==> device in s.admitted && s.registry[device] == NEWLY_PAIRED
  }

  /** Nobody who is not an owner revokes. */
  lemma RefusedRevocation(decode: Decoder, s: State, message: OpenedMessage, target: string, removes: bool)
    requires OnePhone(s.deviceId, s)
    ensures Revoked(decode, s, message, target, removes) == (s, Reply(ExchangeOf(decode, message), 403))
  {
  }

  lemma PairingAddsOne(s: State, a: Arrival)
    requires OnePhone(s.deviceId, s) && !s.ended
    ensures OnePhone(s.deviceId, Paired(s, a)) && Paired(s, a).deviceId == s.deviceId
  {
    hide Accepted;
  }

  lemma AnsweringAddsNone(decode: Decoder, s: State, message: OpenedMessage, a: Arrival)
    requires OnePhone(s.deviceId, s)
    ensures var t := Answered(decode, s, message, a).0; t == s.(calls := t.calls)
  {
    hide Validate, Permitted, RevocationTarget;
    if RevocationTarget(decode, message).Some? {
      RefusedRevocation(decode, s, message, RevocationTarget(decode, message).value, a.removes);
      hide Revoked;
    }
  }

  lemma OnePhoneKept(decode: Decoder, s: State, a: Arrival)
    requires OnePhone(s.deviceId, s)
    ensures OnePhone(s.deviceId, Served(decode, s, a)) && Served(decode, s, a).deviceId == s.deviceId
  {
    hide Paired, Answered, IsPairingFrame;
    if !s.ended && IsPairingFrame(a.frame) {
      PairingAddsOne(s, a);
    } else if a.opens.Some? {
      AnsweringAddsNone(decode, s, a.opens.value, a);
    }
  }

  /** In every run the group is the host and the one device that was admitted, if any: nobody is ever removed. */
  lemma {:induction false} NobodyIsRemoved(decode: Decoder, s: State, arrivals: seq<Arrival>)
    requires IsFresh(s)
    ensures OnePhone(s.deviceId, ServedAll(decode, s, arrivals))
    ensures ServedAll(decode, s, arrivals).deviceId == s.deviceId
  {
    if arrivals != [] {
      var n := |arrivals| - 1;
      NobodyIsRemoved(decode, s, arrivals[..n]);
      OnePhoneKept(decode, ServedAll(decode, s, arrivals[..n]), arrivals[n]);
    }
  }

  /** No device ever becomes an owner, so in every run every revocation is refused. */
  lemma RevocationsAreRefused(decode: Decoder, s: State, arrivals: seq<Arrival>, message: OpenedMessage, a: Arrival)
    requires IsFresh(s) && RevocationTarget(decode, message).Some?
    ensures var t := ServedAll(decode, s, arrivals);
      Answered(decode, t, message, a) == (t, Reply(ExchangeOf(decode, message), 403))
  {
    var t := ServedAll(decode, s, arrivals);
    NobodyIsRemoved(decode, s, arrivals);
    hide RevocationTarget, Revoked;
    RefusedRevocation(decode, t, message, RevocationTarget(decode, message).value, a.removes);
  }

  /** Starting from an empty registry, no device ever gets more than an operator's authority: every
    request that is routed reads, asks a Git query or drives a session. */
  lemma PairedDevicesAreOperators(decode: Decoder, s: State, arrivals: seq<Arrival>, c: Call)
    requires s.registry == map[] && s.admitted == [] && s.calls == []
    requires c in ServedAll(decode, s, arrivals).calls
    ensures ActionFor(c.request.verb, c.request.path) in {View, Prompt, LowRiskApproval}
    ensures IsDriving(c.request.verb, c.request.path)
  {
    CallsAreByOperators(decode, s, arrivals);
    OperatorsDrive(c.request.verb, c.request.path);
    hide ActionFor, IsDriving;
  }

  /** In particular no paired phone ever decides a permission. */
  lemma PhonesDecideNothing(decode: Decoder, s: State, arrivals: seq<Arrival>, c: Call)
    requires s.registry == map[] && s.admitted == [] && s.calls == []
    requires c in ServedAll(decode, s, arrivals).calls
    ensures IsReading(c.request.verb) || !(PERMISSIONS <= Route(c.request.path))
  {
    PairedDevicesAreOperators(decode, s, arrivals, c);
    if PERMISSIONS <= Route(c.request.path) && !IsReading(c.request.verb) {
      DecidingIsEditing(Operator, {}, c.request.verb, c.request.path);
      OperatorsDrive(c.request.verb, c.request.path);
    }
  }

  lemma {:induction false} CallsAreByOperators(decode: Decoder, s: State, arrivals: seq<Arrival>)
    requires s.registry == map[] && s.admitted == [] && s.calls == []
    ensures forall c :: c in ServedAll(decode, s, arrivals).calls ==> IsAuthorized(c) && c.grant == NEWLY_PAIRED
  {
    hide Served, IsAuthorized;
    if arrivals != [] {
      var n := |arrivals| - 1;
      CallsAreByOperators(decode, s, arrivals[..n]);
      ServingIsSafe(decode, s, arrivals[..n]);
      CallsNeedAGrant(decode, ServedAll(decode, s, arrivals[..n]), arrivals[n]);
    }
  }

  /** Until a device is admitted the host is the only member, and nothing is registered. */
  lemma {:induction false} AloneWhilePairing(decode: Decoder, s: State, arrivals: seq<Arrival>)
    requires s.members == [s.deviceId] && s.registry == map[] && s.pairing.Some? && !s.ended
    ensures var t := ServedAll(decode, s, arrivals);
      t.deviceId == s.deviceId
      && (t.pairing.Some? && !t.ended ==> t.members == s.members && t.registry == map[] && t.pairing == s.pairing)
  {
    if arrivals != [] {
      var n := |arrivals| - 1;
      AloneWhilePairing(decode, s, arrivals[..n]);
      AloneStep(decode, ServedAll(decode, s, arrivals[..n]), arrivals[n]);
    }
  }

  lemma AloneStep(decode: Decoder, s: State, a: Arrival)
    ensures Served(decode, s, a).deviceId == s.deviceId
    ensures var t := Served(decode, s, a);
      t.pairing.Some? && !t.ended ==>
        && s.pairing == t.pairing && !s.ended
        && (s.registry == map[] ==> t.members == s.members && t.registry == map[])
  {
  }

  /** In every run, whenever a request is accepted and the welcome is sent, exactly the device that
    joined gets the new grant, unless it took the name of the host. */
  lemma AdmittedGetsGrant(decode: Decoder, start: State, arrivals: seq<Arrival>, a: Arrival)
    requires start.members == [start.deviceId] && start.registry == map[] && start.pairing.Some? && !start.ended
    requires var s := ServedAll(decode, start, arrivals);
      && s.pairing.Some? && !s.ended && IsPairingFrame(a.frame) && Accepted(s.pairing.value, a.frame).Ok?
      && a.joins.Some? && a.sends
    ensures var t := ServedAll(decode, start, arrivals + [a]);
      t.registry == (if a.joins.value == start.deviceId then map[] else map[a.joins.value := NEWLY_PAIRED])
      && t.members == [start.deviceId, a.joins.value] && t.pairing.None?
  {
    hide Accepted;
    AloneWhilePairing(decode, start, arrivals);
    assert (arrivals + [a])[..|arrivals|] == arrivals;
    var name := a.joins.value;
    var members := [start.deviceId] + [name];
    assert members[0] == start.deviceId && members[1..] == [name];
    assert NewestDevice(start.deviceId, members, map[]) == NewestDevice(start.deviceId, [name], map[]);
  }

  // ----- the source's loop

  class Service {
    const deviceId: string
    var members: seq<string>
    var registry: map<string, DeviceGrant>
    var pairing: Option<Tag>
    ghost var admitted: seq<string>
    ghost var calls: seq<Call>
    var replies: seq<Reply>

    ghost function ViewEnded(ended: bool): State
      reads this
    {
      State(deviceId, members, registry, pairing, admitted, calls, replies, ended)
    }

    constructor (deviceId: string, pairing: Option<Tag>)
      ensures ViewEnded(false) == State(deviceId, [deviceId], map[], pairing, [], [], [], false)
    {
      this.deviceId, this.pairing := deviceId, pairing;
      members, registry, replies := [deviceId], map[], [];
      admitted, calls := [], [];
    }

    method Pair(a: Arrival) returns (goesOn: bool)
      modifies this
      ensures ViewEnded(!goesOn) == Paired(old(ViewEnded(false)), a)
    {
      if pairing.None? {
        return true;
      }
      var keyPackage := CheckRequest(pairing.value, a.frame);
      if keyPackage.Err? || a.joins.None? {
        return true;
      }
      members := members + [a.joins.value];
      admitted := admitted + [a.joins.value];
      if !a.sends {
        return false;
      }
      var device := NewestDevice(deviceId, members, registry);
      if device.Some? {
        registry := registry[device.value := NEWLY_PAIRED];
      }
      pairing := None;
      return true;
    }

    method Revoke(decode: Decoder, message: OpenedMessage, target: string, removes: bool) returns (reply: Reply)
      modifies this
      ensures (ViewEnded(false), reply) == Revoked(decode, old(ViewEnded(false)), message, target, removes)
    {
      var exchange := ExchangeOf(decode, message);
      var allowed := message.sender in registry
        && Authorize(registry[message.sender].role, registry[message.sender].capabilities, ManageMembers);
      if !allowed {
        return Reply(exchange, 403);
      }
      if target == message.sender {
        return Reply(exchange, 400);
      }
      if target !in members || !removes {
        return Reply(exchange, 404);
      }
      members := RemoveFirst(members, target);
      registry := registry - {target};
      return Reply(exchange, 204);
    }

    method Handle(decode: Decoder, message: OpenedMessage, routerStatus: Option<nat>) returns (reply: Reply)
      modifies this
      ensures (ViewEnded(false), reply) == Handled(decode, old(ViewEnded(false)), message, routerStatus)
    {
      var request := decode(message.plaintext);
      if request.None? {
        return Reply("unknown", 400);
      }
      var r := request.value;
      if Validate(r).Err? {
        return Reply(r.exchangeId, 400);
      }
      if !Permitted(registry, message.sender, r.verb, r.path) {
        return Reply(r.exchangeId, 403);
      }
      calls := calls + [Call(message.sender, r, registry[message.sender])];
      return Reply(r.exchangeId, if routerStatus.Some? then routerStatus.value else 500);
    }

    method Serve(decode: Decoder, arrivals: seq<Arrival>) returns (ended: bool)
      modifies this
      ensures ViewEnded(ended) == ServedAll(decode, old(ViewEnded(false)), arrivals)
    {
      ended := false;
      for i := 0 to |arrivals|
        invariant ViewEnded(ended) == ServedAll(decode, old(ViewEnded(false)), arrivals[..i])
      {
        assert arrivals[..i + 1][..i] == arrivals[..i];
        if !ended {
          ended := ServeOne(decode, arrivals[i]);
        }
      }
      assert arrivals[..|arrivals|] == arrivals;
    }

    method ServeOne(decode: Decoder, a: Arrival) returns (ended: bool)
      modifies this
      ensures ViewEnded(ended) == Served(decode, old(ViewEnded(false)), a)
    {
      if IsPairingFrame(a.frame) {
        var goesOn := Pair(a);
        return !goesOn;
      }
      if a.opens.None? {
        return false;
      }
      var target := RevocationTarget(decode, a.opens.value);
      var reply;
      if target.Some? {
        reply := Revoke(decode, a.opens.value, target.value, a.removes);
      } else {
        reply := Handle(decode, a.opens.value, a.routerStatus);
      }
      if !(a.seals && a.sends) {
        return true;
      }
      replies := replies + [reply];
      return false;
    }
  }
}
