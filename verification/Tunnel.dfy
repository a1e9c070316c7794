/** Tunnelled requests and the action each performs, from crates/leave-protocol/src/tunnel.rs. */
module Tunnel {
  import opened Bytes
  import opened Outcomes
  import opened Protocol

  const TUNNEL_VERSION: nat := 1
  const MAX_TUNNEL_BODY_BYTES: nat := 4 * 1024 * 1024

  datatype TunnelRequest = TunnelRequest(version: nat, exchangeId: string, verb: string, path: string, body: seq<Byte>)

  datatype TunnelError = UnsupportedVersion(version: nat) | UnsupportedMethod | InvalidPath | BodyTooLarge | Malformed

  // ----- text

  predicate PartAt(text: string, part: string, i: nat) {
    i <= |text| && part <= text[i..]
  }

  predicate Contains(text: string, part: string) {
    exists i :: 0 <= i <= |text| && PartAt(text, part, i)
  }

  predicate EndsWith(text: string, part: string) {
    |part| <= |text| && text[|text| - |part|..] == part
  }

  /** Where a character first occurs, or the length. */
  function Find(text: string, c: char): (i: nat)
    ensures i <= |text| && (i < |text| ==> text[i] == c) && forall k :: 0 <= k < i ==> text[k] != c
  {
    if text == "" || text[0] == c then 0 else 1 + Find(text[1..], c)
  }

  function Split(text: string, c: char): (parts: seq<string>)
    ensures parts != []
    decreases |text|
  {
    var i := Find(text, c);
    if i == |text| then [text] else [text[..i]] + Split(text[i + 1..], c)
  }

  function Join(parts: seq<string>, c: char): string
    requires parts != []
  {
    if |parts| == 1 then parts[0] else parts[0] + [c] + Join(parts[1..], c)
  }

  /** The first part before a character and what follows it. */
  function SplitOnce(text: string, c: char): Option<(string, string)> {
    var i := Find(text, c);
    if i == |text| then None else Some((text[..i], text[i + 1..]))
  }

  lemma FindIs(text: string, c: char, i: nat)
    requires i <= |text| && (forall k :: 0 <= k < i ==> text[k] != c) && (i < |text| ==> text[i] == c)
    ensures Find(text, c) == i
  {
  }

  /** Splitting undoes joining parts that do not contain the separator. */
  lemma {:induction false} SplitUndoesJoin(parts: seq<string>, c: char)
    requires parts != [] && forall i :: 0 <= i < |parts| ==> c !in parts[i]
    ensures Split(Join(parts, c), c) == parts
    decreases |parts|
  {
    hide Find;
    var text := Join(parts, c);
    FindIs(text, c, |parts[0]|);
    if |parts| > 1 {
      assert text[..|parts[0]|] == parts[0] && text[|parts[0]| + 1..] == Join(parts[1..], c);
      SplitUndoesJoin(parts[1..], c);
    }
  }

  // ----- requests

  const METHODS: set<string> := {"GET", "POST", "PUT", "PATCH", "DELETE", "HEAD"}
  const LOCAL: string := "/api/v1/local/"

  predicate IsAcceptable(r: TunnelRequest) {
    && r.version == 1 && r.verb in {"GET", "POST", "PUT", "PATCH", "DELETE", "HEAD"}
    && "/api/v1/local/" <= r.path && !Contains(r.path, "..") && !Contains(r.path, "://")
    && |r.body| <= 0x40_0000
  }

  function Validate(r: TunnelRequest): (result: Result<(), TunnelError>)
    ensures result.Ok? <==> IsAcceptable(r)
  {
    if r.version != TUNNEL_VERSION then Err(TunnelError.UnsupportedVersion(r.version))
    else if r.verb !in METHODS then Err(UnsupportedMethod)
    else if !(LOCAL <= r.path) || Contains(r.path, "..") || Contains(r.path, "://") then Err(InvalidPath)
    else if |r.body| > MAX_TUNNEL_BODY_BYTES then Err(BodyTooLarge)
    else Ok(())
  }

  // ----- actions

  function Route(path: string): string {
    path[..Find(path, '?')]
  }

  predicate IsReading(verb: string) {
    verb == "GET" || verb == "HEAD"
  }

  /** The value of the first pair with the key. */
  function FirstValue(pairs: seq<string>, key: string): Option<string> {
    if pairs == [] then None
    else
      match SplitOnce(pairs[0], '=')
      case None => FirstValue(pairs[1..], key)
      case Some(pair) => if pair.0 == key then Some(pair.1) else FirstValue(pairs[1..], key)
  }

  function QueryValue(path: string, key: string): Option<string> {
    match SplitOnce(path, '?')
    case None => None
    case Some(parts) => FirstValue(Split(parts.1, '&'), key)
  }

  predicate IsGitRead(route: string) {
    route == LOCAL + "git/status" || route == LOCAL + "git/diff" || route == LOCAL + "git/worktrees"
  }

  function ActionFor(verb: string, path: string): Action {
    var route := Route(path);
    if LOCAL + "terminals" <= route then RawPty
    else if LOCAL + "previews" <= route then PersistentBrowserProfile
    else if LOCAL + "customization" <= route then
      (if QueryValue(path, "category") in {Some("rules"), Some("skills")} then ProjectCustomization
        else GlobalCustomization)
    else if IsReading(verb) then View
    else if route == LOCAL + "file" then EditFiles
    else if LOCAL + "git/" <= route then (if IsGitRead(route) then View else GitWrite)
    else if route == LOCAL + "sessions" then Prompt
    else if LOCAL + "sessions/" <= route then
      (if EndsWith(route, "/permissions") || Contains(route, "/permissions/") then LowRiskApproval else Prompt)
    else EditFiles
  }

  function JoinPairs(pairs: seq<(string, string)>): (parts: seq<string>)
    ensures |parts| == |pairs| && forall i :: 0 <= i < |pairs| ==> parts[i] == pairs[i].0 + "=" + pairs[i].1
  {
    seq(|pairs|, i requires 0 <= i < |pairs| => pairs[i].0 + "=" + pairs[i].1)
  }

  function Lookup(pairs: seq<(string, string)>, key: string): Option<string> {
    if pairs == [] then None
    else if pairs[0].0 == key then Some(pairs[0].1)
    else Lookup(pairs[1..], key)
  }

  lemma PairSplits(name: string, value: string)
    requires '=' !in name
    ensures SplitOnce(name + "=" + value, '=') == Some((name, value))
  {
    var text := name + "=" + value;
    FindIs(text, '=', |name|);
    assert text[..|name|] == name && text[|name| + 1..] == value;
  }

  lemma {:induction false} FirstValueLooksUp(pairs: seq<(string, string)>, key: string)
    requires forall i :: 0 <= i < |pairs| ==> '=' !in pairs[i].0
    ensures FirstValue(JoinPairs(pairs), key) == Lookup(pairs, key)
  {
    if pairs != [] {
      PairSplits(pairs[0].0, pairs[0].1);
      assert JoinPairs(pairs)[1..] == JoinPairs(pairs[1..]);
      FirstValueLooksUp(pairs[1..], key);
    }
  }

  /** Reading a parameter out of a query made of pairs finds the first pair with that name. */
  lemma QueryFindsFirst(route: string, pairs: seq<(string, string)>, key: string)
    requires '?' !in route && pairs != []
    requires forall i :: 0 <= i < |pairs| ==> '=' !in pairs[i].0 && '&' !in pairs[i].0 && '&' !in pairs[i].1
    ensures QueryValue(route + "?" + Join(JoinPairs(pairs), '&'), key) == Lookup(pairs, key)
  {
    var query := Join(JoinPairs(pairs), '&');
    var path := route + "?" + query;
    FindIs(path, '?', |route|);
    assert path[|route| + 1..] == query;
    SplitUndoesJoin(JoinPairs(pairs), '&');
    FirstValueLooksUp(pairs, key);
  }

  /** Only the category of a customization request looks at the query. */
  lemma QueryDoesNotMatter(verb: string, route: string, a: string, b: string)
    requires '?' !in route && !(LOCAL + "customization" <= route)
    ensures ActionFor(verb, route + "?" + a) == ActionFor(verb, route + "?" + b) == ActionFor(verb, route)
  {
    hide ActionFor;
    FindIs(route + "?" + a, '?', |route|);
    FindIs(route + "?" + b, '?', |route|);
    FindIs(route, '?', |route|);
    assert Route(route + "?" + a) == Route(route + "?" + b) == Route(route) == route;
    SameRoute(verb, route + "?" + a, route);
    SameRoute(verb, route + "?" + b, route);
  }

  lemma SameRoute(verb: string, path: string, other: string)
    requires Route(path) == Route(other) && !(LOCAL + "customization" <= Route(path))
    ensures ActionFor(verb, path) == ActionFor(verb, other)
  {
    hide Route, IsGitRead, EndsWith, Contains, QueryValue;
  }

  /** A viewer's request that is not a read is authorized exactly for the three Git queries. */
  lemma ViewersOnlyRead(grants: set<Capability>, verb: string, path: string)
    requires !IsReading(verb)
    ensures Authorize(Viewer, grants, ActionFor(verb, path)) <==> IsGitRead(Route(path))
  {
    var route := Route(path);
    if IsGitRead(route) {
      GitReadsAreGit(route);
    }
  }

  lemma GitReadsAreGit(route: string)
    requires IsGitRead(route)
    ensures LOCAL + "git/" <= route
    ensures !(LOCAL + "terminals" <= route) && !(LOCAL + "previews" <= route) && !(LOCAL + "customization" <= route)
    ensures route != LOCAL + "file"
  {
    assert route[|LOCAL|] == 'g';
    assert (LOCAL + "terminals")[|LOCAL|] == 't' && (LOCAL + "previews")[|LOCAL|] == 'p';
    assert (LOCAL + "customization")[|LOCAL|] == 'c' && (LOCAL + "file")[|LOCAL|] == 'f';
  }

  /** What a device with the grant of a newly paired phone may ask for. */
  predicate IsDriving(verb: string, path: string) {
    var route := Route(path);
    && !(LOCAL + "terminals" <= route) && !(LOCAL + "previews" <= route) && !(LOCAL + "customization" <= route)
    && (IsReading(verb) || IsGitRead(route) || route == LOCAL + "sessions" || LOCAL + "sessions/" <= route)
  }

  lemma SessionsAreNoGit(route: string)
    requires route == LOCAL + "sessions" || LOCAL + "sessions/" <= route
    ensures !(LOCAL + "git/" <= route) && route != LOCAL + "file"
  {
    assert route[|LOCAL|] == 's' && (LOCAL + "git/")[|LOCAL|] == 'g' && (LOCAL + "file")[|LOCAL|] == 'f';
  }

  /** An operator without capabilities may read, ask the Git queries and drive sessions, and nothing else. */
  lemma OperatorsDrive(verb: string, path: string)
    ensures Authorize(Operator, {}, ActionFor(verb, path)) <==> IsDriving(verb, path)
  {
    var route := Route(path);
    hide Route, QueryValue, Contains, EndsWith;
    if IsGitRead(route) { GitReadsAreGit(route); }
    if route == LOCAL + "sessions" || LOCAL + "sessions/" <= route { SessionsAreNoGit(route); }
  }

  const PERMISSIONS: string := LOCAL + "permissions/"

  lemma PermissionsAreApart(route: string)
    requires PERMISSIONS <= route
    ensures !(LOCAL + "terminals" <= route) && !(LOCAL + "previews" <= route) && !(LOCAL + "customization" <= route)
    ensures route != LOCAL + "file" && !(LOCAL + "git/" <= route)
    ensures route != LOCAL + "sessions" && !(LOCAL + "sessions/" <= route)
  {
    assert route[|LOCAL|] == 'p' && route[|LOCAL| + 1] == 'e';
    assert (LOCAL + "terminals")[|LOCAL|] == 't' && (LOCAL + "previews")[|LOCAL| + 1] == 'r';
    assert (LOCAL + "customization")[|LOCAL|] == 'c' && (LOCAL + "file")[|LOCAL|] == 'f';
    assert (LOCAL + "git/")[|LOCAL|] == 'g' && (LOCAL + "sessions")[|LOCAL|] == 's'
      && (LOCAL + "sessions/")[|LOCAL|] == 's';
  }

  /** Deciding a permission counts as editing files: only owners and maintainers may do it. */
  lemma DecidingIsEditing(role: Role, grants: set<Capability>, verb: string, path: string)
    requires PERMISSIONS <= Route(path) && !IsReading(verb)
    ensures Authorize(role, grants, ActionFor(verb, path)) <==> role == Owner || role == Maintainer
  {
    var route := Route(path);
    PermissionsAreApart(route);
    hide Route, QueryValue, Contains, EndsWith;
  }

  lemma TerminalsNeedTheirGrant(role: Role, grants: set<Capability>, verb: string, path: string)
    requires LOCAL + "terminals" <= Route(path)
    ensures Authorize(role, grants, ActionFor(verb, path)) <==> role != Viewer && RawPtyCapability in grants
  {
  }

  /** Without the global grant a customization request passes only if its first category is a
    project one, and then only for roles that may edit. */
  lemma CustomizationIsGlobalByDefault(role: Role, grants: set<Capability>, verb: string, path: string)
    requires LOCAL + "customization" <= Route(path) && GlobalCustomizationCapability !in grants
    ensures Authorize(role, grants, ActionFor(verb, path)) <==>
      QueryValue(path, "category") in {Some("rules"), Some("skills")} && (role == Owner || role == Maintainer)
  {
    var route := Route(path);
    assert route[|LOCAL|] == 'c';
    assert (LOCAL + "terminals")[|LOCAL|] == 't' && (LOCAL + "previews")[|LOCAL|] == 'p';
  }

  lemma PreviewsNeedTheirGrant(role: Role, grants: set<Capability>, verb: string, path: string)
    requires LOCAL + "previews" <= Route(path)
    ensures Authorize(role, grants, ActionFor(verb, path)) <==>
      role != Viewer && PersistentBrowserProfileCapability in grants
  {
    assert Route(path)[|LOCAL|] == 'p' && (LOCAL + "terminals")[|LOCAL|] == 't';
  }

  lemma CustomizationWithGrant(role: Role, grants: set<Capability>, verb: string, path: string)
    requires LOCAL + "customization" <= Route(path) && GlobalCustomizationCapability in grants
    ensures Authorize(role, grants, ActionFor(verb, path)) <==>
      if QueryValue(path, "category") in {Some("rules"), Some("skills")} then role == Owner || role == Maintainer
      else role != Viewer
  {
    var route := Route(path);
    assert route[|LOCAL|] == 'c';
    assert (LOCAL + "terminals")[|LOCAL|] == 't' && (LOCAL + "previews")[|LOCAL|] == 'p';
  }

  /** Outside the surfaces that need a capability the role alone decides: owners and maintainers may do
    everything, operators what counts as driving, and viewers may read. */
  lemma RoleDecides(role: Role, grants: set<Capability>, verb: string, path: string)
    requires var route := Route(path);
      !(LOCAL + "terminals" <= route) && !(LOCAL + "previews" <= route) && !(LOCAL + "customization" <= route)
    ensures Authorize(role, grants, ActionFor(verb, path)) <==>
      match role
      case Owner => true
      case Maintainer => true
      case Operator => IsDriving(verb, path)
      case Viewer => IsReading(verb) || IsGitRead(Route(path))
  {
    var route := Route(path);
    hide Route, QueryValue, Contains, EndsWith;
    if IsGitRead(route) { GitReadsAreGit(route); }
    if route == LOCAL + "sessions" || LOCAL + "sessions/" <= route { SessionsAreNoGit(route); }
  }

  const SESSION: string := LOCAL + "sessions/"

  lemma SessionsAreApart(route: string)
    requires SESSION <= route
    ensures !(LOCAL + "terminals" <= route) && !(LOCAL + "previews" <= route) && !(LOCAL + "customization" <= route)
    ensures route != LOCAL + "file" && !(LOCAL + "git/" <= route) && route != LOCAL + "sessions"
  {
    assert route[|LOCAL|] == 's' && (LOCAL + "terminals")[|LOCAL|] == 't' && (LOCAL + "previews")[|LOCAL|] == 'p';
    assert (LOCAL + "customization")[|LOCAL|] == 'c' && (LOCAL + "file")[|LOCAL|] == 'f';
    assert (LOCAL + "git/")[|LOCAL|] == 'g';
  }

  /** A write under a session acts on its permissions if the segment after the session's says so. */
  lemma PermissionWrites(verb: string, id: string, rest: string)
    requires !IsReading(verb) && '?' !in id && '?' !in rest
    ensures ActionFor(verb, SESSION + id + "/permissions/" + rest) == LowRiskApproval
  {
    var path := SESSION + id + "/permissions/" + rest;
    assert Contains(path, "/permissions/") by {
      assert path[|SESSION| + |id|..] == "/permissions/" + rest;
      assert PartAt(path, "/permissions/", |SESSION| + |id|);
    }
    SessionAction(verb, path);
  }

  /** Of the writes one segment below a session only the one named for permissions decides them. */
  lemma SessionWrites(verb: string, id: string, word: string)
    requires !IsReading(verb) && '?' !in id && '/' !in id && id != "permissions" && '?' !in word && '/' !in word
    ensures ActionFor(verb, SESSION + id + "/" + word) == (if word == "permissions" then LowRiskApproval else Prompt)
  {
    var path := SESSION + id + "/" + word;
    assert !Contains(path, "/permissions/") by {
      hide PartAt;
      forall i: nat | i <= |path| && PartAt(path, "/permissions/", i) ensures false {
        InnerPart(id, word, i);
      }
    }
    LastSegment(SESSION + id, word);
    SessionAction(verb, path);
  }

  lemma SessionAction(verb: string, path: string)
    requires !IsReading(verb) && SESSION <= path && '?' !in path
    ensures ActionFor(verb, path) == if EndsWith(path, "/permissions") || Contains(path, "/permissions/")
      then LowRiskApproval else Prompt
  {
    hide EndsWith, Contains, QueryValue, IsGitRead, IsReading;
    FindIs(path, '?', |path|);
    assert Route(path) == path;
    SessionsAreApart(path);
  }

  lemma SessionHasNoPart(i: nat)
    requires i + 1 < |SESSION| && SESSION[i] == '/'
    ensures SESSION[i + 1] != 'p'
  {
  }

  lemma SlashBetween(id: string, word: string, k: nat)
    requires '/' !in id && '/' !in word && |SESSION| <= k < |SESSION + id + "/" + word|
    ensures (SESSION + id + "/" + word)[k] == '/' <==> k == |SESSION| + |id|
  {
    hide SESSION;
    var path := SESSION + id + "/" + word;
    if k < |SESSION| + |id| {
      assert path[k] == id[k - |SESSION|];
    } else if k > |SESSION| + |id| {
      assert path[k] == word[k - |SESSION| - |id| - 1];
    }
  }

  lemma PartSlashes(text: string, i: nat)
    requires PartAt(text, "/permissions/", i)
    ensures i + 12 < |text| && text[i] == '/' && text[i + 1] == 'p' && text[i + 12] == '/'
    ensures text[i + 1..i + 12] == "permissions"
  {
    var part := "/permissions/";
    assert text[i..][..13] == part;
    assert text[i..][0] == part[0] && text[i..][1] == part[1] && text[i..][12] == part[12];
    assert text[i + 1..i + 12] == text[i..][..13][1..12] && part[1..12] == "permissions";
  }

  lemma InnerPart(id: string, word: string, i: nat)
    requires '/' !in id && '/' !in word && i <= |SESSION + id + "/" + word|
    requires PartAt(SESSION + id + "/" + word, "/permissions/", i)
    ensures id == "permissions"
  {
    hide SESSION, PartAt;
    var path := SESSION + id + "/" + word;
    var m := |SESSION|;
    PartSlashes(path, i);
    assert path[..m] == SESSION;
    if i + 1 < m {
      SessionHasNoPart(i);
    } else {
      SlashBetween(id, word, i + 12);
    }
    if i >= m {
      SlashBetween(id, word, i);
    }
    assert path[m..m + |id|] == id;
  }

  lemma LastSegment(front: string, word: string)
    requires '/' !in word
    ensures EndsWith(front + "/" + word, "/permissions") <==> word == "permissions"
  {
    var text, part := front + "/" + word, "/permissions";
    if word == "permissions" {
      assert text[|text| - 12..] == part;
    }
    assert text[|front|] == '/' && forall k :: |front| < k < |text| ==> text[k] != '/';
    if EndsWith(text, part) {
      var from := |text| - 12;
      assert text[from] == part[0];
      forall k | from < k < |text| ensures text[k] != '/' {
        assert text[k] == part[k - from];
      }
      assert from == |front|;
      assert text[|text| - 12..][1..] == word && part[1..] == "permissions";
    }
  }
}
