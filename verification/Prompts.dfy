/** Accepting prompts and running turns, from apps/leave/src/acp.rs and
  crates/leave-core/src/event_store.rs.

  One command loop handles commands in order; every accepted prompt becomes a task of its own. Each
  step below is one stretch of code between two awaits.
 */
module Prompts {
  import opened Outcomes
  import opened Sequences

  datatype Phase = Idle | Working | Offline
  datatype Session = Session(workspaceId: nat, phase: Phase)

  /** A spawned task: waiting for the agent, or about to mark the session idle. */
  datatype Turn = Turn(sessionId: string, commandId: nat, answered: bool)

  /** How far the command loop has got with the prompt it is handling. */
  datatype Stage = Ready | Checked | Claimed | Marked | Recorded

  datatype Loop = Loop(stage: Stage, sessionId: string, commandId: nat)

  /** `turns` are the live tasks by number; `prompted` lists the commands sent to the agent. */
  datatype State = State(workspaceId: nat, sessions: map<string, Session>, claimed: set<nat>, loop: Loop,
                         turns: map<nat, Turn>, nextTurn: nat, prompted: seq<nat>)

  datatype Step =
    | Begin(sessionId: string, blank: bool, commandId: nat)
    | Claim
    | Mark
    | Record(stored: bool)
    | Spawn(spawned: bool)
    | Reply(turn: nat)
    | Settle(turn: nat, saved: bool)
    | Create(sessionId: string)
    | Resume(sessionId: string)
    | Cancel(sessionId: string)
    | Remove(sessionId: string)
    | Restart

  const READY := Loop(Ready, "", 0)

  /** The checks before a command is claimed. */
  predicate MayPrompt(s: State, sessionId: string, blank: bool) {
    && !blank && sessionId in s.sessions && s.sessions[sessionId].workspaceId == s.workspaceId
    && s.sessions[sessionId].phase != Working
  }

  function SetPhase(sessions: map<string, Session>, sessionId: string, phase: Phase): map<string, Session> {
    if sessionId in sessions then sessions[sessionId := sessions[sessionId].(phase := phase)] else sessions
  }

  function AllOffline(sessions: map<string, Session>, workspaceId: nat): map<string, Session> {
    map id | id in sessions ::
      if sessions[id].workspaceId == workspaceId then sessions[id].(phase := Offline) else sessions[id]
  }

  predicate Enabled(s: State, step: Step) {
    match step
    case Begin(_, _, _) => s.loop.stage == Ready
    case Claim => s.loop.stage == Checked
    case Mark => s.loop.stage == Claimed
    case Record(_) => s.loop.stage == Marked
    case Spawn(_) => s.loop.stage == Recorded
    case Reply(turn) => turn in s.turns && !s.turns[turn].answered
    case Settle(turn, _) => turn in s.turns && s.turns[turn].answered
    case Create(_) => s.loop.stage == Ready
    case Resume(_) => s.loop.stage == Ready
    case Cancel(_) => s.loop.stage == Ready
    case Remove(_) => true
    case Restart => true
  }

  function After(s: State, step: Step): State
    requires Enabled(s, step)
  {
    match step
    case Begin(sessionId, blank, commandId) =>
      if MayPrompt(s, sessionId, blank) then s.(loop := Loop(Checked, sessionId, commandId)) else s
    case Claim =>
      if s.loop.commandId in s.claimed then s.(loop := READY)
      else s.(claimed := s.claimed + {s.loop.commandId}, loop := s.loop.(stage := Claimed))
    case Mark =>
      if s.loop.sessionId in s.sessions then
        s.(sessions := SetPhase(s.sessions, s.loop.sessionId, Working), loop := s.loop.(stage := Marked))
      else s.(loop := READY)
    case Record(stored) =>
      s.(loop := if stored then s.loop.(stage := Recorded) else READY)
    case Spawn(spawned) =>
      if spawned then
        s.(turns := s.turns[s.nextTurn := Turn(s.loop.sessionId, s.loop.commandId, false)], nextTurn := s.nextTurn + 1,
           prompted := s.prompted + [s.loop.commandId], loop := READY)
      else s.(loop := READY)
    case Reply(turn) => s.(turns := s.turns[turn := s.turns[turn].(answered := true)])
    case Settle(turn, saved) =>
      s.(sessions := if saved then SetPhase(s.sessions, s.turns[turn].sessionId, Idle) else s.sessions,
         turns := s.turns - {turn})
    case Create(sessionId) => s.(sessions := s.sessions[sessionId := Session(s.workspaceId, Idle)])
    case Resume(sessionId) => s.(sessions := SetPhase(s.sessions, sessionId, Idle))
    case Cancel(sessionId) => s.(sessions := SetPhase(s.sessions, sessionId, Idle))
    case Remove(sessionId) => s.(sessions := s.sessions - {sessionId})
    case Restart => s.(sessions := AllOffline(s.sessions, s.workspaceId), loop := READY, turns := map[])
  }

  // ----- each command prompts at most once

  /** Prompted commands are claimed, and the one being handled has not been prompted. */
  ghost predicate CommandsAreSound(s: State) {
    && Distinct(s.prompted)
    && (forall c :: c in s.prompted ==> c in s.claimed)
    && (s.loop.stage in {Claimed, Marked, Recorded} ==>
      s.loop.commandId in s.claimed && s.loop.commandId !in s.prompted)
  }

  lemma CommandsKept(s: State, step: Step)
    requires CommandsAreSound(s) && Enabled(s, step)
    ensures CommandsAreSound(After(s, step))
  {
  }

  // ----- one turn per session

  ghost predicate Active(s: State, sessionId: string) {
    exists t :: t in s.turns && s.turns[t].sessionId == sessionId
  }

  ghost predicate MarkedWorking(s: State, sessionId: string) {
    sessionId in s.sessions ==> s.sessions[sessionId].phase == Working
  }

  ghost predicate TurnOk(s: State, t: nat) {
    t in s.turns ==>
      && t < s.nextTurn && MarkedWorking(s, s.turns[t].sessionId)
      && (s.loop.stage != Ready ==> s.loop.sessionId != s.turns[t].sessionId)
  }

  ghost predicate ApartOk(s: State, t: nat, u: nat) {
    t in s.turns && u in s.turns && s.turns[t].sessionId == s.turns[u].sessionId ==> t == u
  }

  /** A live turn means that its session is marked working, and there is only one. */
  ghost predicate TurnsAreSound(s: State) {
    && (forall t :: TurnOk(s, t))
    && (forall t, u :: ApartOk(s, t, u))
    && (s.loop.stage in {Marked, Recorded} ==> MarkedWorking(s, s.loop.sessionId))
  }

  /** The step does not set a session idle while a turn of it is live. */
  ghost predicate Harmless(s: State, step: Step) {
    && (step.Create? ==> !Active(s, step.sessionId))
    && (step.Resume? || step.Cancel? ==> step.sessionId in s.sessions ==> !Active(s, step.sessionId))
  }

  lemma TurnKept(s: State, step: Step, t: nat)
    requires TurnsAreSound(s) && Enabled(s, step) && Harmless(s, step)
    ensures TurnOk(After(s, step), t)
  {
    assert TurnOk(s, t);
    if step.Settle? {
      assert ApartOk(s, t, step.turn);
    } else if step.Begin? && t in s.turns && MayPrompt(s, step.sessionId, step.blank) {
      assert s.turns[t].sessionId != step.sessionId;
    }
  }

  lemma ApartKept(s: State, step: Step, t: nat, u: nat)
    requires TurnsAreSound(s) && Enabled(s, step)
    ensures ApartOk(After(s, step), t, u)
  {
    assert ApartOk(s, t, u) && TurnOk(s, t) && TurnOk(s, u);
  }

  lemma LoopKept(s: State, step: Step)
    requires TurnsAreSound(s) && Enabled(s, step)
    ensures var n := After(s, step);
      n.loop.stage in {Marked, Recorded} ==> MarkedWorking(n, n.loop.sessionId)
  {
    if step.Settle? {
      assert TurnOk(s, step.turn);
    }
  }

  lemma TurnsKept(s: State, step: Step)
    requires TurnsAreSound(s) && Enabled(s, step) && Harmless(s, step)
    ensures TurnsAreSound(After(s, step))
  {
    var n := After(s, step);
    forall t: nat ensures TurnOk(n, t) { TurnKept(s, step, t); }
    forall t: nat, u: nat ensures ApartOk(n, t, u) { ApartKept(s, step, t, u); }
    LoopKept(s, step);
  }

  // ----- whole runs

  ghost predicate Initial(s: State) {
    s.loop == READY && s.turns == map[] && s.prompted == []
  }

  ghost predicate IsRun(states: seq<State>, steps: seq<Step>) {
    && |states| == |steps| + 1 && Initial(states[0])
    && forall i :: 0 <= i < |steps| ==> Enabled(states[i], steps[i]) && states[i + 1] == After(states[i], steps[i])
  }

  lemma {:induction false} CommandsInRun(states: seq<State>, steps: seq<Step>, k: nat)
    requires IsRun(states, steps) && k <= |steps|
    ensures CommandsAreSound(states[k])
  {
    if k > 0 {
      CommandsInRun(states, steps, k - 1);
      CommandsKept(states[k - 1], steps[k - 1]);
    }
  }

  /** However often a command is retried, across cancellations and restarts: one prompt at most. */
  lemma EachCommandPromptsOnce(states: seq<State>, steps: seq<Step>, k: nat, commandId: nat)
    requires IsRun(states, steps) && k <= |steps|
    ensures Distinct(states[k].prompted) && multiset(states[k].prompted)[commandId] <= 1
  {
    CommandsInRun(states, steps, k);
    Occurrences(states[k].prompted, commandId);
  }

  lemma {:induction false} Occurrences(ids: seq<nat>, id: nat)
    requires Distinct(ids)
    ensures multiset(ids)[id] <= 1
  {
    if ids != [] {
      var n := |ids| - 1;
      Occurrences(ids[..n], id);
      assert ids == ids[..n] + [ids[n]];
      if ids[n] == id {
        assert id !in ids[..n];
      }
    }
  }

  lemma {:induction false} TurnsInRun(states: seq<State>, steps: seq<Step>, k: nat)
    requires IsRun(states, steps) && k <= |steps|
    requires forall i :: 0 <= i < k ==> Harmless(states[i], steps[i])
    ensures TurnsAreSound(states[k])
  {
    if k > 0 {
      TurnsInRun(states, steps, k - 1);
      TurnsKept(states[k - 1], steps[k - 1]);
    }
  }

  /** In a run that cancels, resumes and recreates only sessions without a live turn, a live turn
    means a working session, and no session has two. */
  lemma OneTurnPerSession(states: seq<State>, steps: seq<Step>, k: nat, t: nat, u: nat)
    requires IsRun(states, steps) && k <= |steps| && t in states[k].turns && u in states[k].turns
    requires forall i :: 0 <= i < k ==> Harmless(states[i], steps[i])
    ensures MarkedWorking(states[k], states[k].turns[t].sessionId)
    ensures states[k].turns[t].sessionId == states[k].turns[u].sessionId ==> t == u
  {
    TurnsInRun(states, steps, k);
    assert TurnOk(states[k], t) && ApartOk(states[k], t, u);
  }

  /** A step that sets a session idle while a turn of it is live breaks the invariant. */
  lemma HarmBreaks(s: State, step: Step)
    requires TurnsAreSound(s) && Enabled(s, step) && !Harmless(s, step)
    ensures !TurnsAreSound(After(s, step))
  {
    var t :| t in s.turns && s.turns[t].sessionId == step.sessionId;
    assert !TurnOk(After(s, step), t);
  }

  /** The condition is exact: up to any moment of any run a live turn means a working session, and no
    session has two, if and only if no step set a session idle while a turn of it was live. */
  lemma {:induction false} CancelNeedsQuiet(states: seq<State>, steps: seq<Step>, k: nat)
    requires IsRun(states, steps) && k <= |steps|
    ensures (forall j :: 0 <= j <= k ==> TurnsAreSound(states[j])) <==>
      (forall i :: 0 <= i < k ==> Harmless(states[i], steps[i]))
  {
    hide TurnsAreSound, Harmless, Enabled, After;
    if k == 0 {
      TurnsInRun(states, steps, 0);
    } else {
      CancelNeedsQuiet(states, steps, k - 1);
      assert Enabled(states[k - 1], steps[k - 1]) && states[k] == After(states[k - 1], steps[k - 1]);
      if TurnsAreSound(states[k - 1]) {
        if Harmless(states[k - 1], steps[k - 1]) {
          TurnsKept(states[k - 1], steps[k - 1]);
        } else {
          HarmBreaks(states[k - 1], steps[k - 1]);
        }
      }
    }
  }

  function Accept(sessionId: string, commandId: nat): seq<Step> {
    [Begin(sessionId, false, commandId), Claim, Mark, Record(true), Spawn(true)]
  }

  predicate CanRun(s: State, steps: seq<Step>)
    decreases |steps|
  {
    steps == [] || (Enabled(s, steps[0]) && CanRun(After(s, steps[0]), steps[1..]))
  }

  function RunAll(s: State, steps: seq<Step>): State
    requires CanRun(s, steps)
    decreases |steps|
  {
    if steps == [] then s else RunAll(After(s, steps[0]), steps[1..])
  }

  lemma {:induction false} RunsInTurn(s: State, a: seq<Step>, b: seq<Step>)
    requires CanRun(s, a) && CanRun(RunAll(s, a), b)
    ensures CanRun(s, a + b) && RunAll(s, a + b) == RunAll(RunAll(s, a), b)
    decreases |a|
  {
    if a == [] {
      assert a + b == b;
    } else {
      RunsInTurn(After(s, a[0]), a[1..], b);
      assert (a + b)[1..] == a[1..] + b && (a + b)[0] == a[0];
    }
  }

  /** A fresh command for a session that is not working becomes a live turn. */
  lemma AcceptRuns(s: State, sessionId: string, commandId: nat)
    requires s.loop == READY && MayPrompt(s, sessionId, false) && commandId !in s.claimed
    ensures CanRun(s, Accept(sessionId, commandId))
    ensures RunAll(s, Accept(sessionId, commandId)) ==
      State(s.workspaceId, SetPhase(s.sessions, sessionId, Working), s.claimed + {commandId}, READY,
            s.turns[s.nextTurn := Turn(sessionId, commandId, false)], s.nextTurn + 1, s.prompted + [commandId])
  {
    var steps := Accept(sessionId, commandId);
    var a := After(s, steps[0]);
    var b := After(a, steps[1]);
    var c := After(b, steps[2]);
    var d := After(c, steps[3]);
    var e := After(d, steps[4]);
    RunFrom(d, [], steps[4]);
    RunFrom(c, steps[4..], steps[3]);
    RunFrom(b, steps[3..], steps[2]);
    RunFrom(a, steps[2..], steps[1]);
    RunFrom(s, steps[1..], steps[0]);
  }

  /** A settled turn is gone and its session, if it is registered and the update succeeds, is idle; nothing
    else changes. */
  lemma SettleFrees(s: State, turn: nat, saved: bool)
    requires Enabled(s, Settle(turn, saved))
    ensures var t := After(s, Settle(turn, saved));
      && t == s.(turns := s.turns - {turn}, sessions := t.sessions) && t.sessions.Keys == s.sessions.Keys
      && forall id :: id in s.sessions ==>
        t.sessions[id].workspaceId == s.sessions[id].workspaceId
        && t.sessions[id].phase == if saved && id == s.turns[turn].sessionId then Idle else s.sessions[id].phase
  {
  }

  /** A session that has been prompted can be prompted again once its turn has settled: only the second
    turn is live then. */
  lemma PromptAgain(s: State, sessionId: string, first: nat, second: nat)
    requires s.loop == READY && MayPrompt(s, sessionId, false) && s.nextTurn !in s.turns
    requires first !in s.claimed && second !in s.claimed && first != second
    ensures var turn := s.nextTurn;
      var steps := Accept(sessionId, first) + [Reply(turn), Settle(turn, true)] + Accept(sessionId, second);
      && CanRun(s, steps)
      && RunAll(s, steps) ==
        State(s.workspaceId, SetPhase(s.sessions, sessionId, Working), s.claimed + {first} + {second}, READY,
              s.turns[turn + 1 := Turn(sessionId, second, false)], turn + 2, s.prompted + [first] + [second])
  {
    var n := s.nextTurn;
    AcceptRuns(s, sessionId, first);
    var t := RunAll(s, Accept(sessionId, first));
    var u := After(t, Reply(n));
    var v := After(u, Settle(n, true));
    assert v.turns == s.turns;
    RunFrom(u, [], Settle(n, true));
    RunFrom(t, [Settle(n, true)], Reply(n));
    assert [Reply(n)] + [Settle(n, true)] == [Reply(n), Settle(n, true)] && [Settle(n, true)] + [] == [Settle(n, true)];
    AcceptRuns(v, sessionId, second);
    RunsInTurn(s, Accept(sessionId, first), [Reply(n), Settle(n, true)]);
    RunsInTurn(s, Accept(sessionId, first) + [Reply(n), Settle(n, true)], Accept(sessionId, second));
  }

  // ----- working sessions are busy

  /** The command loop has marked the session and not yet spawned its turn. */
  predicate AboutToRun(s: State, sessionId: string) {
    s.loop.stage in {Marked, Recorded} && s.loop.sessionId == sessionId
  }

  predicate IsWorking(s: State, sessionId: string) {
    sessionId in s.sessions && s.sessions[sessionId] == Session(s.workspaceId, Working)
  }

  ghost predicate WorkingIsBusy(s: State, sessionId: string) {
    IsWorking(s, sessionId) ==> Active(s, sessionId) || AboutToRun(s, sessionId)
  }

  ghost predicate NobodyIsStuck(s: State) {
    forall id :: WorkingIsBusy(s, id)
  }

  /** The step fails and leaves a working session that has no other turn: the prompt is not logged, its
    task is not spawned, or the end of its turn is not saved. */
  ghost predicate Strands(s: State, step: Step) {
    match step
    case Record(stored) => !stored && IsWorking(s, s.loop.sessionId) && !Active(s, s.loop.sessionId)
    case Spawn(spawned) => !spawned && IsWorking(s, s.loop.sessionId) && !Active(s, s.loop.sessionId)
    case Settle(turn, saved) =>
      && !saved && turn in s.turns && IsWorking(s, s.turns[turn].sessionId) && !AboutToRun(s, s.turns[turn].sessionId)
      && forall other :: other in s.turns && s.turns[other].sessionId == s.turns[turn].sessionId ==> other == turn
    case _ => false
  }

  /** No live turn has a number yet to be given. */
  ghost predicate TurnsAreNumbered(s: State) {
    forall t :: t in s.turns ==> t < s.nextTurn
  }

  lemma {:induction false} NumberedInRun(states: seq<State>, steps: seq<Step>, k: nat)
    requires IsRun(states, steps) && k <= |steps|
    ensures TurnsAreNumbered(states[k])
  {
    if k > 0 {
      NumberedInRun(states, steps, k - 1);
      assert Enabled(states[k - 1], steps[k - 1]);
    }
  }

  lemma BusyKept(s: State, step: Step, id: string)
    requires NobodyIsStuck(s) && TurnsAreNumbered(s) && Enabled(s, step) && !Strands(s, step)
    ensures WorkingIsBusy(After(s, step), id)
  {
    assert WorkingIsBusy(s, id);
    var t := After(s, step);
    if Active(s, id) && !step.Restart? && !step.Settle? {
      var k :| k in s.turns && s.turns[k].sessionId == id;
      assert k in t.turns && t.turns[k].sessionId == id;
    }
    if step == Spawn(true) && s.loop.sessionId == id {
      assert s.nextTurn in t.turns && t.turns[s.nextTurn].sessionId == id;
    }
    if step.Settle? && Active(s, id) {
      SettleKeepsBusy(s, step.turn, step.saved, id);
    }
  }

  lemma SettleKeepsBusy(s: State, turn: nat, saved: bool, id: string)
    requires Enabled(s, Settle(turn, saved)) && !Strands(s, Settle(turn, saved)) && Active(s, id)
    ensures WorkingIsBusy(After(s, Settle(turn, saved)), id)
  {
    var t := After(s, Settle(turn, saved));
    if s.turns[turn].sessionId != id {
      var k :| k in s.turns && s.turns[k].sessionId == id;
      assert k in t.turns;
    } else if !saved && IsWorking(s, id) && !AboutToRun(s, id) {
      var k :| k in s.turns && s.turns[k].sessionId == id && k != turn;
      assert k in t.turns;
    }
  }

  lemma StrandedIsStuck(s: State, step: Step)
    requires Enabled(s, step) && Strands(s, step)
    ensures !NobodyIsStuck(After(s, step))
  {
    var id := if step.Settle? then s.turns[step.turn].sessionId else s.loop.sessionId;
    assert !WorkingIsBusy(After(s, step), id);
  }

  /** At every moment of a run that starts with no working session of the workspace, a working session has
    a live turn or is about to get one, if and only if no failure has stranded one. */
  lemma {:induction false} StuckExactly(states: seq<State>, steps: seq<Step>, k: nat)
    requires IsRun(states, steps) && k <= |steps|
    requires forall id :: id in states[0].sessions ==> states[0].sessions[id] != Session(states[0].workspaceId, Working)
    ensures (forall j :: 0 <= j <= k ==> NobodyIsStuck(states[j])) <==>
      (forall i :: 0 <= i < k ==> !Strands(states[i], steps[i]))
  {
    if k > 0 {
      hide NobodyIsStuck, TurnsAreNumbered, Strands, Enabled, After;
      NumberedInRun(states, steps, k - 1);
      StuckExactly(states, steps, k - 1);
      var s, step := states[k - 1], steps[k - 1];
      assert Enabled(s, step) && states[k] == After(s, step);
      if Strands(s, step) {
        StrandedIsStuck(s, step);
      } else if NobodyIsStuck(s) {
        StepKeepsBusy(s, step);
      }
    }
  }

  lemma StepKeepsBusy(s: State, step: Step)
    requires NobodyIsStuck(s) && TurnsAreNumbered(s) && Enabled(s, step) && !Strands(s, step)
    ensures NobodyIsStuck(After(s, step))
  {
    hide WorkingIsBusy, TurnsAreNumbered, Strands, Enabled, After;
    forall id: string ensures WorkingIsBusy(After(s, step), id) {
      BusyKept(s, step, id);
    }
  }

  lemma RunFrom(s: State, rest: seq<Step>, step: Step)
    requires Enabled(s, step) && CanRun(After(s, step), rest)
    ensures CanRun(s, [step] + rest) && RunAll(s, [step] + rest) == RunAll(After(s, step), rest)
  {
    assert ([step] + rest)[1..] == rest;
  }

  /** A prompt that cannot be logged leaves its session working without a turn: no further prompt is accepted. */
  lemma UnloggedPromptStrands(s: State, sessionId: string, commandId: nat)
    requires s.loop == READY && MayPrompt(s, sessionId, false) && commandId !in s.claimed && !Active(s, sessionId)
    ensures var steps := [Begin(sessionId, false, commandId), Claim, Mark, Record(false)];
      && CanRun(s, steps)
      && var t := RunAll(s, steps);
      t.loop == READY && IsWorking(t, sessionId) && !Active(t, sessionId) && !MayPrompt(t, sessionId, false)
  {
    var a := After(s, Begin(sessionId, false, commandId));
    var b := After(a, Claim);
    var c := After(b, Mark);
    RunFrom(c, [], Record(false));
    RunFrom(b, [Record(false)], Mark);
    RunFrom(a, [Mark, Record(false)], Claim);
    RunFrom(s, [Claim, Mark, Record(false)], Begin(sessionId, false, commandId));
    assert [Record(false)] + [] == [Record(false)] && [Mark] + [Record(false)] == [Mark, Record(false)];
    assert [Claim] + [Mark, Record(false)] == [Claim, Mark, Record(false)];
    assert [Begin(sessionId, false, commandId)] + [Claim, Mark, Record(false)]
      == [Begin(sessionId, false, commandId), Claim, Mark, Record(false)];
    assert c.turns == s.turns;
  }

  /** Without the condition the property is false: prompt, cancel and prompt again while the agent
    is still busy, and the session has two live turns. */
  lemma CancelAllowsTwoTurns(s: State, sessionId: string, first: nat, second: nat)
    requires s.loop == READY && MayPrompt(s, sessionId, false)
    requires first !in s.claimed && second !in s.claimed && first != second
    ensures var steps := Accept(sessionId, first) + ([Cancel(sessionId)] + Accept(sessionId, second));
      && CanRun(s, steps)
      && var t := RunAll(s, steps);
      && s.nextTurn in t.turns && t.turns[s.nextTurn] == Turn(sessionId, first, false)
      && s.nextTurn + 1 in t.turns && t.turns[s.nextTurn + 1] == Turn(sessionId, second, false)
  {
    AcceptRuns(s, sessionId, first);
    var a := RunAll(s, Accept(sessionId, first));
    var b := After(a, Cancel(sessionId));
    AcceptRuns(b, sessionId, second);
    RunFrom(a, Accept(sessionId, second), Cancel(sessionId));
    RunsInTurn(s, Accept(sessionId, first), [Cancel(sessionId)] + Accept(sessionId, second));
  }

  // ----- the source's operations

  datatype PromptError = EmptyPrompt | NotRegistered | Busy | Disappeared | NotRecorded | NotSpawned

  datatype CommandClaim = New | Duplicate

  class Host {
    var workspaceId: nat
    var sessions: map<string, Session>
    var claimed: set<nat>
    var turns: map<nat, Turn>
    var nextTurn: nat
    ghost var prompted: seq<nat>

    /** The state between two commands. */
    ghost function View(): State
      reads this
    {
      State(workspaceId, sessions, claimed, READY, turns, nextTurn, prompted)
    }

    ghost predicate Valid()
      reads this
    {
      CommandsAreSound(View())
    }

    constructor (workspaceId: nat)
      ensures Valid() && Initial(View()) && this.workspaceId == workspaceId && sessions == map[] && claimed == {}
    {
      this.workspaceId := workspaceId;
      sessions, claimed, turns, nextTurn := map[], {}, map[], 0;
      prompted := [];
    }

    /** A second claim of the same command changes nothing. */
    method ClaimCommand(commandId: nat) returns (claim: CommandClaim)
      modifies this`claimed
      ensures claim == if commandId in old(claimed) then Duplicate else New
      ensures claimed == old(claimed) + {commandId}
    {
      claim := if commandId in claimed then Duplicate else New;
      claimed := claimed + {commandId};
    }

    /** Whether a row was changed. */
    method UpdateSessionState(sessionId: string, phase: Phase) returns (updated: bool)
      modifies this`sessions
      ensures updated <==> sessionId in old(sessions)
      ensures sessions == SetPhase(old(sessions), sessionId, phase)
      ensures updated ==> sessions == old(sessions)[sessionId := Session(old(sessions)[sessionId].workspaceId, phase)]
      ensures !updated ==> sessions == old(sessions)
    {
      updated := sessionId in sessions;
      if updated {
        sessions := sessions[sessionId := sessions[sessionId].(phase := phase)];
      }
    }

    /** A prompt that no other task interrupts. A command that was claimed before has no effect. */
    method AcceptPrompt(sessionId: string, blank: bool, commandId: nat, stored: bool, spawned: bool)
      returns (result: Result<CommandClaim, PromptError>)
      requires Valid()
      modifies this
      ensures Valid()
      ensures blank ==> result == Err(EmptyPrompt)
      ensures result == Err(Busy) ==> sessionId in old(sessions) && old(sessions)[sessionId].phase == Working
      ensures !MayPrompt(old(View()), sessionId, blank) || commandId in old(claimed) ==>
        View() == old(View()) && (result.Err? || result == Ok(Duplicate))
      ensures MayPrompt(old(View()), sessionId, blank) && commandId in old(claimed) ==> result == Ok(Duplicate)
      ensures MayPrompt(old(View()), sessionId, blank) && commandId !in old(claimed) ==>
        (result == Ok(New) <==> stored && spawned)
      ensures result == Ok(New) ==>
        CanRun(old(View()), Accept(sessionId, commandId)) && View() == RunAll(old(View()), Accept(sessionId, commandId))
      ensures result.Err? ==> turns == old(turns) && prompted == old(prompted)
      ensures MayPrompt(old(View()), sessionId, blank) && commandId !in old(claimed) && !(stored && spawned) ==>
        claimed == old(claimed) + {commandId} && sessions == SetPhase(old(sessions), sessionId, Working)
    {
      hide Enabled, After;
      if blank {
        return Err(EmptyPrompt);
      }
      if sessionId !in sessions || sessions[sessionId].workspaceId != workspaceId {
        return Err(NotRegistered);
      }
      if sessions[sessionId].phase == Working {
        return Err(Busy);
      }
      ghost var before := View();
      var claim := ClaimCommand(commandId);
      if claim == Duplicate {
        assert claimed == before.claimed;
        return Ok(Duplicate);
      }
      var updated := UpdateSessionState(sessionId, Working);
      if !updated {
        return Err(Disappeared);
      }
      if !stored {
        return Err(NotRecorded);
      }
      if !spawned {
        return Err(NotSpawned);
      }
      AcceptRuns(before, sessionId, commandId);
      turns := turns[nextTurn := Turn(sessionId, commandId, false)];
      nextTurn := nextTurn + 1;
      prompted := prompted + [commandId];
      return Ok(New);
    }

    /** The turn ends after the agent has answered; the session becomes idle unless the update fails. */
    method SettleTurn(turn: nat, saved: bool)
      requires Valid() && turn in turns && turns[turn].answered
      modifies this
      ensures Valid() && View() == After(old(View()), Settle(turn, saved))
      ensures turns == old(turns) - {turn} && turn in old(turns)
      ensures var id := old(turns)[turn].sessionId;
        sessions == if saved && id in old(sessions)
                    then old(sessions)[id := Session(old(sessions)[id].workspaceId, Idle)]
                    else old(sessions)
    {
      CommandsKept(View(), Settle(turn, saved));
      if saved {
        var updated := UpdateSessionState(turns[turn].sessionId, Idle);
      }
      turns := turns - {turn};
    }

    method CancelSession(sessionId: string)
      requires Valid()
      modifies this
      ensures Valid() && View() == After(old(View()), Cancel(sessionId)) && turns == old(turns)
      ensures sessions == if sessionId in old(sessions)
                          then old(sessions)[sessionId := Session(old(sessions)[sessionId].workspaceId, Idle)]
                          else old(sessions)
    {
      CommandsKept(View(), Cancel(sessionId));
      var updated := UpdateSessionState(sessionId, Idle);
    }

    method ResumeSession(sessionId: string)
      requires Valid()
      modifies this
      ensures Valid() && View() == After(old(View()), Resume(sessionId)) && turns == old(turns)
      ensures sessions == if sessionId in old(sessions)
                          then old(sessions)[sessionId := Session(old(sessions)[sessionId].workspaceId, Idle)]
                          else old(sessions)
    {
      CommandsKept(View(), Resume(sessionId));
      var updated := UpdateSessionState(sessionId, Idle);
    }

    method CreateSession(sessionId: string)
      requires Valid()
      modifies this
      ensures Valid() && View() == After(old(View()), Create(sessionId)) && turns == old(turns)
      ensures sessions == old(sessions)[sessionId := Session(workspaceId, Idle)]
    {
      CommandsKept(View(), Create(sessionId));
      sessions := sessions[sessionId := Session(workspaceId, Idle)];
    }

    /** A new process: the turns are gone, the claims are not. */
    method Start()
      requires Valid()
      modifies this
      ensures Valid() && View() == After(old(View()), Restart)
      ensures turns == map[] && claimed == old(claimed) && sessions.Keys == old(sessions).Keys
      ensures forall id :: id in sessions ==>
        (sessions[id] == if old(sessions)[id].workspaceId == workspaceId then Session(workspaceId, Offline)
                         else old(sessions)[id])
    {
      CommandsKept(View(), Restart);
      sessions := AllOffline(sessions, workspaceId);
      turns := map[];
    }
  }
}
