/** The life of a permission request, from apps/leave/src/acp.rs.

  The request handler, the waiter it spawns, deciding callers and the command loop share the map of
  pending permissions; each step below is one stretch of code between two awaits or locks.
 */
module Permissions {
  import opened Outcomes

  type Choice = Option<string>

  datatype Stage =
    | Refused
    | Logged
    | Waiting
    | TimedOut
    | Abandoned
    | Woken(selected: Choice)
    | Cleared(selected: Choice)
    | Answered(selected: Choice)
    | Finished(selected: Choice)

  /** The one-shot channel from a decision to the waiter. */
  datatype Channel = Open | Sent(choice: Choice) | Closed

  datatype Task = Task(sessionId: string, options: seq<string>, stage: Stage, channel: Channel)
  datatype Pending = Pending(sessionId: string, options: seq<string>)

  /** A sender taken out of the map and not yet used, by a decision or by a cancellation. */
  datatype Sending = Sending(choice: Choice, decision: bool)

  datatype Event = Requested(id: nat) | Resolved(id: nat, choice: Choice)
  datatype Entry = Entry(id: nat, choice: Choice)

  /** A decision that was reported as a success; a late one came after the waiter's time was up and
    before the waiter dropped its end of the channel. */
  datatype Decision = Decision(id: nat, choice: Choice, late: bool)

  datatype State = State(tasks: map<nat, Task>, pending: map<nat, Pending>, sending: map<nat, Sending>,
                         decided: seq<Decision>, answers: seq<Entry>, log: seq<Event>)

  datatype Step =
    | Refuse(id: nat, sessionId: string, options: seq<string>)
    | Receive(id: nat, sessionId: string, options: seq<string>)
    | Register(id: nat)
    | SpawnFails(id: nat)
    | Take(id: nat, choice: Choice)
    | TakeCancelled(id: nat)
    | Deliver(id: nat)
    | Wake(id: nat)
    | TimeUp(id: nat)
    | DropReceiver(id: nat)
    | Clear(id: nat)
    | Answer(id: nat, sent: bool)
    | Publish(id: nat, stored: bool)

  predicate Offers(options: seq<string>, choice: Choice) {
    choice.Some? ==> choice.value in options
  }

  function With(s: State, id: nat, task: Task): State {
    s.(tasks := s.tasks[id := task])
  }

  /** When a step can be taken. */
  predicate Enabled(s: State, step: Step) {
    match step
    case Refuse(id, _, _) => id !in s.tasks
    case Receive(id, _, _) => id !in s.tasks
    case Register(id) => id in s.tasks && s.tasks[id].stage == Logged
    case SpawnFails(id) => id in s.tasks && s.tasks[id].stage == Waiting
    case Take(id, choice) => id in s.pending && Offers(s.pending[id].options, choice)
    case TakeCancelled(id) => id in s.pending
    case Deliver(id) => id in s.sending && id in s.tasks
    case Wake(id) => id in s.tasks && s.tasks[id].stage == Waiting && s.tasks[id].channel.Sent?
    case TimeUp(id) => id in s.tasks && s.tasks[id].stage == Waiting && s.tasks[id].channel == Open
    case DropReceiver(id) => id in s.tasks && s.tasks[id].stage == TimedOut
    case Clear(id) => id in s.tasks && s.tasks[id].stage.Woken?
    case Answer(id, _) => id in s.tasks && s.tasks[id].stage.Cleared?
    case Publish(id, _) => id in s.tasks && s.tasks[id].stage.Answered?
  }

  /** The state after a step. */
  function After(s: State, step: Step): State
    requires Enabled(s, step)
  {
    match step
    case Refuse(id, sessionId, options) =>
      With(s, id, Task(sessionId, options, Refused, Closed)).(answers := s.answers + [Entry(id, None)])
    case Receive(id, sessionId, options) =>
      With(s, id, Task(sessionId, options, Logged, Open)).(log := s.log + [Requested(id)])
    case Register(id) =>
      var task := s.tasks[id];
      With(s, id, task.(stage := Waiting)).(pending := s.pending[id := Pending(task.sessionId, task.options)])
    case SpawnFails(id) =>
      With(s, id, s.tasks[id].(stage := Abandoned, channel := Closed))
    case Take(id, choice) =>
      s.(pending := s.pending - {id}, sending := s.sending[id := Sending(choice, true)])
    case TakeCancelled(id) =>
      s.(pending := s.pending - {id}, sending := s.sending[id := Sending(None, false)])
    case Deliver(id) =>
      var sending, task := s.sending[id], s.tasks[id];
      var t := s.(sending := s.sending - {id});
      if task.channel != Open then t
      else
        var decision := Decision(id, sending.choice, task.stage == TimedOut);
        With(t, id, task.(channel := Sent(sending.choice)))
          .(decided := if sending.decision then s.decided + [decision] else s.decided)
    case Wake(id) =>
      With(s, id, s.tasks[id].(stage := Woken(s.tasks[id].channel.choice), channel := Closed))
    case TimeUp(id) =>
      With(s, id, s.tasks[id].(stage := TimedOut))
    case DropReceiver(id) =>
      With(s, id, s.tasks[id].(stage := Woken(None), channel := Closed))
    case Clear(id) =>
      With(s, id, s.tasks[id].(stage := Cleared(s.tasks[id].stage.selected))).(pending := s.pending - {id})
    case Answer(id, sent) =>
      var selected := s.tasks[id].stage.selected;
      if sent then With(s, id, s.tasks[id].(stage := Answered(selected))).(answers := s.answers + [Entry(id, selected)])
      else With(s, id, s.tasks[id].(stage := Finished(selected)))
    case Publish(id, stored) =>
      var selected := s.tasks[id].stage.selected;
      With(s, id, s.tasks[id].(stage := Finished(selected)))
        .(log := if stored then s.log + [Resolved(id, selected)] else s.log)
  }

  // ----- the invariant

  ghost predicate TaskIsSound(task: Task) {
    match task.stage
    case Refused => task.channel == Closed
    case Logged => task.channel == Open
    case Waiting | TimedOut =>
      task.channel != Closed && (task.channel.Sent? ==> Offers(task.options, task.channel.choice))
    case Abandoned => task.channel == Closed
    case _ => task.channel == Closed && Offers(task.options, task.stage.selected)
  }

  ghost predicate IsRegistered(task: Task) {
    task.stage == Waiting || task.stage == TimedOut || task.stage == Abandoned || task.stage.Woken?
  }

  ghost predicate TaskOk(s: State, id: nat) {
    id in s.tasks ==> TaskIsSound(s.tasks[id])
  }

  /** A pending sender belongs to a registered request that has got no decision. */
  ghost predicate PendingOk(s: State, id: nat) {
    id in s.pending ==>
      && id in s.tasks && IsRegistered(s.tasks[id]) && !s.tasks[id].channel.Sent? && id !in s.sending
      && s.pending[id] == Pending(s.tasks[id].sessionId, s.tasks[id].options)
  }

  /** So does one that has been taken out, and what it will send was offered. */
  ghost predicate SendingOk(s: State, id: nat) {
    id in s.sending ==>
      && id in s.tasks && !s.tasks[id].channel.Sent? && s.tasks[id].stage != Logged
      && Offers(s.tasks[id].options, s.sending[id].choice)
  }

  /** Somebody holds the sender of a waiter that has been told nothing. */
  ghost predicate SenderExists(s: State, id: nat) {
    id in s.tasks && (s.tasks[id].stage == Waiting || s.tasks[id].stage == TimedOut) && s.tasks[id].channel == Open ==>
      id in s.pending || id in s.sending
  }

  ghost predicate SendersAreSound(s: State) {
    && (forall id :: TaskOk(s, id)) && (forall id :: PendingOk(s, id))
    && (forall id :: SendingOk(s, id)) && (forall id :: SenderExists(s, id))
  }

  ghost predicate DistinctIds(entries: seq<Entry>) {
    forall i, j :: 0 <= i < j < |entries| ==> entries[i].id != entries[j].id
  }

  ghost predicate DecidedOnce(decided: seq<Decision>) {
    forall i, j :: 0 <= i < j < |decided| ==> decided[i].id != decided[j].id
  }

  /** The stage a request is in once it has been answered with a choice. */
  ghost predicate AnsweredWith(task: Task, choice: Choice) {
    (task.stage == Refused && choice == None) || task.stage == Answered(choice) || task.stage == Finished(choice)
  }

  ghost predicate AnswersAreSound(s: State) {
    DistinctIds(s.answers)
    && forall e :: e in s.answers ==> e.id in s.tasks && AnsweredWith(s.tasks[e.id], e.choice)
  }

  ghost predicate SelectedIs(task: Task, choice: Choice) {
    || task.stage == Woken(choice) || task.stage == Cleared(choice)
    || task.stage == Answered(choice) || task.stage == Finished(choice)
  }

  /** A delivered decision is on its way to the agent, has been abandoned, or came too late. */
  ghost predicate Follows(task: Task, d: Decision) {
    || task.stage == Abandoned
    || (task.stage == (if d.late then TimedOut else Waiting) && task.channel == Sent(d.choice))
    || SelectedIs(task, if d.late then None else d.choice)
  }

  ghost predicate DecisionOk(s: State, d: Decision) {
    d.id in s.tasks && Follows(s.tasks[d.id], d) && d.id !in s.pending && d.id !in s.sending
  }

  ghost predicate DecisionsAreSound(s: State) {
    DecidedOnce(s.decided) && forall d :: d in s.decided ==> DecisionOk(s, d)
  }

  ghost predicate RequestIsLogged(s: State, id: nat) {
    id in s.tasks && s.tasks[id].stage != Refused ==> Requested(id) in s.log
  }

  ghost predicate AnswerIsKept(s: State, id: nat) {
    id in s.tasks && s.tasks[id].stage.Answered? ==> Entry(id, s.tasks[id].stage.selected) in s.answers
  }

  /** Entry `i` of the log resolves a request logged before it with the answer the agent got. */
  ghost predicate ResolvedOk(s: State, i: nat) {
    i < |s.log| && s.log[i].Resolved? ==>
      && s.log[i].id in s.tasks && s.tasks[s.log[i].id].stage == Finished(s.log[i].choice)
      && Entry(s.log[i].id, s.log[i].choice) in s.answers
      && Requested(s.log[i].id) in s.log[..i]
  }

  ghost predicate ResolvedOnce(log: seq<Event>) {
    forall i, j :: 0 <= i < j < |log| && log[i].Resolved? && log[j].Resolved? ==> log[i].id != log[j].id
  }

  ghost predicate LogIsSound(s: State) {
    && (forall id :: RequestIsLogged(s, id)) && (forall id :: AnswerIsKept(s, id))
    && (forall i :: ResolvedOk(s, i)) && ResolvedOnce(s.log)
  }

  ghost predicate Good(s: State) {
    SendersAreSound(s) && AnswersAreSound(s) && DecisionsAreSound(s) && LogIsSound(s)
  }

  lemma TaskKept(s: State, step: Step, id: nat)
    requires SendersAreSound(s) && Enabled(s, step)
    ensures TaskOk(After(s, step), id)
  {
    assert TaskOk(s, id) && PendingOk(s, id) && SendingOk(s, id);
  }

  lemma PendingKept(s: State, step: Step, id: nat)
    requires SendersAreSound(s) && Enabled(s, step)
    ensures PendingOk(After(s, step), id)
  {
    assert TaskOk(s, id) && PendingOk(s, id) && SendingOk(s, id);
  }

  lemma SendingKept(s: State, step: Step, id: nat)
    requires SendersAreSound(s) && Enabled(s, step)
    ensures SendingOk(After(s, step), id)
  {
    assert TaskOk(s, id) && PendingOk(s, id) && SendingOk(s, id);
  }

  lemma SenderKept(s: State, step: Step, id: nat)
    requires SendersAreSound(s) && Enabled(s, step)
    ensures SenderExists(After(s, step), id)
  {
    assert SenderExists(s, id) && TaskOk(s, id);
    hide SendersAreSound, Offers, TaskIsSound;
  }

  lemma SendersKept(s: State, step: Step)
    requires SendersAreSound(s) && Enabled(s, step)
    ensures SendersAreSound(After(s, step))
  {
    var t := After(s, step);
    forall id: nat ensures TaskOk(t, id) { TaskKept(s, step, id); }
    forall id: nat ensures PendingOk(t, id) { PendingKept(s, step, id); }
    forall id: nat ensures SendingOk(t, id) { SendingKept(s, step, id); }
    forall id: nat ensures SenderExists(t, id) { SenderKept(s, step, id); }
  }

  lemma AnswersKept(s: State, step: Step)
    requires AnswersAreSound(s) && Enabled(s, step)
    ensures AnswersAreSound(After(s, step))
  {
    hide Offers;
  }

  /** What an earlier decision needs of one request is kept. */
  lemma FollowsKept(s: State, step: Step, d: Decision)
    requires SendersAreSound(s) && DecisionOk(s, d) && Enabled(s, step)
    ensures DecisionOk(After(s, step), d)
  {
    assert TaskOk(s, d.id);
    hide TaskIsSound, SendersAreSound, Offers;
  }

  lemma NewDecision(s: State, step: Step, d: Decision)
    requires SendersAreSound(s) && Enabled(s, step) && d !in s.decided && d in After(s, step).decided
    ensures DecisionOk(After(s, step), d)
  {
    assert step.Deliver? && d.id == step.id;
    assert TaskOk(s, d.id) && PendingOk(s, d.id) && SendingOk(s, d.id);
    hide SendersAreSound, Offers;
  }

  lemma DecisionKept(s: State, step: Step, d: Decision)
    requires SendersAreSound(s) && DecisionsAreSound(s) && Enabled(s, step) && d in After(s, step).decided
    ensures DecisionOk(After(s, step), d)
  {
    hide SendersAreSound, Enabled, After, DecisionOk, DecidedOnce;
    if d in s.decided {
      FollowsKept(s, step, d);
    } else {
      NewDecision(s, step, d);
    }
  }

  lemma DecisionsKept(s: State, step: Step)
    requires SendersAreSound(s) && DecisionsAreSound(s) && Enabled(s, step)
    ensures DecisionsAreSound(After(s, step))
  {
    var t := After(s, step);
    forall d | d in t.decided ensures DecisionOk(t, d) { DecisionKept(s, step, d); }
    forall i | 0 <= i < |s.decided| ensures s.decided[i].id !in s.sending {
      assert s.decided[i] in s.decided;
    }
  }

  lemma RequestLoggedKept(s: State, step: Step, id: nat)
    requires LogIsSound(s) && Enabled(s, step)
    ensures RequestIsLogged(After(s, step), id) && AnswerIsKept(After(s, step), id)
  {
    assert RequestIsLogged(s, id) && AnswerIsKept(s, id);
  }

  lemma ResolvedKept(s: State, step: Step, i: nat)
    requires LogIsSound(s) && Enabled(s, step)
    ensures ResolvedOk(After(s, step), i)
  {
    var t := After(s, step);
    assert ResolvedOk(s, i);
    if i < |s.log| {
      assert t.log[..i] == s.log[..i];
    } else if i < |t.log| && t.log[i].Resolved? {
      assert t.log[..i] == s.log;
      assert RequestIsLogged(s, step.id) && AnswerIsKept(s, step.id);
    }
  }

  lemma ResolvedOnceKept(s: State, step: Step)
    requires LogIsSound(s) && Enabled(s, step)
    ensures ResolvedOnce(After(s, step).log)
  {
    if step.Publish? {
      forall i | 0 <= i < |s.log| && s.log[i].Resolved? ensures s.log[i].id != step.id {
        assert ResolvedOk(s, i);
      }
    }
  }

  lemma LogKept(s: State, step: Step)
    requires LogIsSound(s) && Enabled(s, step)
    ensures LogIsSound(After(s, step))
  {
    var t := After(s, step);
    forall id ensures RequestIsLogged(t, id) { RequestLoggedKept(s, step, id); }
    forall id ensures AnswerIsKept(t, id) { RequestLoggedKept(s, step, id); }
    forall i ensures ResolvedOk(t, i) { ResolvedKept(s, step, i); }
    ResolvedOnceKept(s, step);
  }

  lemma GoodKept(s: State, step: Step)
    requires Good(s) && Enabled(s, step)
    ensures Good(After(s, step))
  {
    SendersKept(s, step);
    AnswersKept(s, step);
    DecisionsKept(s, step);
    LogKept(s, step);
  }

  // ----- whole runs

  const START := State(map[], map[], map[], [], [], [])

  ghost predicate Moves(s: State, step: Step, t: State) {
    Enabled(s, step) && t == After(s, step)
  }

  ghost predicate IsRun(states: seq<State>, steps: seq<Step>) {
    && |states| == |steps| + 1 && states[0] == START
    && forall i :: 0 <= i < |steps| ==> Moves(states[i], steps[i], states[i + 1])
  }

  lemma {:induction false} RunIsGood(states: seq<State>, steps: seq<Step>, k: nat)
    requires IsRun(states, steps) && k <= |steps|
    ensures Good(states[k])
  {
    if k > 0 {
      RunIsGood(states, steps, k - 1);
      assert Moves(states[k - 1], steps[k - 1], states[k]);
      GoodKept(states[k - 1], steps[k - 1]);
    }
  }

  /** Whatever the interleaving: one answer per request, and only with an option that was offered;
    one successful decision per request, which the answer follows exactly unless it was late, and
    a late one is answered like a time-out; requests are logged before they become pending or
    resolved, and resolved once, with the answer the agent got. */
  lemma PermissionsAreSafe(states: seq<State>, steps: seq<Step>, k: nat)
    requires IsRun(states, steps) && k <= |steps|
    ensures var s := states[k];
      && DistinctIds(s.answers)
      && (forall e :: e in s.answers ==> e.id in s.tasks && Offers(s.tasks[e.id].options, e.choice))
      && DecidedOnce(s.decided)
      && (forall d, a :: d in s.decided && a in s.answers && d.id == a.id ==>
            a.choice == if d.late then None else d.choice)
      && (forall id :: id in s.pending ==> Requested(id) in s.log)
      && (forall i :: 0 <= i < |s.log| && s.log[i].Resolved? ==>
            Requested(s.log[i].id) in s.log[..i] && Entry(s.log[i].id, s.log[i].choice) in s.answers)
      && ResolvedOnce(s.log)
  {
    RunIsGood(states, steps, k);
    var s := states[k];
    forall e | e in s.answers ensures Offers(s.tasks[e.id].options, e.choice) {
      assert TaskOk(s, e.id);
    }
    forall d, a | d in s.decided && a in s.answers && d.id == a.id
      ensures a.choice == if d.late then None else d.choice
    {
      assert TaskOk(s, d.id) && DecisionOk(s, d);
    }
    forall id | id in s.pending ensures Requested(id) in s.log {
      assert PendingOk(s, id) && RequestIsLogged(s, id);
    }
    forall i | 0 <= i < |s.log| && s.log[i].Resolved?
      ensures Requested(s.log[i].id) in s.log[..i] && Entry(s.log[i].id, s.log[i].choice) in s.answers
    {
      assert ResolvedOk(s, i);
    }
  }

  /** In every run, a waiter that is neither decided nor out of time can still be told: its sender is
    pending or on its way. */
  lemma WaitersHaveSenders(states: seq<State>, steps: seq<Step>, k: nat, id: nat)
    requires IsRun(states, steps) && k <= |steps| && id in states[k].tasks
    requires states[k].tasks[id].stage == Waiting || states[k].tasks[id].stage == TimedOut
    requires states[k].tasks[id].channel == Open
    ensures id in states[k].pending || id in states[k].sending
  {
    RunIsGood(states, steps, k);
    assert SenderExists(states[k], id);
  }

  /** Before moment `k` the agent was sent an answer to the request. */
  ghost predicate AnswerSent(steps: seq<Step>, k: nat, id: nat)
    requires k <= |steps|
  {
    exists i :: 0 <= i < k && steps[i] == Answer(id, true)
  }

  ghost predicate HasAnswer(s: State, id: nat) {
    exists e :: e in s.answers && e.id == id
  }

  lemma AnswerStays(s: State, step: Step, t: State, id: nat)
    requires Moves(s, step, t)
    ensures HasAnswer(t, id) <==> HasAnswer(s, id) || step == Answer(id, true) || (step.Refuse? && step.id == id)
    ensures id in s.tasks ==> id in t.tasks && (t.tasks[id].stage == Refused <==> s.tasks[id].stage == Refused)
    ensures step.Refuse? && step.id == id ==> id in t.tasks && t.tasks[id].stage == Refused
  {
    if step.Refuse? || (step.Answer? && step.sent) {
      AnswersGrow(s, step, t);
    }
  }

  lemma AnswersGrow(s: State, step: Step, t: State)
    requires Moves(s, step, t) && (step.Refuse? || (step.Answer? && step.sent))
    ensures exists e :: t.answers == s.answers + [e] && e.id == step.id && e in t.answers
    ensures forall e :: e in s.answers ==> e in t.answers
  {
    var last := t.answers[|t.answers| - 1];
    assert t.answers == s.answers + [last] && last in t.answers;
  }

  /** Requests that were not refused are answered by `Answer` steps and by nothing else. */
  lemma {:induction false} AnswersAreSent(states: seq<State>, steps: seq<Step>, k: nat, id: nat)
    requires IsRun(states, steps) && k <= |steps|
    requires id in states[k].tasks && states[k].tasks[id].stage != Refused
    ensures HasAnswer(states[k], id) <==> AnswerSent(steps, k, id)
  {
    if k > 0 {
      assert Moves(states[k - 1], steps[k - 1], states[k]);
      AnswerStays(states[k - 1], steps[k - 1], states[k], id);
      if id in states[k - 1].tasks {
        AnswersAreSent(states, steps, k - 1, id);
      } else {
        NoAnswerYet(states, steps, k - 1, id);
      }
      assert AnswerSent(steps, k, id) <==> AnswerSent(steps, k - 1, id) || steps[k - 1] == Answer(id, true);
    }
  }

  /** Nothing is answered before it is asked. */
  lemma {:induction false} NoAnswerYet(states: seq<State>, steps: seq<Step>, k: nat, id: nat)
    requires IsRun(states, steps) && k <= |steps| && id !in states[k].tasks
    ensures !HasAnswer(states[k], id) && !AnswerSent(steps, k, id)
  {
    if k > 0 {
      assert Moves(states[k - 1], steps[k - 1], states[k]);
      AnswerStays(states[k - 1], steps[k - 1], states[k], id);
      NoAnswerYet(states, steps, k - 1, id);
    }
  }

  /** The agent has been told what a successful decision says exactly when an answer has been sent and
    the decision was in time or says nothing but what a time-out says. */
  lemma DecisionIsHonoured(states: seq<State>, steps: seq<Step>, k: nat, d: Decision)
    requires IsRun(states, steps) && k <= |steps| && d in states[k].decided
    ensures Entry(d.id, d.choice) in states[k].answers <==> AnswerSent(steps, k, d.id) && (!d.late || d.choice == None)
  {
    var s := states[k];
    PermissionsAreSafe(states, steps, k);
    RunIsGood(states, steps, k);
    assert DecisionOk(s, d);
    AnswersAreSent(states, steps, k, d.id);
  }

  /** A request whose waiter could not be spawned is never answered, whatever was decided. */
  lemma {:induction false} AbandonedStays(states: seq<State>, steps: seq<Step>, j: nat, k: nat, id: nat)
    requires IsRun(states, steps) && j <= k <= |steps|
    requires id in states[j].tasks && states[j].tasks[id].stage == Abandoned
    ensures id in states[k].tasks && states[k].tasks[id].stage == Abandoned && !HasAnswer(states[k], id)
    decreases k - j
  {
    if j < k {
      AbandonedStays(states, steps, j, k - 1, id);
      assert Moves(states[k - 1], steps[k - 1], states[k]);
      AnswerStays(states[k - 1], steps[k - 1], states[k], id);
      StageStays(states[k - 1], steps[k - 1], states[k], id);
    } else {
      RunIsGood(states, steps, k);
    }
  }

  lemma StageStays(s: State, step: Step, t: State, id: nat)
    requires Moves(s, step, t) && id in s.tasks && s.tasks[id].stage == Abandoned
    ensures id in t.tasks && t.tasks[id].stage == Abandoned
  {
  }

  /** A desk with one request, whose sender a decision for `option` has taken. */
  function Deciding(id: nat, task: Task, option: string): State {
    State(map[id := task], map[], map[id := Sending(Some(option), true)], [], [], [Requested(id)])
  }

  /** A desk with one request that a late decision has reached. */
  function Late(id: nat, task: Task, option: string, answers: seq<Entry>): State {
    State(map[id := task], map[], map[], [Decision(id, Some(option), true)], answers, [Requested(id)])
  }

  /** A desk with one request that a decision has reached in time. */
  function InTime(id: nat, task: Task, option: string): State {
    State(map[id := task], map[], map[], [Decision(id, Some(option), false)], [], [Requested(id)])
  }

  lemma AskMoves(id: nat, task: Task, option: string) returns (s: State, t: State)
    requires task == Task(task.sessionId, [option], Waiting, Open)
    ensures Moves(START, Receive(id, task.sessionId, [option]), s) && Moves(s, Register(id), t)
    ensures t == State(map[id := task], map[id := Pending(task.sessionId, [option])], map[], [], [], [Requested(id)])
  {
    s := State(map[id := task.(stage := Logged)], map[], map[], [], [], [Requested(id)]);
    t := State(map[id := task], map[id := Pending(task.sessionId, [option])], map[], [], [], [Requested(id)]);
  }

  lemma TakeMoves(id: nat, task: Task, option: string, s: State)
    requires s == State(map[id := task], map[id := Pending(task.sessionId, [option])], map[], [], [], [Requested(id)])
    ensures Moves(s, Take(id, Some(option)), Deciding(id, task, option))
  {
    assert s.pending - {id} == map[];
  }

  lemma TimeUpMoves(id: nat, task: Task, option: string)
    requires task.stage == Waiting && task.channel == Open
    ensures Moves(Deciding(id, task, option), TimeUp(id), Deciding(id, task.(stage := TimedOut), option))
  {
  }

  lemma DeliverMoves(id: nat, task: Task, option: string)
    requires task.stage == TimedOut && task.channel == Open
    ensures Moves(Deciding(id, task, option), Deliver(id), Late(id, task.(channel := Sent(Some(option))), option, []))
  {
    assert Deciding(id, task, option).sending - {id} == map[];
  }

  lemma DropMoves(id: nat, task: Task, option: string)
    requires task.stage == TimedOut
    ensures Moves(Late(id, task, option, []), DropReceiver(id),
                  Late(id, task.(stage := Woken(None), channel := Closed), option, []))
  {
  }

  lemma ClearMoves(id: nat, task: Task, option: string)
    requires task.stage == Woken(None)
    ensures Moves(Late(id, task, option, []), Clear(id), Late(id, task.(stage := Cleared(None)), option, []))
  {
    assert Late(id, task, option, []).pending - {id} == map[];
  }

  lemma AnswerMoves(id: nat, task: Task, option: string)
    requires task.stage == Cleared(None)
    ensures var t := Late(id, task.(stage := Answered(None)), option, [Entry(id, None)]);
      && Moves(Late(id, task, option, []), Answer(id, true), t)
      && t.decided == [Decision(id, Some(option), true)] && t.answers == [Entry(id, None)]
  {
  }

  /** A run that loses a decision: it is delivered, and reported as a success, between the waiter's
    time-out and the drop of its receiver, and the agent is told that nothing was chosen. */
  lemma LateDecisionIsLost(id: nat, sessionId: string, option: string) returns (states: seq<State>, steps: seq<Step>)
    ensures IsRun(states, steps) && |steps| == 8 && steps[4] == Deliver(id)
    ensures states[8].decided == [Decision(id, Some(option), true)] && states[8].answers == [Entry(id, None)]
  {
    hide Moves, Deciding, Late, IsRun;
    var task := Task(sessionId, [option], Waiting, Open);
    var s1, s2 := AskMoves(id, task, option);
    TakeMoves(id, task, option, s2);
    TimeUpMoves(id, task, option);
    var late := task.(stage := TimedOut);
    DeliverMoves(id, late, option);
    var sent := late.(channel := Sent(Some(option)));
    DropMoves(id, sent, option);
    var gone := sent.(stage := Woken(None), channel := Closed);
    ClearMoves(id, gone, option);
    var cleared := gone.(stage := Cleared(None));
    AnswerMoves(id, cleared, option);
    states, steps := EightMoves(START, Receive(id, sessionId, [option]), s1, Register(id), s2, Take(id, Some(option)),
      Deciding(id, task, option), TimeUp(id), Deciding(id, late, option), Deliver(id),
      Late(id, sent, option, []), DropReceiver(id), Late(id, gone, option, []), Clear(id),
      Late(id, cleared, option, []), Answer(id, true),
      Late(id, cleared.(stage := Answered(None)), option, [Entry(id, None)]));
  }

  lemma EightMoves(s0: State, a: Step, s1: State, b: Step, s2: State, c: Step, s3: State, d: Step, s4: State,
                   e: Step, s5: State, f: Step, s6: State, g: Step, s7: State, h: Step, s8: State)
    returns (states: seq<State>, steps: seq<Step>)
    requires s0 == START && Moves(s0, a, s1) && Moves(s1, b, s2) && Moves(s2, c, s3) && Moves(s3, d, s4)
    requires Moves(s4, e, s5) && Moves(s5, f, s6) && Moves(s6, g, s7) && Moves(s7, h, s8)
    ensures IsRun(states, steps) && |steps| == 8 && steps[4] == e && states[8] == s8
  {
    hide Moves;
    states, steps := [s0, s1, s2, s3, s4, s5, s6, s7, s8], [a, b, c, d, e, f, g, h];
  }

  lemma SendMoves(id: nat, task: Task, option: string)
    requires task.stage == Waiting && task.channel == Open
    ensures var t := InTime(id, task.(channel := Sent(Some(option))), option);
      Moves(Deciding(id, task, option), Deliver(id), t)
  {
    assert Deciding(id, task, option).sending - {id} == map[];
  }

  lemma AbandonMoves(id: nat, task: Task, option: string)
    requires task.stage == Waiting
    ensures var t := InTime(id, task.(stage := Abandoned, channel := Closed), option);
      && Moves(InTime(id, task, option), SpawnFails(id), t)
      && t.decided == [Decision(id, Some(option), false)] && t.answers == []
      && id in t.tasks && t.tasks[id].stage == Abandoned
  {
  }

  /** A run that loses a decision made in time: it is delivered before the waiter is spawned, the spawn
    fails, and the agent is never answered. */
  lemma InTimeDecisionIsLost(id: nat, sessionId: string, option: string)
    returns (states: seq<State>, steps: seq<Step>)
    ensures IsRun(states, steps) && |steps| == 5 && steps[3] == Deliver(id) && steps[4] == SpawnFails(id)
    ensures states[5].decided == [Decision(id, Some(option), false)] && states[5].answers == []
    ensures id in states[5].tasks && states[5].tasks[id].stage == Abandoned
  {
    hide Moves, Deciding, InTime, IsRun;
    var task := Task(sessionId, [option], Waiting, Open);
    var s1, s2 := AskMoves(id, task, option);
    TakeMoves(id, task, option, s2);
    SendMoves(id, task, option);
    var sent := task.(channel := Sent(Some(option)));
    AbandonMoves(id, sent, option);
    states, steps := FiveMoves(START, Receive(id, sessionId, [option]), s1, Register(id), s2, Take(id, Some(option)),
      Deciding(id, task, option), Deliver(id), InTime(id, sent, option), SpawnFails(id),
      InTime(id, sent.(stage := Abandoned, channel := Closed), option));
  }

  lemma FiveMoves(s0: State, a: Step, s1: State, b: Step, s2: State, c: Step, s3: State, d: Step, s4: State,
                  e: Step, s5: State)
    returns (states: seq<State>, steps: seq<Step>)
    requires s0 == START && Moves(s0, a, s1) && Moves(s1, b, s2) && Moves(s2, c, s3)
    requires Moves(s3, d, s4) && Moves(s4, e, s5)
    ensures IsRun(states, steps) && |steps| == 5 && steps[3] == d && steps[4] == e && states[5] == s5
  {
    hide Moves;
    states, steps := [s0, s1, s2, s3, s4, s5], [a, b, c, d, e];
  }

  // ----- a request that nothing disturbs

  /** The state with one more request and what it has left behind. */
  function WithCase(s: State, id: nat, task: Task, decided: seq<Decision>, answers: seq<Entry>,
                    log: seq<Event>): State {
    State(s.tasks[id := task], s.pending, s.sending, s.decided + decided, s.answers + answers, s.log + log)
  }

  ghost predicate IsNew(s: State, id: nat) {
    id !in s.tasks && id !in s.pending && id !in s.sending
  }

  lemma NewRequest(s: State, id: nat)
    requires Good(s) && id !in s.tasks
    ensures IsNew(s, id)
  {
    assert PendingOk(s, id) && SendingOk(s, id);
  }

  lemma ReceiveThenRegister(s: State, id: nat, task: Task) returns (t: State, u: State)
    requires IsNew(s, id) && task.stage == Waiting && task.channel == Open
    ensures Moves(s, Receive(id, task.sessionId, task.options), t) && Moves(t, Register(id), u)
    ensures u == WithCase(s, id, task, [], [], [Requested(id)])
      .(pending := s.pending[id := Pending(task.sessionId, task.options)])
  {
    t := WithCase(s, id, task.(stage := Logged), [], [], [Requested(id)]);
    var entry := Pending(task.sessionId, task.options);
    u := WithCase(s, id, task, [], [], [Requested(id)]).(pending := s.pending[id := entry]);
  }

  lemma TakeThenDeliver(s: State, id: nat, task: Task, choice: Choice, t: State) returns (u: State, v: State)
    requires IsNew(s, id) && task.stage == Waiting && task.channel == Open && Offers(task.options, choice)
    requires t == WithCase(s, id, task, [], [], [Requested(id)])
      .(pending := s.pending[id := Pending(task.sessionId, task.options)])
    ensures Moves(t, Take(id, choice), u) && Moves(u, Deliver(id), v)
    ensures v == WithCase(s, id, task.(channel := Sent(choice)), [Decision(id, choice, false)], [], [Requested(id)])
  {
    assert t.pending - {id} == s.pending;
    u := t.(pending := s.pending, sending := s.sending[id := Sending(choice, true)]);
    assert u.sending - {id} == s.sending;
    v := WithCase(s, id, task.(channel := Sent(choice)), [Decision(id, choice, false)], [], [Requested(id)]);
    assert u.decided == s.decided;
  }

  lemma WakeThenClear(s: State, id: nat, task: Task, choice: Choice, d: seq<Decision>, log: seq<Event>)
    returns (u: State, v: State)
    requires id !in s.pending && task.stage == Waiting && task.channel == Sent(choice)
    ensures Moves(WithCase(s, id, task, d, [], log), Wake(id), u) && Moves(u, Clear(id), v)
    ensures v == WithCase(s, id, task.(stage := Cleared(choice), channel := Closed), d, [], log)
  {
    u := WithCase(s, id, task.(stage := Woken(choice), channel := Closed), d, [], log);
    assert u.pending - {id} == s.pending;
    v := WithCase(s, id, task.(stage := Cleared(choice), channel := Closed), d, [], log);
  }

  lemma AnswerThenPublish(s: State, id: nat, task: Task, choice: Choice, d: seq<Decision>, log: seq<Event>)
    returns (u: State, v: State)
    requires task.stage == Cleared(choice)
    ensures Moves(WithCase(s, id, task, d, [], log), Answer(id, true), u) && Moves(u, Publish(id, true), v)
    ensures v == WithCase(s, id, task.(stage := Finished(choice)), d, [Entry(id, choice)], log + [Resolved(id, choice)])
  {
    assert s.answers + [] == s.answers;
    u := WithCase(s, id, task.(stage := Answered(choice)), d, [Entry(id, choice)], log);
    assert s.log + log + [Resolved(id, choice)] == s.log + (log + [Resolved(id, choice)]);
    v := WithCase(s, id, task.(stage := Finished(choice)), d, [Entry(id, choice)], log + [Resolved(id, choice)]);
  }

  ghost predicate Leads(s: State, steps: seq<Step>, t: State)
    decreases |steps|
  {
    if steps == [] then s == t else Enabled(s, steps[0]) && Leads(After(s, steps[0]), steps[1..], t)
  }

  lemma LeadsFurther(s: State, step: Step, t: State, rest: seq<Step>, u: State)
    requires Moves(s, step, t) && Leads(t, rest, u)
    ensures Leads(s, [step] + rest, u)
  {
    hide Enabled, After;
    assert ([step] + rest)[1..] == rest;
  }

  /** From any state of any run: a request is logged, decided with an offered option, and the agent gets
    exactly that option, the log says so, nothing is left pending, and nothing else changes. */
  lemma DecisionReachesAgent(s: State, id: nat, sessionId: string, options: seq<string>, choice: Choice)
    requires Good(s) && id !in s.tasks && Offers(options, choice)
    ensures Leads(s, [Receive(id, sessionId, options), Register(id), Take(id, choice), Deliver(id), Wake(id),
                      Clear(id), Answer(id, true), Publish(id, true)],
                  State(s.tasks[id := Task(sessionId, options, Finished(choice), Closed)], s.pending, s.sending,
                        s.decided + [Decision(id, choice, false)], s.answers + [Entry(id, choice)],
                        s.log + [Requested(id), Resolved(id, choice)]))
  {
    NewRequest(s, id);
    hide Good, Moves, IsNew;
    var task := Task(sessionId, options, Waiting, Open);
    var sent, d, log := task.(channel := Sent(choice)), [Decision(id, choice, false)], [Requested(id)];
    var a, b := ReceiveThenRegister(s, id, task);
    var c, e := TakeThenDeliver(s, id, task, choice, b);
    NewHasNoSender(s, id);
    var f, g := WakeThenClear(s, id, sent, choice, d, log);
    var cleared := sent.(stage := Cleared(choice), channel := Closed);
    var h, i := AnswerThenPublish(s, id, cleared, choice, d, log);
    assert log + [Resolved(id, choice)] == [Requested(id), Resolved(id, choice)];
    Stays(i);
    LeadsFurther(h, Publish(id, true), i, [], i);
    LeadsFurther(g, Answer(id, true), h, [Publish(id, true)], i);
    LeadsFurther(f, Clear(id), g, [Answer(id, true), Publish(id, true)], i);
    LeadsFurther(e, Wake(id), f, [Clear(id), Answer(id, true), Publish(id, true)], i);
    LeadsFurther(c, Deliver(id), e, [Wake(id), Clear(id), Answer(id, true), Publish(id, true)], i);
    LeadsFurther(b, Take(id, choice), c, [Deliver(id), Wake(id), Clear(id), Answer(id, true), Publish(id, true)], i);
    LeadsFurther(a, Register(id), b,
      [Take(id, choice), Deliver(id), Wake(id), Clear(id), Answer(id, true), Publish(id, true)], i);
    LeadsFurther(s, Receive(id, sessionId, options), a,
      [Register(id), Take(id, choice), Deliver(id), Wake(id), Clear(id), Answer(id, true), Publish(id, true)], i);
  }

  lemma NewHasNoSender(s: State, id: nat)
    requires IsNew(s, id)
    ensures id !in s.pending
  {
  }

  lemma Stays(s: State)
    ensures Leads(s, [], s)
  {
  }

  // ----- the source's operations

  datatype DecideError = NoLongerPending | InvalidOption | Expired

  class PermissionDesk {
    var tasks: map<nat, Task>
    var pending: map<nat, Pending>
    var sending: map<nat, Sending>
    ghost var decided: seq<Decision>
    ghost var answers: seq<Entry>
    var log: seq<Event>

    ghost function View(): State
      reads this
    {
      State(tasks, pending, sending, decided, answers, log)
    }

    ghost predicate Valid()
      reads this
    {
      Good(View())
    }

    constructor ()
      ensures Valid() && View() == START
    {
      tasks, pending, sending, log := map[], map[], map[], [];
      decided, answers := [], [];
    }

    /** The request handler: audit first, then register. */
    method Receive(id: nat, sessionId: string, options: seq<string>, stored: bool)
      requires Valid() && id !in tasks
      modifies this
      ensures Valid()
      ensures View() == After(old(View()),
        if stored then Step.Receive(id, sessionId, options) else Step.Refuse(id, sessionId, options))
    {
      GoodKept(View(), if stored then Step.Receive(id, sessionId, options) else Step.Refuse(id, sessionId, options));
      if stored {
        log := log + [Requested(id)];
        tasks := tasks[id := Task(sessionId, options, Logged, Open)];
      } else {
        answers := answers + [Entry(id, None)];
        tasks := tasks[id := Task(sessionId, options, Refused, Closed)];
      }
    }

    method Register(id: nat)
      requires Valid() && id in tasks && tasks[id].stage == Logged
      modifies this
      ensures Valid() && View() == After(old(View()), Step.Register(id))
      ensures pending == old(pending)[id := Pending(old(tasks)[id].sessionId, old(tasks)[id].options)]
    {
      GoodKept(View(), Step.Register(id));
      pending := pending[id := Pending(tasks[id].sessionId, tasks[id].options)];
      tasks := tasks[id := tasks[id].(stage := Waiting)];
    }

    /** The part of a decision that holds the lock. */
    method TakeForDecision(id: nat, choice: Choice) returns (result: Result<(), DecideError>)
      requires Valid()
      modifies this
      ensures Valid()
      ensures result == if id !in old(pending) then Err(NoLongerPending)
                        else if !Offers(old(pending)[id].options, choice) then Err(InvalidOption) else Ok(())
      ensures View() == if result.Ok? then After(old(View()), Take(id, choice)) else old(View())
    {
      if id !in pending {
        return Err(NoLongerPending);
      }
      if choice.Some? && choice.value !in pending[id].options {
        return Err(InvalidOption);
      }
      GoodKept(View(), Take(id, choice));
      pending, sending := pending - {id}, sending[id := Sending(choice, true)];
      return Ok(());
    }

    /** The send on the one-shot channel; it fails when the waiter has stopped listening. */
    method Deliver(id: nat) returns (received: bool)
      requires Valid() && id in sending
      modifies this
      ensures Valid() && id in old(tasks) && View() == After(old(View()), Step.Deliver(id))
      ensures received <==> old(tasks)[id].channel == Open
      ensures received ==> id in tasks && tasks[id].channel == Sent(old(sending)[id].choice)
    {
      assert SendingOk(View(), id);
      GoodKept(View(), Step.Deliver(id));
      var used := sending[id];
      received := tasks[id].channel == Open;
      if received {
        tasks := tasks[id := tasks[id].(channel := Sent(used.choice))];
        if used.decision {
          decided := decided + [Decision(id, used.choice, tasks[id].stage == TimedOut)];
        }
      }
      sending := sending - {id};
    }

    /** A decision that nothing interrupts. */
    method DecidePermission(id: nat, choice: Choice) returns (result: Result<(), DecideError>)
      requires Valid()
      modifies this
      ensures Valid()
      ensures result.Ok? <==>
        && id in old(pending) && Offers(old(pending)[id].options, choice)
        && id in old(tasks) && old(tasks)[id].channel == Open
      ensures result.Ok? ==> id in tasks && tasks[id].channel == Sent(choice)
      ensures result.Ok? ==> decided == old(decided) + [Decision(id, choice, old(tasks)[id].stage == TimedOut)]
      ensures result.Err? ==> decided == old(decided)
      ensures result == Err(Expired) || result.Ok? ==> pending == old(pending) - {id}
      ensures log == old(log) && answers == old(answers)
    {
      assert PendingOk(View(), id);
      var taken := TakeForDecision(id, choice);
      if taken.Err? {
        return taken;
      }
      var received := Deliver(id);
      return if received then Ok(()) else Err(Expired);
    }

    /** Cancel every pending request of a session: none of them is left, and each waiter that still
      listens is told so. Nothing else changes. */
    method CancelPending(sessionId: string)
      requires Valid()
      modifies this
      ensures Valid() && decided == old(decided) && log == old(log) && answers == old(answers)
      ensures sending == old(sending) && tasks.Keys == old(tasks).Keys
      ensures pending.Keys == set id | id in old(pending) && old(pending)[id].sessionId != sessionId
      ensures forall id :: id in pending ==> pending[id] == old(pending)[id]
      ensures forall id :: id in old(tasks) ==>
        tasks[id] == (if id in old(pending) && old(pending)[id].sessionId == sessionId && old(tasks)[id].channel == Open
                      then old(tasks)[id].(channel := Sent(None)) else old(tasks)[id])
    {
      hide AnswersAreSound, DecisionsAreSound, LogIsSound, SendersAreSound;
      var left := set id | id in pending && pending[id].sessionId == sessionId;
      while left != {}
        invariant Valid() && decided == old(decided) && log == old(log) && answers == old(answers)
        invariant sending == old(sending) && tasks.Keys == old(tasks).Keys
        invariant left <= pending.Keys <= old(pending).Keys
        invariant forall id :: id in pending ==> pending[id] == old(pending)[id]
        invariant forall id :: id in old(pending) ==>
          (id in pending <==> old(pending)[id].sessionId != sessionId || id in left)
        invariant forall id :: id in left ==> old(pending)[id].sessionId == sessionId
        invariant forall id :: id in old(tasks) ==>
          tasks[id] == (if id in old(pending) && id !in pending && old(tasks)[id].channel == Open
                        then old(tasks)[id].(channel := Sent(None)) else old(tasks)[id])
        decreases left
      {
        var id :| id in left;
        left := left - {id};
        CancelOne(id);
      }
    }

    method CancelOne(id: nat)
      requires Valid() && id in pending
      modifies this
      ensures Valid() && decided == old(decided) && log == old(log) && answers == old(answers)
      ensures pending == old(pending) - {id} && sending == old(sending) && id in old(tasks)
      ensures tasks == if old(tasks)[id].channel == Open
                       then old(tasks)[id := old(tasks)[id].(channel := Sent(None))] else old(tasks)
    {
      assert PendingOk(View(), id);
      GoodKept(View(), TakeCancelled(id));
      ghost var before := sending;
      pending, sending := pending - {id}, sending[id := Sending(None, false)];
      var received := Deliver(id);
      assert before[id := Sending(None, false)] - {id} == before;
    }

    /** The waiter looks at its channel for the last time: it takes what was sent, or its time is up. */
    method Wake(id: nat)
      requires Valid() && id in tasks && tasks[id].stage == Waiting
      modifies this
      ensures Valid() && old(tasks)[id].channel != Closed
      ensures View() == After(old(View()), if old(tasks)[id].channel == Open then TimeUp(id) else Step.Wake(id))
    {
      assert TaskOk(View(), id);
      GoodKept(View(), if tasks[id].channel == Open then TimeUp(id) else Step.Wake(id));
      if tasks[id].channel == Open {
        tasks := tasks[id := tasks[id].(stage := TimedOut)];
      } else {
        tasks := tasks[id := tasks[id].(stage := Woken(tasks[id].channel.choice), channel := Closed)];
      }
    }

    /** Only now does a send fail. */
    method DropReceiver(id: nat)
      requires Valid() && id in tasks && tasks[id].stage == TimedOut
      modifies this
      ensures Valid() && View() == After(old(View()), Step.DropReceiver(id))
      ensures tasks == old(tasks)[id := old(tasks)[id].(stage := Woken(None), channel := Closed)]
    {
      GoodKept(View(), Step.DropReceiver(id));
      tasks := tasks[id := tasks[id].(stage := Woken(None), channel := Closed)];
    }

    method Clear(id: nat)
      requires Valid() && id in tasks && tasks[id].stage.Woken?
      modifies this
      ensures Valid() && View() == After(old(View()), Step.Clear(id))
      ensures pending == old(pending) - {id}
    {
      GoodKept(View(), Step.Clear(id));
      pending := pending - {id};
      tasks := tasks[id := tasks[id].(stage := Cleared(tasks[id].stage.selected))];
    }

    method Answer(id: nat, sent: bool)
      requires Valid() && id in tasks && tasks[id].stage.Cleared?
      modifies this
      ensures Valid() && View() == After(old(View()), Step.Answer(id, sent))
      ensures answers == if sent then old(answers) + [Entry(id, old(tasks)[id].stage.selected)] else old(answers)
    {
      GoodKept(View(), Step.Answer(id, sent));
      var selected := tasks[id].stage.selected;
      if sent {
        answers := answers + [Entry(id, selected)];
      }
      tasks := tasks[id := tasks[id].(stage := if sent then Answered(selected) else Finished(selected))];
    }

    method Publish(id: nat, stored: bool)
      requires Valid() && id in tasks && tasks[id].stage.Answered?
      modifies this
      ensures Valid() && View() == After(old(View()), Step.Publish(id, stored))
      ensures log == if stored then old(log) + [Resolved(id, old(tasks)[id].stage.selected)] else old(log)
    {
      GoodKept(View(), Step.Publish(id, stored));
      var selected := tasks[id].stage.selected;
      if stored {
        log := log + [Resolved(id, selected)];
      }
      tasks := tasks[id := tasks[id].(stage := Finished(selected))];
    }
  }
}
