/**
  The main loop of an in-process teammate: query, accounting, plan-approval gate, idle, wait.

  Everything the loop cannot decide itself is input: one `Turn` holds what the loop observes in
  one iteration (each load of the cancel flag, the query's result, the polls of the two waiting
  loops). A run consumes as many turns as it is given; if the polls of a wait run out, the run is
  still waiting. The model emits a trace of what the loop does, and the results are about the
  trace of every run.
*/
module TeammateRun {
  import opened Prelude
  import Mailbox

  type Message = Mailbox.Message

  const RECENT_ACTIVITIES_CAP: nat := 5

  datatype ToolCall = ToolCall(tool: string, summary: Option<string>)

  datatype Answer = Answer(
    turns: int,
    inputTokens: int,
    outputTokens: int,
    calls: seq<ToolCall>,
    cancelled: bool,
    planRequestId: Option<string>)

  datatype Query = Failed(error: string) | Answered(answer: Answer)

  datatype PlanPoll = PlanPoll(cancelled: bool, inbox: seq<Message>)

  datatype WaitPoll = WaitPoll(cancelled: bool, inbox: seq<Message>, task: Option<string>)

  datatype Turn = Turn(
    cancelledAtHead: bool,
    query: Query,
    cancelledAfterQuery: bool,
    cancelledBeforeGate: bool,
    freshRequestId: string,
    planPolls: seq<PlanPoll>,
    idleHookFeedback: Option<string>,
    waitPolls: seq<WaitPoll>)

  datatype Prompt =
    | InitialPrompt(text: string)
    | PlanFeedback(text: string)
    | HookFeedback(text: string)
    | ShutdownPrompt(text: string)
    | MessagePrompt(from: string, text: string)
    | TaskPrompt(text: string)

  datatype Event =
    | Asked(prompt: Prompt)
    | Replied(answer: Answer)
    | PlanSubmitted(requestId: string)
    | PlanDecided(index: nat, reply: Message)
    | WentIdle(interrupted: bool)
    | TookMessage(index: nat, message: Message)
    | TookTask(task: string)
    | SawCancel
    | QueryFailed(error: string)

  datatype Status = Running | Waiting | Ended

  datatype Loop = Loop(
    status: Status,
    prompt: Prompt,
    planPending: bool,
    wasIdle: bool,
    turns: int,
    inputTokens: int,
    outputTokens: int,
    recent: seq<ToolCall>,
    error: Option<string>,
    trace: seq<Event>)

  // ---------------------------------------------------------------- the two waiting loops

  datatype PlanOutcome = PlanCancelled | PlanReply(index: nat, reply: Message) | PlanStillWaiting

  function AwaitPlan(polls: seq<PlanPoll>, requestId: string): PlanOutcome
    decreases |polls|
  {
    if polls == [] then PlanStillWaiting
    else if polls[0].cancelled then PlanCancelled
    else match Mailbox.FirstUnread(polls[0].inbox, 0, m => Mailbox.IsPlanReply(m, requestId))
         case Some(i) => if i < |polls[0].inbox| then PlanReply(i, polls[0].inbox[i]) else PlanStillWaiting
         case None => AwaitPlan(polls[1..], requestId)
  }

  /** The lead answers the request. */
  predicate LeadReply(m: Message, requestId: string) {
    m.from == "team-lead" && m.kind.PlanResponse? && m.kind.requestId == requestId
  }

  /** `i` is the first unread lead reply that carries the request id. */
  ghost predicate FirstPlanReply(inbox: seq<Message>, requestId: string, i: nat) {
    && i < |inbox| && !inbox[i].read && LeadReply(inbox[i], requestId)
    && forall j :: 0 <= j < i ==> inbox[j].read || !LeadReply(inbox[j], requestId)
  }

  /** The poll finds neither a cancel nor a reply. */
  ghost predicate PlanQuiet(poll: PlanPoll, requestId: string) {
    !poll.cancelled
    && forall j :: 0 <= j < |poll.inbox| ==> poll.inbox[j].read || !LeadReply(poll.inbox[j], requestId)
  }

  /** What the poll decides: a cancel comes before anything in the inbox. */
  ghost predicate PlanDecides(poll: PlanPoll, requestId: string, outcome: PlanOutcome) {
    if poll.cancelled then outcome.PlanCancelled?
    else outcome.PlanReply? && FirstPlanReply(poll.inbox, requestId, outcome.index)
         && outcome.reply == poll.inbox[outcome.index]
  }

  /** The wait goes on exactly while every poll is quiet, and otherwise the first poll that is not decides it. */
  lemma {:induction false} AwaitPlanMeaning(polls: seq<PlanPoll>, requestId: string) returns (k: nat)
    ensures k <= |polls| && forall j :: 0 <= j < k ==> PlanQuiet(polls[j], requestId)
    ensures k == |polls| ==> AwaitPlan(polls, requestId).PlanStillWaiting?
    ensures k < |polls| ==>
              !PlanQuiet(polls[k], requestId) && PlanDecides(polls[k], requestId, AwaitPlan(polls, requestId))
    decreases |polls|
  {
    k := 0;
    if polls != [] && !polls[0].cancelled {
      Mailbox.FirstUnreadMeaning(polls[0].inbox, 0, m => Mailbox.IsPlanReply(m, requestId));
      if PlanQuiet(polls[0], requestId) {
        k := AwaitPlanMeaning(polls[1..], requestId);
        k := k + 1;
      }
    }
  }

  datatype WaitOutcome = Aborted | GotMessage(index: nat, message: Message) | GotTask(task: string) | StillWaiting

  function AwaitPrompt(polls: seq<WaitPoll>): WaitOutcome
    decreases |polls|
  {
    if polls == [] then StillWaiting
    else if polls[0].cancelled then Aborted
    else match Mailbox.SelectPrompt(polls[0].inbox)
         case Some(i) => if i < |polls[0].inbox| then GotMessage(i, polls[0].inbox[i]) else StillWaiting
         case None =>
           if polls[0].task.Some? then GotTask(polls[0].task.value) else AwaitPrompt(polls[1..])
  }

  /** The poll finds no cancel, no prompt and no task. */
  ghost predicate PromptQuiet(poll: WaitPoll) {
    !poll.cancelled && poll.task.None?
    && forall j :: 0 <= j < |poll.inbox| ==> poll.inbox[j].read || !Mailbox.IsPrompt(poll.inbox[j])
  }

  /** What the poll decides: a cancel first, then the best unread prompt, and a task only without a prompt. */
  ghost predicate PromptDecides(poll: WaitPoll, outcome: WaitOutcome) {
    if poll.cancelled then outcome.Aborted?
    else if exists i: nat :: Mailbox.IsBestPrompt(poll.inbox, i)
    then outcome.GotMessage? && Mailbox.IsBestPrompt(poll.inbox, outcome.index)
         && outcome.message == poll.inbox[outcome.index]
    else poll.task.Some? && outcome == GotTask(poll.task.value)
  }

  /** The wait goes on exactly while every poll is quiet, and otherwise the first poll that is not decides it. */
  lemma {:induction false} AwaitPromptMeaning(polls: seq<WaitPoll>) returns (k: nat)
    ensures k <= |polls| && forall j :: 0 <= j < k ==> PromptQuiet(polls[j])
    ensures k == |polls| ==> AwaitPrompt(polls).StillWaiting?
    ensures k < |polls| ==> !PromptQuiet(polls[k]) && PromptDecides(polls[k], AwaitPrompt(polls))
    decreases |polls|
  {
    k := 0;
    if polls != [] && !polls[0].cancelled {
      Mailbox.SelectPromptIsBest(polls[0].inbox);
      if PromptQuiet(polls[0]) {
        k := AwaitPromptMeaning(polls[1..]);
        k := k + 1;
      }
    }
  }

  // ---------------------------------------------------------------- one iteration

  function Emit(s: Loop, e: Event): Loop {
    s.(trace := s.trace + [e])
  }

  function Stop(s: Loop, e: Event): Loop {
    Emit(s, e).(status := Ended, error := if e.QueryFailed? then Some(e.error) else s.error)
  }

  function Account(s: Loop, a: Answer): Loop {
    Emit(s, Replied(a)).(
      turns := s.turns + a.turns,
      inputTokens := s.inputTokens + a.inputTokens,
      outputTokens := s.outputTokens + a.outputTokens,
      recent := LastN(s.recent + a.calls, RECENT_ACTIVITIES_CAP))
  }

  function PromptOf(m: Message): Prompt {
    if Mailbox.IsShutdown(m) then ShutdownPrompt(m.text) else MessagePrompt(m.from, m.text)
  }

  function Wait(s: Loop, t: Turn): Loop {
    match AwaitPrompt(t.waitPolls)
    case Aborted => Stop(s, SawCancel)
    case GotMessage(i, m) => Emit(s, TookMessage(i, m)).(prompt := PromptOf(m), wasIdle := false)
    case GotTask(task) => Emit(s, TookTask(task)).(prompt := TaskPrompt(task), wasIdle := false)
    case StillWaiting => s.(status := Waiting)
  }

  function GoIdle(s: Loop, a: Answer, t: Turn): Loop {
    if s.wasIdle then Wait(s, t)
    else if t.idleHookFeedback.Some? then s.(prompt := HookFeedback(t.idleHookFeedback.value), wasIdle := false)
    else Wait(Emit(s, WentIdle(a.cancelled && !t.cancelledAfterQuery)).(wasIdle := true), t)
  }

  function RequestId(a: Answer, t: Turn): string {
    if a.planRequestId.Some? then a.planRequestId.value else t.freshRequestId
  }

  function Feedback(reply: Message): string {
    if reply.kind.PlanResponse? && reply.kind.feedback.Some? then reply.kind.feedback.value
    else "Plan rejected by leader. Please revise."
  }

  predicate Approves(reply: Message) {
    reply.kind.PlanResponse? && reply.kind.approved
  }

  function PassGate(s: Loop, a: Answer, t: Turn): Loop {
    if !s.planPending then GoIdle(s, a, t)
    else
      var asked := Emit(s, PlanSubmitted(RequestId(a, t)));
      match AwaitPlan(t.planPolls, RequestId(a, t))
      case PlanStillWaiting => asked.(status := Waiting)
      case PlanCancelled => Stop(asked, SawCancel)
      case PlanReply(i, reply) =>
        var decided := Emit(asked, PlanDecided(i, reply));
        if Approves(reply) then GoIdle(decided.(planPending := false), a, t)
        else decided.(prompt := PlanFeedback(Feedback(reply)), wasIdle := false)
  }

  function TakeTurn(s: Loop, t: Turn): Loop {
    if t.cancelledAtHead then Stop(s, SawCancel)
    else
      var asked := Emit(s, Asked(s.prompt));
      match t.query
      case Failed(error) => Stop(asked, QueryFailed(error))
      case Answered(a) =>
        if t.cancelledBeforeGate then Stop(Account(asked, a), SawCancel) else PassGate(Account(asked, a), a, t)
  }

  function Begin(planRequired: bool, prompt: string): Loop {
    Loop(Running, InitialPrompt(prompt), planRequired, false, 0, 0, 0, [], None, [])
  }

  function RunFrom(s: Loop, turns: seq<Turn>): Loop
    decreases |turns|
  {
    if turns == [] || s.status != Running then s else RunFrom(TakeTurn(s, turns[0]), turns[1..])
  }

  function Run(planRequired: bool, prompt: string, turns: seq<Turn>): Loop {
    RunFrom(Begin(planRequired, prompt), turns)
  }

  // ---------------------------------------------------------------- the plan gate

  /** Position `j` is an approval. */
  predicate Approval(trace: seq<Event>, j: nat) {
    && j < |trace| && trace[j].PlanDecided? && Approves(trace[j].reply)
  }

  /** Position `j` decides on an unread lead reply to the very request submitted in the same turn, just before. */
  predicate Answers(trace: seq<Event>, j: nat) {
    && 0 < j < |trace| && trace[j].PlanDecided? && trace[j - 1].PlanSubmitted?
    && LeadReply(trace[j].reply, trace[j - 1].requestId) && !trace[j].reply.read
  }

  /** The gate is open before position `k`: not required at all, or approved earlier. */
  ghost predicate Opened(required: bool, trace: seq<Event>, k: nat) {
    !required || exists j :: 0 <= j < k && Approval(trace, j)
  }

  predicate EarlyPrompt(p: Prompt) { p.InitialPrompt? || p.PlanFeedback? }

  /** What must not happen behind a closed gate. */
  predicate NeedsOpenGate(e: Event) {
    e.WentIdle? || e.TookMessage? || e.TookTask? || (e.Asked? && !EarlyPrompt(e.prompt))
  }

  predicate IsPlanEvent(e: Event) { e.PlanSubmitted? || e.PlanDecided? }

  ghost predicate GateKept(required: bool, s: Loop) {
    && (forall k :: 0 <= k < |s.trace| && NeedsOpenGate(s.trace[k]) ==> Opened(required, s.trace, k))
    && (forall k :: 0 <= k < |s.trace| && IsPlanEvent(s.trace[k]) ==> !Opened(required, s.trace, k))
    && (forall k :: 0 <= k < |s.trace| && s.trace[k].PlanDecided? ==> Answers(s.trace, k))
    && (s.planPending <==> !Opened(required, s.trace, |s.trace|))
    && (s.planPending ==> EarlyPrompt(s.prompt))
  }

  lemma OpenedExtends(required: bool, trace: seq<Event>, e: Event, k: nat)
    requires k <= |trace|
    ensures Opened(required, trace + [e], k) <==> Opened(required, trace, k)
  {
    forall j | 0 <= j < k
      ensures Approval(trace + [e], j) <==> Approval(trace, j)
    {
      assert (trace + [e])[j] == trace[j];
    }
  }

  /** Emitting keeps the gate's promise if the event is allowed in the current gate state and the
      gate flag drops exactly on an approval. */
  lemma EmitKeepsGate(required: bool, s: Loop, e: Event)
    requires GateKept(required, s)
    requires NeedsOpenGate(e) ==> !s.planPending
    requires IsPlanEvent(e) ==> s.planPending
    requires e.PlanDecided? ==> Answers(s.trace + [e], |s.trace|)
    ensures GateKept(required, Emit(s, e).(planPending := s.planPending && !(e.PlanDecided? && Approves(e.reply))))
  {
    var trace' := s.trace + [e];
    forall k: nat | k <= |s.trace|
      ensures Opened(required, trace', k) <==> Opened(required, s.trace, k)
    {
      OpenedExtends(required, s.trace, e, k);
    }
    forall k | 0 <= k < |s.trace| && trace'[k].PlanDecided?
      ensures Answers(trace', k)
    {
      assert Answers(s.trace, k) && trace'[k - 1] == s.trace[k - 1];
    }
    assert trace'[|s.trace|] == e;
    forall j: nat | j < |s.trace|
      ensures Approval(trace', j) <==> Approval(s.trace, j)
    {}
    if required && e.PlanDecided? && Approves(e.reply) {
      assert Approval(trace', |s.trace|);
    } else if required && !s.planPending {
      var j :| 0 <= j < |s.trace| && Approval(s.trace, j);
      assert Approval(trace', j);
    }
  }

  lemma StopKeepsGate(required: bool, s: Loop, e: Event)
    requires GateKept(required, s) && (e.SawCancel? || e.QueryFailed?)
    ensures GateKept(required, Stop(s, e))
  {
    EmitKeepsGate(required, s, e);
  }

  lemma WaitKeepsGate(required: bool, s: Loop, t: Turn)
    requires GateKept(required, s) && !s.planPending
    ensures GateKept(required, Wait(s, t))
  {
    match AwaitPrompt(t.waitPolls)
    case Aborted => StopKeepsGate(required, s, SawCancel);
    case GotMessage(i, m) => EmitKeepsGate(required, s, TookMessage(i, m));
    case GotTask(task) => EmitKeepsGate(required, s, TookTask(task));
    case StillWaiting =>
  }

  lemma GoIdleKeepsGate(required: bool, s: Loop, a: Answer, t: Turn)
    requires GateKept(required, s) && !s.planPending
    ensures GateKept(required, GoIdle(s, a, t))
  {
    if s.wasIdle {
      WaitKeepsGate(required, s, t);
    } else if t.idleHookFeedback.None? {
      var e := WentIdle(a.cancelled && !t.cancelledAfterQuery);
      EmitKeepsGate(required, s, e);
      WaitKeepsGate(required, Emit(s, e).(wasIdle := true), t);
    }
  }

  lemma PassGateKeepsGate(required: bool, s: Loop, a: Answer, t: Turn)
    requires GateKept(required, s)
    ensures GateKept(required, PassGate(s, a, t))
  {
    if !s.planPending {
      GoIdleKeepsGate(required, s, a, t);
    } else {
      var id := RequestId(a, t);
      var asked := Emit(s, PlanSubmitted(id));
      EmitKeepsGate(required, s, PlanSubmitted(id));
      match AwaitPlan(t.planPolls, id)
      case PlanStillWaiting =>
      case PlanCancelled => StopKeepsGate(required, asked, SawCancel);
      case PlanReply(i, reply) =>
        var k := AwaitPlanMeaning(t.planPolls, id);
        EmitKeepsGate(required, asked, PlanDecided(i, reply));
        if Approves(reply) {
          GoIdleKeepsGate(required, Emit(asked, PlanDecided(i, reply)).(planPending := false), a, t);
        }
    }
  }

  lemma TurnKeepsGate(required: bool, s: Loop, t: Turn)
    requires GateKept(required, s)
    ensures GateKept(required, TakeTurn(s, t))
  {
    if t.cancelledAtHead {
      StopKeepsGate(required, s, SawCancel);
    } else {
      var asked := Emit(s, Asked(s.prompt));
      EmitKeepsGate(required, s, Asked(s.prompt));
      match t.query
      case Failed(error) => StopKeepsGate(required, asked, QueryFailed(error));
      case Answered(a) =>
        EmitKeepsGate(required, asked, Replied(a));
        if t.cancelledBeforeGate {
          StopKeepsGate(required, Account(asked, a), SawCancel);
        } else {
          PassGateKeepsGate(required, Account(asked, a), a, t);
        }
    }
  }

  lemma {:induction false} RunKeepsGate(required: bool, s: Loop, turns: seq<Turn>)
    requires GateKept(required, s)
    ensures GateKept(required, RunFrom(s, turns))
    decreases |turns|
  {
    if turns != [] && s.status == Running {
      TurnKeepsGate(required, s, turns[0]);
      RunKeepsGate(required, TakeTurn(s, turns[0]), turns[1..]);
    }
  }

  /**
    The plan gate over whole runs. While plan mode is required and not yet approved, the loop
    never reports idle, takes no message and no task, and asks only the initial prompt or
    rejection feedback; every decision is an unread lead reply to the request submitted in that
    same turn; and after the approval no plan is ever submitted again.
  */
  lemma PlanGate(planRequired: bool, prompt: string, turns: seq<Turn>)
    ensures var trace := Run(planRequired, prompt, turns).trace;
            && (planRequired ==>
                  forall k :: 0 <= k < |trace| && NeedsOpenGate(trace[k]) ==>
                    exists j :: 0 <= j < k && Approval(trace, j) && Answers(trace, j))
            && (forall k :: 0 <= k < |trace| && trace[k].PlanDecided? ==> Answers(trace, k))
            && (forall j, k :: 0 <= j < k < |trace| && Approval(trace, j) ==> !IsPlanEvent(trace[k]))
            && (!planRequired ==> forall k :: 0 <= k < |trace| ==> !IsPlanEvent(trace[k]))
  {
    RunKeepsGate(planRequired, Begin(planRequired, prompt), turns);
    var trace := Run(planRequired, prompt, turns).trace;
    if planRequired {
      forall k | 0 <= k < |trace| && NeedsOpenGate(trace[k])
        ensures exists j :: 0 <= j < k && Approval(trace, j) && Answers(trace, j)
      {
        assert Opened(planRequired, trace, k);
        var j :| 0 <= j < k && Approval(trace, j);
        assert Answers(trace, j);
      }
    }
    forall j, k | 0 <= j < k < |trace| && Approval(trace, j)
      ensures !IsPlanEvent(trace[k])
    {
      assert Opened(planRequired, trace, k);
    }
  }

  // ---------------------------------------------------------------- endings and accounting

  predicate Ending(e: Event) { e.SawCancel? || e.QueryFailed? }

  function Calls(trace: seq<Event>): seq<ToolCall> {
    if trace == [] then []
    else Calls(trace[..|trace| - 1]) + (if trace[|trace| - 1].Replied? then trace[|trace| - 1].answer.calls else [])
  }

  datatype Tally = Tally(turns: int, inputTokens: int, outputTokens: int)

  function Plus(sum: Tally, e: Event): Tally {
    if e.Replied?
    then Tally(sum.turns + e.answer.turns, sum.inputTokens + e.answer.inputTokens,
               sum.outputTokens + e.answer.outputTokens)
    else sum
  }

  /** Turns and tokens summed over the queries that returned. */
  function Total(trace: seq<Event>): Tally {
    if trace == [] then Tally(0, 0, 0) else Plus(Total(trace[..|trace| - 1]), trace[|trace| - 1])
  }

  ghost predicate Booked(s: Loop) {
    && Tally(s.turns, s.inputTokens, s.outputTokens) == Total(s.trace)
    && s.recent == LastN(Calls(s.trace), RECENT_ACTIVITIES_CAP)
  }

  /** Endings come last; the run is over exactly when there was one; its error is the query's. */
  ghost predicate EndsProperly(s: Loop) {
    && (forall k :: 0 <= k < |s.trace| - 1 ==> !Ending(s.trace[k]))
    && (s.status == Ended <==> s.trace != [] && Ending(s.trace[|s.trace| - 1]))
    && (s.error.Some? <==> s.trace != [] && s.trace[|s.trace| - 1].QueryFailed?)
    && (s.error.Some? ==> s.error.value == s.trace[|s.trace| - 1].error)
  }

  /** Every message or task is taken right after reporting idle, and the idle flag is always down
      when an iteration starts: the flag never suppresses a report. */
  ghost predicate IdleReported(s: Loop) {
    && (forall k :: 0 <= k < |s.trace| && (s.trace[k].TookMessage? || s.trace[k].TookTask?) ==>
          k > 0 && s.trace[k - 1].WentIdle?)
    && (s.status == Running ==> !s.wasIdle)
  }

  ghost predicate Tidy(s: Loop) {
    Booked(s) && EndsProperly(s)
  }

  lemma EmitTidy(s: Loop, e: Event)
    requires Tidy(s) && s.status == Running && !e.Replied? && !Ending(e)
    ensures Tidy(Emit(s, e))
  {
    assert (s.trace + [e])[..|s.trace|] == s.trace;
  }

  lemma StopTidy(s: Loop, e: Event)
    requires Tidy(s) && s.status == Running && Ending(e)
    ensures Tidy(Stop(s, e))
  {
    assert (s.trace + [e])[..|s.trace|] == s.trace;
  }

  lemma AccountTidy(s: Loop, a: Answer)
    requires Tidy(s) && s.status == Running
    ensures Tidy(Account(s, a))
  {
    assert (s.trace + [Replied(a)])[..|s.trace|] == s.trace;
  }

  lemma WaitTidy(s: Loop, t: Turn)
    requires Tidy(s) && s.status == Running
    ensures Tidy(Wait(s, t))
  {
    match AwaitPrompt(t.waitPolls)
    case Aborted => StopTidy(s, SawCancel);
    case GotMessage(i, m) => EmitTidy(s, TookMessage(i, m));
    case GotTask(task) => EmitTidy(s, TookTask(task));
    case StillWaiting =>
  }

  lemma GoIdleTidy(s: Loop, a: Answer, t: Turn)
    requires Tidy(s) && s.status == Running
    ensures Tidy(GoIdle(s, a, t))
  {
    if s.wasIdle {
      WaitTidy(s, t);
    } else if t.idleHookFeedback.None? {
      var e := WentIdle(a.cancelled && !t.cancelledAfterQuery);
      EmitTidy(s, e);
      WaitTidy(Emit(s, e).(wasIdle := true), t);
    }
  }

  lemma PassGateTidy(s: Loop, a: Answer, t: Turn)
    requires Tidy(s) && s.status == Running
    ensures Tidy(PassGate(s, a, t))
  {
    if !s.planPending {
      GoIdleTidy(s, a, t);
    } else {
      var id := RequestId(a, t);
      var asked := Emit(s, PlanSubmitted(id));
      EmitTidy(s, PlanSubmitted(id));
      match AwaitPlan(t.planPolls, id)
      case PlanStillWaiting =>
      case PlanCancelled => StopTidy(asked, SawCancel);
      case PlanReply(i, reply) =>
        EmitTidy(asked, PlanDecided(i, reply));
        if Approves(reply) {
          GoIdleTidy(Emit(asked, PlanDecided(i, reply)).(planPending := false), a, t);
        }
    }
  }

  lemma TurnTidy(s: Loop, t: Turn)
    requires Tidy(s) && s.status == Running
    ensures Tidy(TakeTurn(s, t))
  {
    if t.cancelledAtHead {
      StopTidy(s, SawCancel);
    } else {
      var asked := Emit(s, Asked(s.prompt));
      EmitTidy(s, Asked(s.prompt));
      match t.query
      case Failed(error) => StopTidy(asked, QueryFailed(error));
      case Answered(a) =>
        AccountTidy(asked, a);
        if t.cancelledBeforeGate {
          StopTidy(Account(asked, a), SawCancel);
        } else {
          PassGateTidy(Account(asked, a), a, t);
        }
    }
  }

  lemma {:induction false} RunTidy(s: Loop, turns: seq<Turn>)
    requires Tidy(s)
    ensures Tidy(RunFrom(s, turns))
    decreases |turns|
  {
    if turns != [] && s.status == Running {
      TurnTidy(s, turns[0]);
      RunTidy(TakeTurn(s, turns[0]), turns[1..]);
    }
  }

  /** A run ends only on a cancel flag seen set or a failed query, at the very end of its trace,
      and carries an error exactly when it was a query that failed: success means cancellation. A
      shutdown request is just another prompt and ends nothing. */
  lemma RunEnding(planRequired: bool, prompt: string, turns: seq<Turn>)
    ensures EndsProperly(Run(planRequired, prompt, turns))
  {
    RunTidy(Begin(planRequired, prompt), turns);
  }

  /** The reported totals are the sums over the queries that returned, and the activity ring holds
      the last five tool calls of the run (all of them when there were fewer). */
  lemma RunAccounting(planRequired: bool, prompt: string, turns: seq<Turn>)
    ensures var s := Run(planRequired, prompt, turns);
            && Tally(s.turns, s.inputTokens, s.outputTokens) == Total(s.trace)
            && s.recent == LastN(Calls(s.trace), 5)
  {
    RunTidy(Begin(planRequired, prompt), turns);
  }

  /** While an iteration goes on, nothing has been taken that was not preceded by an idle report. */
  lemma TurnReported(s: Loop, t: Turn)
    requires IdleReported(s) && s.status == Running
    ensures IdleReported(TakeTurn(s, t))
  {
    if !t.cancelledAtHead {
      var asked := Emit(s, Asked(s.prompt));
      match t.query
      case Failed(error) =>
      case Answered(a) =>
        if t.cancelledBeforeGate {
        } else {
          GateReported(Account(asked, a), a, t);
        }
    }
  }

  lemma GateReported(s: Loop, a: Answer, t: Turn)
    requires IdleReported(s) && s.status == Running
    ensures IdleReported(PassGate(s, a, t))
  {
    if !s.planPending {
      GoIdleReported(s, a, t);
    } else {
      var asked := Emit(s, PlanSubmitted(RequestId(a, t)));
      match AwaitPlan(t.planPolls, RequestId(a, t))
      case PlanStillWaiting =>
      case PlanCancelled =>
      case PlanReply(i, reply) =>
        if Approves(reply) {
          GoIdleReported(Emit(asked, PlanDecided(i, reply)).(planPending := false), a, t);
        }
    }
  }

  lemma GoIdleReported(s: Loop, a: Answer, t: Turn)
    requires IdleReported(s) && s.status == Running
    ensures IdleReported(GoIdle(s, a, t))
  {
    if t.idleHookFeedback.None? {
      var e := WentIdle(a.cancelled && !t.cancelledAfterQuery);
      var idle := Emit(s, e);
      match AwaitPrompt(t.waitPolls)
      case Aborted =>
      case GotMessage(i, m) =>
      case GotTask(task) =>
      case StillWaiting =>
    }
  }

  lemma {:induction false} RunReported(s: Loop, turns: seq<Turn>)
    requires IdleReported(s)
    ensures IdleReported(RunFrom(s, turns))
    decreases |turns|
  {
    if turns != [] && s.status == Running {
      TurnReported(s, turns[0]);
      RunReported(TakeTurn(s, turns[0]), turns[1..]);
    }
  }

  /** The idle flag is down whenever an iteration starts, so it never suppresses a report: every
      message and every task is taken directly after an idle report. */
  lemma IdleAlwaysReported(planRequired: bool, prompt: string, turns: seq<Turn>)
    ensures var s := Run(planRequired, prompt, turns);
            && (s.status == Running ==> !s.wasIdle)
            && (forall k :: 0 <= k < |s.trace| && (s.trace[k].TookMessage? || s.trace[k].TookTask?) ==>
                  k > 0 && s.trace[k - 1].WentIdle?)
  {
    RunReported(Begin(planRequired, prompt), turns);
  }

  // ---------------------------------------------------------------- where prompts come from

  /** The prompt is what the events so far call for: nothing yet, a rejection, a taken message, a
      taken task, or an idle hook that kept a finished turn from going idle. */
  predicate Explains(initial: string, trace: seq<Event>, p: Prompt) {
    if trace == [] then p == InitialPrompt(initial)
    else match trace[|trace| - 1]
         case PlanDecided(_, reply) =>
           && reply.kind.PlanResponse?
           && (if reply.kind.approved then p.HookFeedback?
               else if reply.kind.feedback.Some? then p == PlanFeedback(reply.kind.feedback.value)
               else p.PlanFeedback?)
         case TookMessage(_, m) =>
           if m.kind.ShutdownRequest? then p == ShutdownPrompt(m.text)
           else m.kind.Plain? && p == MessagePrompt(m.from, m.text)
         case TookTask(task) => p == TaskPrompt(task)
         case Replied(_) => p.HookFeedback?
         case _ => false
  }

  ghost predicate PromptsExplained(initial: string, s: Loop) {
    && (forall k :: 0 <= k < |s.trace| && s.trace[k].Asked? ==> Explains(initial, s.trace[..k], s.trace[k].prompt))
    && (s.status == Running ==> Explains(initial, s.trace, s.prompt))
  }

  ghost predicate AsksExplained(initial: string, trace: seq<Event>) {
    forall k :: 0 <= k < |trace| && trace[k].Asked? ==> Explains(initial, trace[..k], trace[k].prompt)
  }

  lemma EmitExplained(initial: string, trace: seq<Event>, e: Event)
    requires AsksExplained(initial, trace) && (e.Asked? ==> Explains(initial, trace, e.prompt))
    ensures AsksExplained(initial, trace + [e])
  {
    var longer := trace + [e];
    forall k | 0 <= k < |longer| && longer[k].Asked?
      ensures Explains(initial, longer[..k], longer[k].prompt)
    {
      if k < |trace| {
        assert longer[..k] == trace[..k];
      } else {
        assert longer[..k] == trace;
      }
    }
  }

  lemma IdleExplained(initial: string, s: Loop, a: Answer, t: Turn)
    requires AsksExplained(initial, s.trace) && !s.wasIdle && s.status == Running && s.trace != []
    requires s.trace[|s.trace| - 1].Replied? ||
             (s.trace[|s.trace| - 1].PlanDecided? && Approves(s.trace[|s.trace| - 1].reply))
    ensures PromptsExplained(initial, GoIdle(s, a, t))
  {
    if t.idleHookFeedback.None? {
      var e := WentIdle(a.cancelled && !t.cancelledAfterQuery);
      EmitExplained(initial, s.trace, e);
      var k := AwaitPromptMeaning(t.waitPolls);
      match AwaitPrompt(t.waitPolls)
      case Aborted => EmitExplained(initial, s.trace + [e], SawCancel);
      case GotMessage(i, m) => EmitExplained(initial, s.trace + [e], TookMessage(i, m));
      case GotTask(task) => EmitExplained(initial, s.trace + [e], TookTask(task));
      case StillWaiting =>
    }
  }

  lemma GateExplained(initial: string, s: Loop, a: Answer, t: Turn)
    requires AsksExplained(initial, s.trace) && !s.wasIdle && s.status == Running
    requires s.trace != [] && s.trace[|s.trace| - 1].Replied?
    ensures PromptsExplained(initial, PassGate(s, a, t))
  {
    if !s.planPending {
      IdleExplained(initial, s, a, t);
    } else {
      var id := RequestId(a, t);
      var asked := Emit(s, PlanSubmitted(id));
      EmitExplained(initial, s.trace, PlanSubmitted(id));
      var k := AwaitPlanMeaning(t.planPolls, id);
      match AwaitPlan(t.planPolls, id)
      case PlanStillWaiting =>
      case PlanCancelled => EmitExplained(initial, asked.trace, SawCancel);
      case PlanReply(i, reply) =>
        EmitExplained(initial, asked.trace, PlanDecided(i, reply));
        if Approves(reply) {
          IdleExplained(initial, Emit(asked, PlanDecided(i, reply)).(planPending := false), a, t);
        }
    }
  }

  lemma TurnExplained(initial: string, s: Loop, t: Turn)
    requires PromptsExplained(initial, s) && s.status == Running && !s.wasIdle
    ensures PromptsExplained(initial, TakeTurn(s, t))
  {
    if t.cancelledAtHead {
      EmitExplained(initial, s.trace, SawCancel);
    } else {
      var asked := Emit(s, Asked(s.prompt));
      EmitExplained(initial, s.trace, Asked(s.prompt));
      match t.query
      case Failed(error) => EmitExplained(initial, asked.trace, QueryFailed(error));
      case Answered(a) =>
        EmitExplained(initial, asked.trace, Replied(a));
        if t.cancelledBeforeGate {
          EmitExplained(initial, asked.trace + [Replied(a)], SawCancel);
        } else {
          GateExplained(initial, Account(asked, a), a, t);
        }
    }
  }

  lemma {:induction false} RunExplained(initial: string, s: Loop, turns: seq<Turn>)
    requires PromptsExplained(initial, s) && IdleReported(s)
    ensures PromptsExplained(initial, RunFrom(s, turns))
    decreases |turns|
  {
    if turns != [] && s.status == Running {
      TurnExplained(initial, s, turns[0]);
      TurnReported(s, turns[0]);
      RunExplained(initial, TakeTurn(s, turns[0]), turns[1..]);
    }
  }

  /** Every prompt the loop ever asks is accounted for by the event just before it. */
  lemma EveryPromptHasASource(planRequired: bool, prompt: string, turns: seq<Turn>)
    ensures PromptsExplained(prompt, Run(planRequired, prompt, turns))
  {
    RunExplained(prompt, Begin(planRequired, prompt), turns);
  }

  // ---------------------------------------------------------------- the loop itself

  method PushActivities(recent: seq<ToolCall>, calls: seq<ToolCall>) returns (ring: seq<ToolCall>)
    requires |recent| <= RECENT_ACTIVITIES_CAP
    ensures ring == LastN(recent + calls, RECENT_ACTIVITIES_CAP)
    ensures |ring| <= RECENT_ACTIVITIES_CAP
  {
    ring := recent;
    var i := 0;
    while i < |calls|
      invariant 0 <= i <= |calls|
      invariant ring == LastN(recent + calls[..i], RECENT_ACTIVITIES_CAP)
      invariant |ring| <= RECENT_ACTIVITIES_CAP
    {
      if |ring| >= RECENT_ACTIVITIES_CAP {
        ring := ring[1..];
      }
      ring := ring + [calls[i]];
      i := i + 1;
    }
    assert calls[..i] == calls;
  }

  method WaitForPlanApproval(polls: seq<PlanPoll>, requestId: string) returns (outcome: PlanOutcome)
    ensures outcome == AwaitPlan(polls, requestId)
  {
    var p := 0;
    while p < |polls|
      invariant 0 <= p <= |polls|
      invariant AwaitPlan(polls, requestId) == AwaitPlan(polls[p..], requestId)
    {
      assert polls[p..][0] == polls[p] && polls[p..][1..] == polls[p + 1..];
      if polls[p].cancelled {
        return PlanCancelled;
      }
      var inbox := polls[p].inbox;
      var i := 0;
      while i < |inbox|
        invariant 0 <= i <= |inbox|
        invariant Mailbox.FirstUnread(inbox, 0, m => Mailbox.IsPlanReply(m, requestId)) ==
                  Mailbox.FirstUnread(inbox, i, m => Mailbox.IsPlanReply(m, requestId))
      {
        var m := inbox[i];
        if !m.read && m.from == Mailbox.TEAM_LEAD_NAME && m.kind.PlanResponse? && m.kind.requestId == requestId {
          return PlanReply(i, m);
        }
        i := i + 1;
      }
      p := p + 1;
    }
    outcome := PlanStillWaiting;
  }

  method WaitForNextPromptOrShutdown(polls: seq<WaitPoll>) returns (outcome: WaitOutcome)
    ensures outcome == AwaitPrompt(polls)
  {
    var p := 0;
    while p < |polls|
      invariant 0 <= p <= |polls|
      invariant AwaitPrompt(polls) == AwaitPrompt(polls[p..])
    {
      assert polls[p..][0] == polls[p] && polls[p..][1..] == polls[p + 1..];
      if polls[p].cancelled {
        return Aborted;
      }
      Mailbox.SelectPromptIsBest(polls[p].inbox);
      var chosen := Mailbox.SelectPrompt(polls[p].inbox);
      if chosen.Some? {
        return GotMessage(chosen.value, polls[p].inbox[chosen.value]);
      }
      if polls[p].task.Some? {
        return GotTask(polls[p].task.value);
      }
      p := p + 1;
    }
    outcome := StillWaiting;
  }

  /** The part of an iteration from the idle transition on. */
  method IdleAndWait(s: Loop, interrupted: bool, t: Turn, ghost a: Answer) returns (next: Loop)
    requires interrupted == (a.cancelled && !t.cancelledAfterQuery)
    ensures next == GoIdle(s, a, t) && next.recent == s.recent
  {
    next := s;
    if !next.wasIdle {
      if t.idleHookFeedback.Some? {
        return next.(prompt := HookFeedback(t.idleHookFeedback.value), wasIdle := false);
      }
      next := next.(trace := next.trace + [WentIdle(interrupted)]);
    }
    next := next.(wasIdle := true);
    var outcome := WaitForNextPromptOrShutdown(t.waitPolls);
    match outcome
    case Aborted =>
      next := next.(status := Ended, trace := next.trace + [SawCancel]);
    case StillWaiting =>
      next := next.(status := Waiting);
    case GotMessage(index, m) =>
      next := next.(trace := next.trace + [TookMessage(index, m)], prompt := PromptOf(m), wasIdle := false);
    case GotTask(task) =>
      next := next.(trace := next.trace + [TookTask(task)], prompt := TaskPrompt(task), wasIdle := false);
  }

  /** The plan gate: `proceed` tells whether the iteration goes on to the idle transition. */
  method AwaitApproval(s: Loop, requestId: string, t: Turn, ghost a: Answer) returns (next: Loop, proceed: bool)
    requires s.planPending && requestId == RequestId(a, t)
    ensures PassGate(s, a, t) == if proceed then GoIdle(next, a, t) else next
    ensures next.recent == s.recent
  {
    next := s.(trace := s.trace + [PlanSubmitted(requestId)]);
    proceed := false;
    var outcome := WaitForPlanApproval(t.planPolls, requestId);
    match outcome
    case PlanStillWaiting =>
      next := next.(status := Waiting);
    case PlanCancelled =>
      next := next.(status := Ended, trace := next.trace + [SawCancel]);
    case PlanReply(index, reply) =>
      next := next.(trace := next.trace + [PlanDecided(index, reply)]);
      if Approves(reply) {
        next := next.(planPending := false);
        proceed := true;
      } else {
        next := next.(prompt := PlanFeedback(Feedback(reply)), wasIdle := false);
      }
  }

  /** The rest of an iteration once its query has returned: gate first, then idle. */
  method FinishIteration(s: Loop, answer: Answer, t: Turn) returns (next: Loop)
    ensures next == PassGate(s, answer, t) && next.recent == s.recent
  {
    next := s;
    if next.planPending {
      var requestId := if answer.planRequestId.Some? then answer.planRequestId.value else t.freshRequestId;
      var proceed: bool;
      next, proceed := AwaitApproval(next, requestId, t, answer);
      if !proceed {
        return;
      }
    }
    var interrupted := answer.cancelled && !t.cancelledAfterQuery;
    next := IdleAndWait(next, interrupted, t, answer);
  }

  /** Adds a query's result to the totals and the activity ring. */
  method Accumulate(s: Loop, answer: Answer) returns (next: Loop)
    requires |s.recent| <= RECENT_ACTIVITIES_CAP
    ensures next == Account(s, answer) && |next.recent| <= RECENT_ACTIVITIES_CAP
  {
    var recent := PushActivities(s.recent, answer.calls);
    next := s.(
      turns := s.turns + answer.turns,
      inputTokens := s.inputTokens + answer.inputTokens,
      outputTokens := s.outputTokens + answer.outputTokens,
      recent := recent,
      trace := s.trace + [Replied(answer)]);
  }

  /** One iteration of the loop. */
  method RunIteration(s: Loop, t: Turn) returns (next: Loop)
    requires |s.recent| <= RECENT_ACTIVITIES_CAP
    ensures next == TakeTurn(s, t) && |next.recent| <= RECENT_ACTIVITIES_CAP
  {
    if t.cancelledAtHead {
      return s.(status := Ended, trace := s.trace + [SawCancel]);
    }
    next := s.(trace := s.trace + [Asked(s.prompt)]);
    if t.query.Failed? {
      return next.(status := Ended, error := Some(t.query.error), trace := next.trace + [QueryFailed(t.query.error)]);
    }
    next := Accumulate(next, t.query.answer);
    if t.cancelledBeforeGate {
      return next.(status := Ended, trace := next.trace + [SawCancel]);
    }
    next := FinishIteration(next, t.query.answer, t);
  }

  /** The teammate's main loop. */
  method RunInProcessTeammate(planRequired: bool, initialPrompt: string, turns: seq<Turn>) returns (s: Loop)
    ensures s == Run(planRequired, initialPrompt, turns)
  {
    s := Loop(Running, InitialPrompt(initialPrompt), planRequired, false, 0, 0, 0, [], None, []);
    var i := 0;
    while i < |turns| && s.status == Running
      invariant 0 <= i <= |turns| && |s.recent| <= RECENT_ACTIVITIES_CAP
      invariant Run(planRequired, initialPrompt, turns) == RunFrom(s, turns[i..])
    {
      assert turns[i..][0] == turns[i] && turns[i..][1..] == turns[i + 1..];
      s := RunIteration(s, turns[i]);
      i := i + 1;
    }
  }
}
