/**
  What each turn of a teammate's run puts into the trace, said of what the loop observed in that turn and of
  nothing else: which cancel flag it loaded, how the query ended, and what the polls of its two waits held.
*/
module TeammateTurns {
  import opened Prelude
  import opened TeammateRun
  import Mailbox

  // ---------------------------------------------------------------- what a turn calls for

  /** The first plan poll that finds a cancel or a reply. */
  ghost predicate FirstPlanPoll(polls: seq<PlanPoll>, requestId: string, k: nat) {
    k < |polls| && !PlanQuiet(polls[k], requestId) && forall j :: 0 <= j < k ==> PlanQuiet(polls[j], requestId)
  }

  /** The first wait poll that finds a cancel, a prompt or a task. */
  ghost predicate FirstWaitPoll(polls: seq<WaitPoll>, k: nat) {
    k < |polls| && !PromptQuiet(polls[k]) && forall j :: 0 <= j < k ==> PromptQuiet(polls[j])
  }

  predicate Answered(t: Turn) {
    !t.cancelledAtHead && t.query.Answered?
  }

  /** The turn goes on past the answer. */
  predicate GoesOn(t: Turn) {
    Answered(t) && !t.cancelledBeforeGate
  }

  /** The id under which the plan is submitted: the one the answer mentions, or a fresh one. */
  predicate SubmitsAs(t: Turn, requestId: string)
    requires t.query.Answered?
  {
    var found := t.query.answer.planRequestId;
    (found.Some? ==> found.value == requestId) && (found.None? ==> t.freshRequestId == requestId)
  }

  /** While waiting for the plan's approval a cancel is seen before any reply. */
  ghost predicate PlanIsCancelled(t: Turn)
    requires t.query.Answered?
  {
    exists id, k: nat :: SubmitsAs(t, id) && FirstPlanPoll(t.planPolls, id, k) && t.planPolls[k].cancelled
  }

  /** The plan is decided by message `i` of some poll's inbox. */
  ghost predicate PlanIsDecided(t: Turn, i: nat, reply: Message)
    requires t.query.Answered?
  {
    exists id, k: nat ::
      && SubmitsAs(t, id) && FirstPlanPoll(t.planPolls, id, k) && !t.planPolls[k].cancelled
      && FirstPlanReply(t.planPolls[k].inbox, id, i) && reply == t.planPolls[k].inbox[i]
  }

  ghost predicate PlanIsApproved(t: Turn)
    requires t.query.Answered?
  {
    exists i: nat, reply :: PlanIsDecided(t, i, reply) && reply.kind.PlanResponse? && reply.kind.approved
  }

  /** The turn gets past the gate and no hook keeps it from going idle. */
  ghost predicate Idles(t: Turn, pending: bool) {
    GoesOn(t) && (pending ==> PlanIsApproved(t)) && t.idleHookFeedback.None?
  }

  /** While idle a cancel is seen before any prompt or task. */
  ghost predicate WaitIsCancelled(t: Turn) {
    exists k: nat :: FirstWaitPoll(t.waitPolls, k) && t.waitPolls[k].cancelled
  }

  ghost predicate WaitGetsMessage(t: Turn, i: nat, m: Message) {
    exists k: nat ::
      && FirstWaitPoll(t.waitPolls, k) && !t.waitPolls[k].cancelled
      && Mailbox.IsBestPrompt(t.waitPolls[k].inbox, i) && m == t.waitPolls[k].inbox[i]
  }

  ghost predicate WaitGetsTask(t: Turn, task: string) {
    exists k: nat ::
      && FirstWaitPoll(t.waitPolls, k) && !t.waitPolls[k].cancelled && t.waitPolls[k].task == Some(task)
      && forall i: nat :: !Mailbox.IsBestPrompt(t.waitPolls[k].inbox, i)
  }

  /** A cancel flag was set where the turn loaded it: at the head, after the answer, in a poll for the plan's
      approval, or in a poll for the next prompt. */
  ghost predicate CancelIsSeen(t: Turn, pending: bool) {
    || t.cancelledAtHead
    || (Answered(t) && t.cancelledBeforeGate)
    || (GoesOn(t) && pending && PlanIsCancelled(t))
    || (Idles(t, pending) && WaitIsCancelled(t))
  }

  /** The turn's observations call for the event. */
  ghost predicate CalledFor(t: Turn, pending: bool, prompt: Prompt, e: Event) {
    match e
    case Asked(p) => !t.cancelledAtHead && p == prompt
    case Replied(a) => Answered(t) && a == t.query.answer
    case QueryFailed(error) => !t.cancelledAtHead && t.query == Failed(error)
    case PlanSubmitted(id) => GoesOn(t) && pending && SubmitsAs(t, id)
    case PlanDecided(i, reply) => GoesOn(t) && pending && PlanIsDecided(t, i, reply)
    case WentIdle(interrupted) =>
      Idles(t, pending) && (interrupted <==> t.query.answer.cancelled && !t.cancelledAfterQuery)
    case TookMessage(i, m) => Idles(t, pending) && WaitGetsMessage(t, i, m)
    case TookTask(task) => Idles(t, pending) && WaitGetsTask(t, task)
    case SawCancel => CancelIsSeen(t, pending)
  }

  /** The order in which events come within a turn. */
  function Stage(e: Event): nat {
    match e
    case Asked(_) => 1
    case Replied(_) => 2
    case QueryFailed(_) => 2
    case PlanSubmitted(_) => 3
    case PlanDecided(_, _) => 4
    case WentIdle(_) => 5
    case TookMessage(_, _) => 6
    case TookTask(_) => 6
    case SawCancel => 7
  }

  ghost predicate Staged(events: seq<Event>) {
    forall i, j :: 0 <= i < j < |events| ==> Stage(events[i]) < Stage(events[j])
  }

  // ---------------------------------------------------------------- the events of one turn, part by part

  function WaitPart(t: Turn): seq<Event> {
    match AwaitPrompt(t.waitPolls)
    case Aborted => [SawCancel]
    case GotMessage(i, m) => [TookMessage(i, m)]
    case GotTask(task) => [TookTask(task)]
    case StillWaiting => []
  }

  function IdlePart(a: Answer, t: Turn): seq<Event> {
    if t.idleHookFeedback.Some? then []
    else [WentIdle(a.cancelled && !t.cancelledAfterQuery)] + WaitPart(t)
  }

  function PlanPart(a: Answer, t: Turn): seq<Event> {
    match AwaitPlan(t.planPolls, RequestId(a, t))
    case PlanStillWaiting => []
    case PlanCancelled => [SawCancel]
    case PlanReply(i, reply) => [PlanDecided(i, reply)] + (if Approves(reply) then IdlePart(a, t) else [])
  }

  function GatePart(a: Answer, t: Turn, pending: bool): seq<Event> {
    if pending then [PlanSubmitted(RequestId(a, t))] + PlanPart(a, t) else IdlePart(a, t)
  }

  function QueryPart(t: Turn, pending: bool): seq<Event> {
    match t.query
    case Failed(error) => [QueryFailed(error)]
    case Answered(a) => [Replied(a)] + (if t.cancelledBeforeGate then [SawCancel] else GatePart(a, t, pending))
  }

  function TurnPart(t: Turn, pending: bool, prompt: Prompt): seq<Event> {
    if t.cancelledAtHead then [SawCancel] else [Asked(prompt)] + QueryPart(t, pending)
  }

  lemma Chain(trace: seq<Event>, e: Event, rest: seq<Event>)
    ensures trace + [e] + rest == trace + ([e] + rest)
  {
  }

  lemma IdleTrace(s: Loop, a: Answer, t: Turn)
    requires !s.wasIdle
    ensures GoIdle(s, a, t).trace == s.trace + IdlePart(a, t)
  {
    if t.idleHookFeedback.None? {
      var e := WentIdle(a.cancelled && !t.cancelledAfterQuery);
      Chain(s.trace, e, WaitPart(t));
    }
  }

  lemma GateTrace(s: Loop, a: Answer, t: Turn)
    requires !s.wasIdle
    ensures PassGate(s, a, t).trace == s.trace + GatePart(a, t, s.planPending)
  {
    if !s.planPending {
      IdleTrace(s, a, t);
    } else {
      var id := RequestId(a, t);
      var asked := Emit(s, PlanSubmitted(id));
      Chain(s.trace, PlanSubmitted(id), PlanPart(a, t));
      match AwaitPlan(t.planPolls, id)
      case PlanStillWaiting =>
      case PlanCancelled =>
      case PlanReply(i, reply) =>
        var decided := Emit(asked, PlanDecided(i, reply));
        if Approves(reply) {
          IdleTrace(decided.(planPending := false), a, t);
          Chain(asked.trace, PlanDecided(i, reply), IdlePart(a, t));
        }
    }
  }

  lemma TurnTrace(s: Loop, t: Turn)
    requires !s.wasIdle
    ensures TakeTurn(s, t).trace == s.trace + TurnPart(t, s.planPending, s.prompt)
  {
    if !t.cancelledAtHead {
      var asked := Emit(s, Asked(s.prompt));
      Chain(s.trace, Asked(s.prompt), QueryPart(t, s.planPending));
      if t.query.Answered? {
        var a := t.query.answer;
        if t.cancelledBeforeGate {
          Chain(asked.trace, Replied(a), [SawCancel]);
        } else {
          GateTrace(Account(asked, a), a, t);
          Chain(asked.trace, Replied(a), GatePart(a, t, s.planPending));
        }
      }
    }
  }

  // ---------------------------------------------------------------- and what they say

  lemma OneBest(inbox: seq<Message>, i: nat, j: nat)
    requires Mailbox.IsBestPrompt(inbox, i) && Mailbox.IsBestPrompt(inbox, j)
    ensures i == j
  {
  }

  lemma OneFirstReply(inbox: seq<Message>, id: string, i: nat, j: nat)
    requires FirstPlanReply(inbox, id, i) && FirstPlanReply(inbox, id, j)
    ensures i == j
  {
    assert !(i < j) && !(j < i);
  }

  lemma WaitCancelled(t: Turn)
    ensures AwaitPrompt(t.waitPolls).Aborted? <==> WaitIsCancelled(t)
  {
    var k := AwaitPromptMeaning(t.waitPolls);
    if l: nat :| FirstWaitPoll(t.waitPolls, l) && t.waitPolls[l].cancelled {
      assert l == k;
    }
  }

  lemma WaitMessage(t: Turn, i: nat, m: Message)
    ensures AwaitPrompt(t.waitPolls) == GotMessage(i, m) <==> WaitGetsMessage(t, i, m)
  {
    var k := AwaitPromptMeaning(t.waitPolls);
    if l: nat :| FirstWaitPoll(t.waitPolls, l) && !t.waitPolls[l].cancelled
                 && Mailbox.IsBestPrompt(t.waitPolls[l].inbox, i) && m == t.waitPolls[l].inbox[i] {
      assert l == k;
      OneBest(t.waitPolls[k].inbox, i, AwaitPrompt(t.waitPolls).index);
    }
  }

  lemma WaitTask(t: Turn, task: string)
    ensures AwaitPrompt(t.waitPolls) == GotTask(task) <==> WaitGetsTask(t, task)
  {
    var k := AwaitPromptMeaning(t.waitPolls);
    if l: nat :| FirstWaitPoll(t.waitPolls, l) && !t.waitPolls[l].cancelled && t.waitPolls[l].task == Some(task)
                 && forall i: nat :: !Mailbox.IsBestPrompt(t.waitPolls[l].inbox, i) {
      assert l == k;
    }
  }

  lemma PlanCancelledIff(t: Turn, a: Answer)
    requires t.query == Query.Answered(a)
    ensures AwaitPlan(t.planPolls, RequestId(a, t)).PlanCancelled? <==> PlanIsCancelled(t)
  {
    var id := RequestId(a, t);
    var k := AwaitPlanMeaning(t.planPolls, id);
    assert SubmitsAs(t, id);
    if id', l: nat :| SubmitsAs(t, id') && FirstPlanPoll(t.planPolls, id', l) && t.planPolls[l].cancelled {
      assert id' == id && l == k;
    }
  }

  lemma PlanDecidedIff(t: Turn, a: Answer, i: nat, reply: Message)
    requires t.query == Query.Answered(a)
    ensures AwaitPlan(t.planPolls, RequestId(a, t)) == PlanReply(i, reply) <==> PlanIsDecided(t, i, reply)
  {
    var id := RequestId(a, t);
    var k := AwaitPlanMeaning(t.planPolls, id);
    assert SubmitsAs(t, id);
    if id', l: nat :| SubmitsAs(t, id') && FirstPlanPoll(t.planPolls, id', l) && !t.planPolls[l].cancelled
                      && FirstPlanReply(t.planPolls[l].inbox, id', i) && reply == t.planPolls[l].inbox[i] {
      assert id' == id && l == k;
      OneFirstReply(t.planPolls[k].inbox, id, i, AwaitPlan(t.planPolls, id).index);
    }
  }

  lemma PlanApprovedIff(t: Turn, a: Answer)
    requires t.query == Query.Answered(a)
    ensures PlanIsApproved(t) <==>
              var o := AwaitPlan(t.planPolls, RequestId(a, t));
              o.PlanReply? && Approves(o.reply)
  {
    var o := AwaitPlan(t.planPolls, RequestId(a, t));
    if o.PlanReply? {
      PlanDecidedIff(t, a, o.index, o.reply);
    }
    if i: nat, reply :| PlanIsDecided(t, i, reply) && reply.kind.PlanResponse? && reply.kind.approved {
      PlanDecidedIff(t, a, i, reply);
    }
  }

  /** Staged after `low`, and for events beyond it the part holds exactly what the turn calls for. */
  ghost predicate Says(part: seq<Event>, low: nat, t: Turn, pending: bool, prompt: Prompt) {
    && Staged(part)
    && forall e :: e in part <==> Stage(e) > low && CalledFor(t, pending, prompt, e)
  }

  lemma FirstSays(e: Event, rest: seq<Event>, low: nat, t: Turn, pending: bool, prompt: Prompt)
    requires Stage(e) > low && CalledFor(t, pending, prompt, e) && Says(rest, Stage(e), t, pending, prompt)
    requires forall d :: low < Stage(d) <= Stage(e) && CalledFor(t, pending, prompt, d) ==> d == e
    ensures Says([e] + rest, low, t, pending, prompt)
  {
    var part := [e] + rest;
    forall i, j | 0 <= i < j < |part|
      ensures Stage(part[i]) < Stage(part[j])
    {
      assert part[j] == rest[j - 1] && part[j] in rest;
    }
  }

  lemma WaitPartSays(t: Turn, pending: bool, prompt: Prompt)
    requires Idles(t, pending)
    ensures Says(WaitPart(t), 5, t, pending, prompt)
  {
    forall e
      ensures e in WaitPart(t) <==> Stage(e) > 5 && CalledFor(t, pending, prompt, e)
    {
      match e
      case SawCancel =>
        WaitCancelled(t);
        IdlesSeesNoEarlierCancel(t, pending);
      case TookMessage(i, m) => WaitMessage(t, i, m);
      case TookTask(task) => WaitTask(t, task);
      case _ =>
    }
  }

  lemma IdlesSeesNoEarlierCancel(t: Turn, pending: bool)
    requires Idles(t, pending)
    ensures CancelIsSeen(t, pending) <==> WaitIsCancelled(t)
  {
    if pending {
      PlanApprovedIff(t, t.query.answer);
      PlanCancelledIff(t, t.query.answer);
    }
  }

  lemma NothingSays(low: nat, t: Turn, pending: bool, prompt: Prompt)
    requires forall e :: Stage(e) > low ==> !CalledFor(t, pending, prompt, e)
    ensures Says([], low, t, pending, prompt)
  {
  }

  lemma IdlePartSays(t: Turn, pending: bool, prompt: Prompt)
    requires GoesOn(t) && (pending ==> PlanIsApproved(t))
    ensures Says(IdlePart(t.query.answer, t), 4, t, pending, prompt)
  {
    if t.idleHookFeedback.Some? {
      if pending {
        PlanApprovedIff(t, t.query.answer);
        PlanCancelledIff(t, t.query.answer);
      }
      NothingSays(4, t, pending, prompt);
    } else {
      var e := WentIdle(t.query.answer.cancelled && !t.cancelledAfterQuery);
      WaitPartSays(t, pending, prompt);
      FirstSays(e, WaitPart(t), 4, t, pending, prompt);
    }
  }

  lemma LastSays(low: nat, t: Turn, pending: bool, prompt: Prompt)
    requires low < 7 && CancelIsSeen(t, pending)
    requires forall e :: low < Stage(e) < 7 ==> !CalledFor(t, pending, prompt, e)
    ensures Says([SawCancel], low, t, pending, prompt)
  {
    NothingSays(7, t, pending, prompt);
    FirstSays(SawCancel, [], low, t, pending, prompt);
    assert [SawCancel] + [] == [SawCancel];
  }

  /** The plan was decided, and by nothing else. */
  lemma DecisionSays(t: Turn, prompt: Prompt, i: nat, reply: Message)
    requires GoesOn(t) && AwaitPlan(t.planPolls, RequestId(t.query.answer, t)) == PlanReply(i, reply)
    ensures Says(PlanPart(t.query.answer, t), 3, t, true, prompt)
  {
    var a := t.query.answer;
    PlanApprovedIff(t, a);
    PlanCancelledIff(t, a);
    PlanDecidedIff(t, a, i, reply);
    forall d | 3 < Stage(d) <= 4 && CalledFor(t, true, prompt, d)
      ensures d == PlanDecided(i, reply)
    {
      PlanDecidedIff(t, a, d.index, d.reply);
    }
    if Approves(reply) {
      IdlePartSays(t, true, prompt);
      FirstSays(PlanDecided(i, reply), IdlePart(a, t), 3, t, true, prompt);
    } else {
      NothingSays(4, t, true, prompt);
      FirstSays(PlanDecided(i, reply), [], 3, t, true, prompt);
    }
  }

  /** Without a decision nothing comes after the submission but a cancel. */
  lemma UndecidedSays(t: Turn, prompt: Prompt)
    requires GoesOn(t) && !AwaitPlan(t.planPolls, RequestId(t.query.answer, t)).PlanReply?
    ensures forall e :: 3 < Stage(e) < 7 ==> !CalledFor(t, true, prompt, e)
    ensures CancelIsSeen(t, true) <==> PlanIsCancelled(t)
  {
    var a := t.query.answer;
    PlanApprovedIff(t, a);
    forall e | 3 < Stage(e) < 7
      ensures !CalledFor(t, true, prompt, e)
    {
      if e.PlanDecided? {
        PlanDecidedIff(t, a, e.index, e.reply);
      }
    }
  }

  lemma PlanPartSays(t: Turn, prompt: Prompt)
    requires GoesOn(t)
    ensures Says(PlanPart(t.query.answer, t), 3, t, true, prompt)
  {
    var a := t.query.answer;
    PlanCancelledIff(t, a);
    match AwaitPlan(t.planPolls, RequestId(a, t))
    case PlanReply(i, reply) => DecisionSays(t, prompt, i, reply);
    case PlanCancelled =>
      UndecidedSays(t, prompt);
      LastSays(3, t, true, prompt);
    case PlanStillWaiting =>
      UndecidedSays(t, prompt);
      NothingSays(3, t, true, prompt);
  }

  lemma GatePartSays(t: Turn, pending: bool, prompt: Prompt)
    requires GoesOn(t)
    ensures Says(GatePart(t.query.answer, t, pending), 2, t, pending, prompt)
  {
    var a := t.query.answer;
    if pending {
      PlanPartSays(t, prompt);
      FirstSays(PlanSubmitted(RequestId(a, t)), PlanPart(a, t), 2, t, true, prompt);
    } else {
      IdlePartSays(t, false, prompt);
    }
  }

  lemma QueryPartSays(t: Turn, pending: bool, prompt: Prompt)
    requires !t.cancelledAtHead
    ensures Says(QueryPart(t, pending), 1, t, pending, prompt)
  {
    match t.query
    case Failed(error) =>
      NothingSays(2, t, pending, prompt);
      FirstSays(QueryFailed(error), [], 1, t, pending, prompt);
      assert [QueryFailed(error)] + [] == [QueryFailed(error)];
    case Answered(a) =>
      if t.cancelledBeforeGate {
        LastSays(2, t, pending, prompt);
        FirstSays(Replied(a), [SawCancel], 1, t, pending, prompt);
      } else {
        GatePartSays(t, pending, prompt);
        FirstSays(Replied(a), GatePart(a, t, pending), 1, t, pending, prompt);
      }
  }

  lemma TurnPartSays(t: Turn, pending: bool, prompt: Prompt)
    ensures Says(TurnPart(t, pending, prompt), 0, t, pending, prompt)
  {
    if t.cancelledAtHead {
      LastSays(0, t, pending, prompt);
    } else {
      QueryPartSays(t, pending, prompt);
      FirstSays(Asked(prompt), QueryPart(t, pending), 0, t, pending, prompt);
    }
  }

  // ---------------------------------------------------------------- where a turn leaves the loop

  ghost predicate PlanWaitGoesOn(t: Turn)
    requires t.query.Answered?
  {
    exists id :: SubmitsAs(t, id) && forall j :: 0 <= j < |t.planPolls| ==> PlanQuiet(t.planPolls[j], id)
  }

  ghost predicate WaitGoesOn(t: Turn) {
    forall j :: 0 <= j < |t.waitPolls| ==> PromptQuiet(t.waitPolls[j])
  }

  lemma PlanWaitIff(t: Turn, a: Answer)
    requires t.query == Query.Answered(a)
    ensures AwaitPlan(t.planPolls, RequestId(a, t)).PlanStillWaiting? <==> PlanWaitGoesOn(t)
  {
    var id := RequestId(a, t);
    var k := AwaitPlanMeaning(t.planPolls, id);
    assert SubmitsAs(t, id);
    if id' :| SubmitsAs(t, id') && forall j :: 0 <= j < |t.planPolls| ==> PlanQuiet(t.planPolls[j], id') {
      assert id' == id;
    }
  }

  lemma WaitIff(t: Turn)
    ensures AwaitPrompt(t.waitPolls).StillWaiting? <==> WaitGoesOn(t)
  {
    var k := AwaitPromptMeaning(t.waitPolls);
  }

  /** The turn ends the run, leaves it waiting, or makes it go on with another prompt. */
  ghost predicate LeavesRight(t: Turn, pending: bool, u: Loop) {
    && (u.status == Ended <==> CancelIsSeen(t, pending) || (!t.cancelledAtHead && t.query.Failed?))
    && (u.status == Waiting <==>
          (GoesOn(t) && pending && PlanWaitGoesOn(t)) || (Idles(t, pending) && WaitGoesOn(t)))
    && (GoesOn(t) && (pending ==> PlanIsApproved(t)) && t.idleHookFeedback.Some? ==>
          u.prompt == HookFeedback(t.idleHookFeedback.value))
    && (forall i: nat, reply :: GoesOn(t) && pending && PlanIsDecided(t, i, reply) && !PlanIsApproved(t)
                                && reply.kind.PlanResponse? ==>
          u.prompt == PlanFeedback(if reply.kind.feedback.Some? then reply.kind.feedback.value
                                   else "Plan rejected by leader. Please revise."))
  }

  lemma IdleLeavesRight(s: Loop, t: Turn, pending: bool)
    requires GoesOn(t) && s.status == Running && !s.wasIdle && (pending ==> PlanIsApproved(t))
    ensures LeavesRight(t, pending, GoIdle(s, t.query.answer, t))
  {
    WaitIff(t);
    WaitCancelled(t);
    if pending {
      PlanApprovedIff(t, t.query.answer);
      PlanCancelledIff(t, t.query.answer);
      PlanWaitIff(t, t.query.answer);
    }
  }

  lemma GateLeavesRight(s: Loop, t: Turn)
    requires GoesOn(t) && s.status == Running && !s.wasIdle
    ensures LeavesRight(t, s.planPending, PassGate(s, t.query.answer, t))
  {
    var a := t.query.answer;
    if !s.planPending {
      IdleLeavesRight(s, t, false);
    } else {
      PlanApprovedIff(t, a);
      PlanCancelledIff(t, a);
      PlanWaitIff(t, a);
      var asked := Emit(s, PlanSubmitted(RequestId(a, t)));
      match AwaitPlan(t.planPolls, RequestId(a, t))
      case PlanReply(i, reply) =>
        if Approves(reply) {
          IdleLeavesRight(Emit(asked, PlanDecided(i, reply)).(planPending := false), t, true);
        } else {
          RejectionLeavesRight(s, t, i, reply);
        }
      case _ =>
        forall i: nat, reply
          ensures !PlanIsDecided(t, i, reply)
        {
          PlanDecidedIff(t, a, i, reply);
        }
    }
  }

  lemma RejectionLeavesRight(s: Loop, t: Turn, i: nat, reply: Message)
    requires GoesOn(t) && s.status == Running && s.planPending && !Approves(reply)
    requires AwaitPlan(t.planPolls, RequestId(t.query.answer, t)) == PlanReply(i, reply)
    ensures LeavesRight(t, true, PassGate(s, t.query.answer, t))
  {
    var a := t.query.answer;
    PlanApprovedIff(t, a);
    PlanCancelledIff(t, a);
    PlanWaitIff(t, a);
    forall j: nat, other | PlanIsDecided(t, j, other)
      ensures other == reply
    {
      PlanDecidedIff(t, a, j, other);
    }
  }

  lemma TurnLeavesRight(s: Loop, t: Turn)
    requires s.status == Running && !s.wasIdle
    ensures LeavesRight(t, s.planPending, TakeTurn(s, t))
  {
    if GoesOn(t) {
      GateLeavesRight(Account(Emit(s, Asked(s.prompt)), t.query.answer), t);
    }
  }

  // ---------------------------------------------------------------- whole runs

  /** Turn `i` is reached: the run goes on until then. */
  ghost predicate Reached(planRequired: bool, prompt: string, turns: seq<Turn>, i: nat) {
    i < |turns| && Run(planRequired, prompt, turns[..i]).status == Running
  }

  /** A plan is required and none was approved so far. */
  ghost predicate Pending(planRequired: bool, trace: seq<Event>) {
    planRequired
    && forall j :: 0 <= j < |trace| && trace[j].PlanDecided? && trace[j].reply.kind.PlanResponse? ==>
         !trace[j].reply.kind.approved
  }

  ghost predicate PendingAt(planRequired: bool, prompt: string, turns: seq<Turn>, i: nat)
    requires i <= |turns|
  {
    Pending(planRequired, Run(planRequired, prompt, turns[..i]).trace)
  }

  lemma {:induction false} RunFromNext(s: Loop, turns: seq<Turn>, t: Turn)
    ensures var u := RunFrom(s, turns);
            RunFrom(s, turns + [t]) == if u.status == Running then TakeTurn(u, t) else u
    decreases |turns|
  {
    if turns == [] {
      assert (turns + [t])[1..] == [];
    } else if s.status == Running {
      assert (turns + [t])[1..] == turns[1..] + [t];
      RunFromNext(TakeTurn(s, turns[0]), turns[1..], t);
    }
  }

  lemma RunNext(planRequired: bool, prompt: string, turns: seq<Turn>, i: nat)
    requires i < |turns|
    ensures var u := Run(planRequired, prompt, turns[..i]);
            Run(planRequired, prompt, turns[..i + 1]) == if u.status == Running then TakeTurn(u, turns[i]) else u
  {
    assert turns[..i + 1] == turns[..i] + [turns[i]];
    RunFromNext(Begin(planRequired, prompt), turns[..i], turns[i]);
  }

  lemma PendingIsPending(planRequired: bool, prompt: string, turns: seq<Turn>)
    ensures var s := Run(planRequired, prompt, turns);
            s.planPending <==> Pending(planRequired, s.trace)
  {
    RunKeepsGate(planRequired, Begin(planRequired, prompt), turns);
    var s := Run(planRequired, prompt, turns);
    forall j: nat | j < |s.trace|
      ensures Approval(s.trace, j) <==> s.trace[j].PlanDecided? && s.trace[j].reply.kind.PlanResponse?
                                        && s.trace[j].reply.kind.approved
    {
    }
  }

  /**
    Every event of every run, from what its turn observed. Each turn the run reaches adds to the trace exactly
    the events its observations call for, in the one order there is; and it ends the run, leaves it waiting or
    makes it go on as they say.
  */
  lemma EveryEventIsCalledFor(planRequired: bool, prompt: string, turns: seq<Turn>, i: nat)
    requires Reached(planRequired, prompt, turns, i)
    ensures var before := Run(planRequired, prompt, turns[..i]);
            var after := Run(planRequired, prompt, turns[..i + 1]);
            var pending := PendingAt(planRequired, prompt, turns, i);
            && before.trace <= after.trace
            && var added := after.trace[|before.trace|..];
            && Staged(added)
            && (forall e :: e in added <==> CalledFor(turns[i], pending, before.prompt, e))
            && LeavesRight(turns[i], pending, after)
  {
    var before := Run(planRequired, prompt, turns[..i]);
    var t := turns[i];
    RunNext(planRequired, prompt, turns, i);
    PendingIsPending(planRequired, prompt, turns[..i]);
    RunReported(Begin(planRequired, prompt), turns[..i]);
    TurnTrace(before, t);
    TurnPartSays(t, before.planPending, before.prompt);
    TurnLeavesRight(before, t);
    var after := Run(planRequired, prompt, turns[..i + 1]);
    assert after.trace[|before.trace|..] == TurnPart(t, before.planPending, before.prompt);
  }

  /** Turn `i` is reached and its cancel is seen. */
  ghost predicate CancelledAt(planRequired: bool, prompt: string, turns: seq<Turn>, i: nat) {
    Reached(planRequired, prompt, turns, i) && CancelIsSeen(turns[i], PendingAt(planRequired, prompt, turns, i))
  }

  ghost predicate FailedAt(planRequired: bool, prompt: string, turns: seq<Turn>, i: nat) {
    Reached(planRequired, prompt, turns, i) && !turns[i].cancelledAtHead && turns[i].query.Failed?
  }

  lemma {:induction false} EndedIff(planRequired: bool, prompt: string, turns: seq<Turn>, n: nat)
    requires n <= |turns|
    ensures var s := Run(planRequired, prompt, turns[..n]);
            && (s.status == Ended && s.error.None? <==>
                  exists i :: 0 <= i < n && CancelledAt(planRequired, prompt, turns, i))
            && (s.status == Ended && s.error.Some? <==>
                  exists i :: 0 <= i < n && FailedAt(planRequired, prompt, turns, i))
  {
    if n == 0 {
      assert turns[..0] == [];
    } else {
      var m := n - 1;
      EndedIff(planRequired, prompt, turns, m);
      RunNext(planRequired, prompt, turns, m);
      var before := Run(planRequired, prompt, turns[..m]);
      if before.status == Running {
        TurnEnds(planRequired, prompt, turns, m);
      }
    }
  }

  lemma TurnEnds(planRequired: bool, prompt: string, turns: seq<Turn>, m: nat)
    requires Reached(planRequired, prompt, turns, m)
    ensures var s := Run(planRequired, prompt, turns[..m + 1]);
            && (s.status == Ended && s.error.None? <==> CancelledAt(planRequired, prompt, turns, m))
            && (s.status == Ended && s.error.Some? <==> FailedAt(planRequired, prompt, turns, m))
  {
    var before := Run(planRequired, prompt, turns[..m]);
    var after := Run(planRequired, prompt, turns[..m + 1]);
    EveryEventIsCalledFor(planRequired, prompt, turns, m);
    RunEnding(planRequired, prompt, turns[..m]);
    RunEnding(planRequired, prompt, turns[..m + 1]);
    var added := after.trace[|before.trace|..];
    if after.status == Ended {
      assert after.trace[|after.trace| - 1] in added;
    }
  }

  /** A run ends by cancellation exactly when some turn it reaches sees a cancel flag set, and by an error
      exactly when some query it makes fails; its trace then ends in that event. */
  lemma CancelledIff(planRequired: bool, prompt: string, turns: seq<Turn>)
    ensures var trace := Run(planRequired, prompt, turns).trace;
            && (trace != [] && trace[|trace| - 1] == SawCancel <==>
                  exists i :: 0 <= i < |turns| && CancelledAt(planRequired, prompt, turns, i))
            && (trace != [] && trace[|trace| - 1].QueryFailed? <==>
                  exists i :: 0 <= i < |turns| && FailedAt(planRequired, prompt, turns, i))
  {
    EndedIff(planRequired, prompt, turns, |turns|);
    assert turns[..|turns|] == turns;
    RunEnding(planRequired, prompt, turns);
  }
}
