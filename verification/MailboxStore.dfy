/**
  The inbox as the program holds it: a file of messages and the control state its drain writes. Each
  consumer's method is what its steps amount to when nothing comes between them.
*/
module MailboxStore {
  import opened Prelude
  import opened Mailbox
  import opened MailboxControl

  /** The inbox after an undisturbed drain: every control message read, nothing else touched. */
  function Drained(inbox: seq<Message>): seq<Message> {
    seq(|inbox|, j requires 0 <= j < |inbox| =>
      if IsControl(inbox[j]) then inbox[j].(read := true) else inbox[j])
  }

  predicate IsUnread(m: Message) { !m.read }

  function Unread(inbox: seq<Message>): seq<Message> {
    Filter(inbox, IsUnread)
  }

  lemma DrainReaches(ctl: Control, inbox: seq<Message>, i: nat)
    requires i < |inbox|
    ensures ApplyAll(ctl, Unread(inbox[..i + 1])) ==
            (if inbox[i].read then ApplyAll(ctl, Unread(inbox[..i]))
             else ApplyControl(ApplyAll(ctl, Unread(inbox[..i])), inbox[i]))
  {
    assert inbox[..i + 1] == inbox[..i] + [inbox[i]];
    var before := Unread(inbox[..i]);
    assert (before + [inbox[i]])[..|before|] == before && before + [] == before;
  }

  /** How far the drain of `inbox` has got: everything below `n` is drained and applied, the rest untouched. */
  ghost predicate DrainedTo(ctl: Control, inbox: seq<Message>, messages: seq<Message>, control: Control, n: nat) {
    && n <= |inbox| == |messages|
    && (forall j :: 0 <= j < n ==> messages[j] == Drained(inbox)[j])
    && (forall j :: n <= j < |inbox| ==> messages[j] == inbox[j])
    && control == ApplyAll(ctl, Unread(inbox[..n]))
  }

  lemma DrainPasses(ctl: Control, inbox: seq<Message>, messages: seq<Message>, control: Control, i: nat)
    requires i < |inbox| && DrainedTo(ctl, inbox, messages, control, i) && (IsControl(inbox[i]) ==> inbox[i].read)
    ensures DrainedTo(ctl, inbox, messages, control, i + 1)
  {
    DrainReaches(ctl, inbox, i);
  }

  lemma DrainTakesOne(ctl: Control, inbox: seq<Message>, messages: seq<Message>, control: Control, i: nat)
    requires i < |inbox| && DrainedTo(ctl, inbox, messages, control, i) && IsControl(inbox[i]) && !inbox[i].read
    ensures DrainedTo(ctl, inbox, MarkRead(messages, i), ApplyControl(control, inbox[i]), i + 1)
  {
    DrainReaches(ctl, inbox, i);
  }

  /** Messages the drain passes over count for nothing. */
  lemma {:induction false} DrainSkips(ctl: Control, inbox: seq<Message>, w: World, n: nat, i: nat)
    requires DrainedTo(ctl, inbox, w.inbox, w.control, n) && n <= i <= |inbox|
    requires forall j :: n <= j < i && IsControl(inbox[j]) ==> inbox[j].read
    ensures DrainedTo(ctl, inbox, w.inbox, w.control, i)
    decreases i - n
  {
    if n < i {
      DrainPasses(ctl, inbox, w.inbox, w.control, n);
      DrainSkips(ctl, inbox, w, n + 1, i);
    }
  }

  /** The pass over `inbox` goes on from `next`, or it is over. */
  ghost predicate Draining(ctl: Control, inbox: seq<Message>, w: World, left: nat) {
    if ControlDrain in w.snapshots then
      && Accounted(w) && |w.snapshots[ControlDrain].messages| == |inbox|
      && w.snapshots[ControlDrain].next <= |inbox| && |inbox| - w.snapshots[ControlDrain].next < left
      && DrainedTo(ctl, inbox, w.inbox, w.control, w.snapshots[ControlDrain].next)
    else DrainedTo(ctl, inbox, w.inbox, w.control, |inbox|)
  }

  lemma DrainGoesOn(ctl: Control, inbox: seq<Message>, w: World, left: nat, i: nat)
    requires ControlDrain in w.snapshots && left > 0 && Draining(ctl, inbox, w, left) && Takeable(w, ControlDrain, i)
    ensures Draining(ctl, inbox, TakeAt(w, ControlDrain, true, i), left - 1)
  {
    TakeAccounted(w, ControlDrain, true, i);
    DrainSkips(ctl, inbox, w, w.snapshots[ControlDrain].next, i);
    DrainTakesOne(ctl, inbox, w.inbox, w.control, i);
  }

  lemma DrainSteps(ctl: Control, inbox: seq<Message>, w: World, left: nat)
    requires left > 0 && Draining(ctl, inbox, w, left)
    ensures Draining(ctl, inbox, Step(w, Take(ControlDrain, true)), left - 1)
  {
    if ControlDrain in w.snapshots {
      var snap := w.snapshots[ControlDrain];
      match Pick(ControlDrain, snap.messages, snap.next)
      case Some(i) =>
        PickIsTakeable(w, ControlDrain, i);
        DrainGoesOn(ctl, inbox, w, left, i);
      case None =>
        PassLeavesRead(w);
        DrainSkips(ctl, inbox, w, snap.next, |inbox|);
    }
  }

  lemma {:induction false} DrainRuns(ctl: Control, inbox: seq<Message>, w: World, n: nat)
    requires Draining(ctl, inbox, w, n)
    ensures Draining(ctl, inbox, DrainOn(w, n), 0)
    decreases n
  {
    if n > 0 {
      DrainSteps(ctl, inbox, w, n);
      DrainRuns(ctl, inbox, Step(w, Take(ControlDrain, true)), n - 1);
    }
  }

  /** One whole pass of the drain, with nothing in between. */
  function Drain(w: World): World {
    DrainOn(Step(w, Poll(ControlDrain, true)), |w.inbox| + 1)
  }

  /** An undisturbed pass marks every control message and applies, in order, those that were unread. */
  lemma DrainMeaning(w: World)
    requires Accounted(w)
    ensures Drain(w).inbox == Drained(w.inbox) && Drain(w).control == ApplyAll(w.control, Unread(w.inbox))
  {
    var polled := Step(w, Poll(ControlDrain, true));
    StepAccounted(w, Poll(ControlDrain, true));
    DrainRuns(w.control, w.inbox, polled, |w.inbox| + 1);
    assert w.inbox[..|w.inbox|] == w.inbox;
  }

  lemma DrainMeaningFor(messages: seq<Message>, control: Control)
    ensures forall w :: Accounted(w) && w.inbox == messages && w.control == control ==>
              Drain(w).inbox == Drained(messages) && Drain(w).control == ApplyAll(control, Unread(messages))
  {
    forall w | Accounted(w) && w.inbox == messages && w.control == control
      ensures Drain(w).inbox == Drained(messages) && Drain(w).control == ApplyAll(control, Unread(messages))
    {
      DrainMeaning(w);
    }
  }

  /** One poll of any other consumer, with nothing in between. */
  function PollOnce(w: World, c: Consumer): World {
    Step(Step(w, Poll(c, true)), Take(c, true))
  }

  function Taken(inbox: seq<Message>, c: Consumer): seq<Message> {
    match Pick(c, inbox, 0)
    case Some(i) => MarkRead(inbox, i)
    case None => inbox
  }

  /** An undisturbed poll marks the message the consumer picks, if there is one, and nothing else. */
  lemma PollOnceMeaning(w: World, c: Consumer)
    ensures PollOnce(w, c).inbox == Taken(w.inbox, c)
  {
    PickMeaning(c, w.inbox, 0);
  }

  /** Scanning the snapshot taken before a drain picks what scanning the drained inbox would. */
  lemma SelectionIgnoresDrain(inbox: seq<Message>)
    ensures SelectPrompt(Drained(inbox)) == SelectPrompt(inbox)
  {
    SelectPromptIsBest(inbox);
    SelectPromptIsBest(Drained(inbox));
    var after := Drained(inbox);
    forall i: nat
      ensures IsBestPrompt(inbox, i) <==> IsBestPrompt(after, i)
    {
      assert forall j :: 0 <= j < |inbox| && IsPrompt(inbox[j]) ==> after[j] == inbox[j];
      assert forall j :: 0 <= j < |inbox| && IsPrompt(after[j]) ==> after[j] == inbox[j];
    }
    if SelectPrompt(inbox).Some? {
      assert IsBestPrompt(after, SelectPrompt(inbox).value);
    }
  }

  datatype PlanDecision = PlanDecision(approved: bool, feedback: Option<string>, mode: Option<PermissionMode>)

  /** One teammate's inbox file together with the control state its drain writes. */
  class TeammateInbox {
    var messages: seq<Message>
    var control: Control

    constructor (control: Control)
      ensures Shows(Start(control))
    {
      messages := [];
      this.control := control;
    }

    ghost predicate Shows(w: World)
      reads this
    {
      w.inbox == messages && w.control == control
    }

    method WriteToMailbox(from: string, text: string, kind: Kind)
      modifies this`messages
      ensures messages == old(messages) + [Message(from, text, kind, false)]
      ensures forall w :: old(Shows(w)) ==> Shows(Step(w, Append(from, text, kind)))
    {
      messages := messages + [Message(from, text, kind, false)];
    }

    method MarkMessageAsReadByIndex(index: nat)
      modifies this`messages
      ensures messages == MarkRead(old(messages), index)
    {
      if index < |messages| {
        messages := messages[index := messages[index].(read := true)];
      }
    }

    method DrainControlMessages()
      modifies this
      ensures messages == Drained(old(messages))
      ensures control == ApplyAll(old(control), Unread(old(messages)))
      ensures forall w :: Accounted(w) && old(Shows(w)) ==> Shows(Drain(w))
    {
      DrainMeaningFor(messages, control);
      var snapshot := messages;
      var i := 0;
      while i < |snapshot|
        invariant 0 <= i <= |snapshot| && DrainedTo(old(control), snapshot, messages, control, i)
      {
        var m := snapshot[i];
        if m.read || m.from != TEAM_LEAD_NAME || !(m.kind.ModeSet? || m.kind.RuleUpdate?) {
          DrainPasses(old(control), snapshot, messages, control, i);
        } else {
          DrainTakesOne(old(control), snapshot, messages, control, i);
          if m.kind.ModeSet? {
            control := control.(mode := m.kind.mode);
          } else if m.kind.rules != [] {
            control := control.(rules := control.rules + m.kind.rules);
          } else {
            assert control.rules + m.kind.rules == control.rules;
          }
          MarkMessageAsReadByIndex(i);
        }
        i := i + 1;
      }
      assert snapshot[..i] == snapshot;
      assert messages == Drained(snapshot);
    }

    /** Marks the prompt chosen from the caller's snapshot and returns its index. */
    method ScanNextPrompt(snapshot: seq<Message>) returns (chosen: Option<nat>)
      modifies this`messages
      ensures chosen == SelectPrompt(snapshot)
      ensures messages == if chosen.Some? then MarkRead(old(messages), chosen.value) else old(messages)
      ensures snapshot == old(messages) ==> messages == Taken(old(messages), PromptScan)
    {
      chosen := SelectPrompt(snapshot);
      if chosen.Some? {
        MarkMessageAsReadByIndex(chosen.value);
      }
    }

    /** One pass of the idle wait: snapshot, drain, then scan the snapshot taken before the drain. */
    method PollForPrompt() returns (chosen: Option<nat>)
      modifies this
      ensures chosen.Some? ==> IsBestPrompt(old(messages), chosen.value)
      ensures chosen.None? ==>
                forall j :: 0 <= j < |old(messages)| ==> old(messages)[j].read || !IsPrompt(old(messages)[j])
      ensures chosen == SelectPrompt(Drained(old(messages)))
      ensures control == ApplyAll(old(control), Unread(old(messages)))
      ensures messages ==
              if chosen.Some? then MarkRead(Drained(old(messages)), chosen.value) else Drained(old(messages))
    {
      var snapshot := messages;
      DrainControlMessages();
      chosen := ScanNextPrompt(snapshot);
      SelectPromptIsBest(snapshot);
      SelectionIgnoresDrain(snapshot);
    }

    /** One poll of the plan waiter: the first unread lead reply that carries `requestId`. */
    method PollPlanApproval(requestId: string) returns (decision: Option<PlanDecision>, index: nat)
      modifies this`messages
      ensures decision.Some? ==>
                && index < |old(messages)| && !old(messages)[index].read
                && Suits(PlanWaiter(requestId), old(messages)[index])
                && (forall j :: 0 <= j < index ==>
                      old(messages)[j].read || !Suits(PlanWaiter(requestId), old(messages)[j]))
                && var k := old(messages)[index].kind;
                   decision.value == PlanDecision(k.approved, k.feedback, k.planMode)
      ensures decision.Some? ==> messages == MarkRead(old(messages), index)
      ensures decision.None? ==>
                && messages == old(messages)
                && forall j :: 0 <= j < |messages| ==> messages[j].read || !Suits(PlanWaiter(requestId), messages[j])
      ensures messages == Taken(old(messages), PlanWaiter(requestId))
    {
      PickMeaning(PlanWaiter(requestId), messages, 0);
      index := 0;
      while index < |messages|
        invariant messages == old(messages) && 0 <= index <= |messages|
        invariant forall j :: 0 <= j < index ==> messages[j].read || !Suits(PlanWaiter(requestId), messages[j])
      {
        var m := messages[index];
        if !m.read && m.from == TEAM_LEAD_NAME && m.kind.PlanResponse? && m.kind.requestId == requestId {
          MarkMessageAsReadByIndex(index);
          return Some(PlanDecision(m.kind.approved, m.kind.feedback, m.kind.planMode)), index;
        }
        index := index + 1;
      }
      decision := None;
    }

    /** One poll of the permission bridge: the first unread reply that carries `requestId`,
        whoever sent it. */
    method PollPermission(requestId: string) returns (granted: Option<bool>, index: nat)
      modifies this`messages
      ensures granted.Some? ==>
                && index < |old(messages)| && !old(messages)[index].read
                && Suits(PermissionBridge(requestId), old(messages)[index])
                && granted.value == old(messages)[index].kind.success
                && (forall j :: 0 <= j < index ==>
                      old(messages)[j].read || !Suits(PermissionBridge(requestId), old(messages)[j]))
      ensures granted.Some? ==> messages == MarkRead(old(messages), index)
      ensures granted.None? ==>
                && messages == old(messages)
                && forall j :: 0 <= j < |messages| ==>
                     messages[j].read || !Suits(PermissionBridge(requestId), messages[j])
      ensures messages == Taken(old(messages), PermissionBridge(requestId))
    {
      PickMeaning(PermissionBridge(requestId), messages, 0);
      index := 0;
      while index < |messages|
        invariant messages == old(messages) && 0 <= index <= |messages|
        invariant forall j :: 0 <= j < index ==> messages[j].read || !Suits(PermissionBridge(requestId), messages[j])
      {
        var m := messages[index];
        if !m.read && m.kind.PermissionResponse? && m.kind.requestId == requestId {
          MarkMessageAsReadByIndex(index);
          return Some(m.kind.success), index;
        }
        index := index + 1;
      }
      granted := None;
    }
  }
}
