/**
  A teammate's inbox and the four consumers that share it.

  The inbox is an append-only list of messages with a read flag. Every consumer works in the
  same two steps: it reads the whole list without a lock, and later marks one index as read in a
  locked read-modify-write. Other writers and other consumers may act between the two, the read
  may fail (the consumer then sees an empty list) and so may the mark (its error is ignored).
  `Kind` stands for the outcome of classifying and parsing the message text.
*/
module Mailbox {
  import opened Prelude

  const TEAM_LEAD_NAME := "team-lead"

  type Rule = string

  datatype Kind =
    | Plain
    | ShutdownRequest
    | ModeSet(mode: PermissionMode)
    | RuleUpdate(rules: seq<Rule>)
    | PlanResponse(requestId: string, approved: bool, feedback: Option<string>, planMode: Option<PermissionMode>)
    | PermissionResponse(requestId: string, success: bool)
    | OtherProtocol

  datatype Message = Message(from: string, text: string, kind: Kind, read: bool)

  // ---------------------------------------------------------------- selection

  /** Index of the first unread message satisfying `want`, searching from `start`. */
  function FirstUnread(inbox: seq<Message>, start: nat, want: Message -> bool): Option<nat>
    decreases |inbox| - start
  {
    if start >= |inbox| then None
    else if !inbox[start].read && want(inbox[start]) then Some(start)
    else FirstUnread(inbox, start + 1, want)
  }

  lemma FirstUnreadMeaning(inbox: seq<Message>, start: nat, want: Message -> bool)
    ensures FirstUnread(inbox, start, want).Some? ==>
              var i := FirstUnread(inbox, start, want).value;
              start <= i < |inbox| && !inbox[i].read && want(inbox[i])
              && forall j :: start <= j < i ==> inbox[j].read || !want(inbox[j])
    ensures FirstUnread(inbox, start, want).None? ==>
              forall j :: start <= j < |inbox| ==> inbox[j].read || !want(inbox[j])
    decreases |inbox| - start
  {
    if start < |inbox| {
      FirstUnreadMeaning(inbox, start + 1, want);
    }
  }

  predicate FromLead(m: Message) { m.from == TEAM_LEAD_NAME }

  predicate IsShutdown(m: Message) { m.kind.ShutdownRequest? }

  predicate IsPlain(m: Message) { m.kind.Plain? }

  predicate IsLeadPlain(m: Message) { FromLead(m) && IsPlain(m) }

  /** The prompt-bearing message a poll picks: shutdown, then lead text, then any plain text. */
  function SelectPrompt(inbox: seq<Message>): Option<nat> {
    match FirstUnread(inbox, 0, IsShutdown)
    case Some(i) => Some(i)
    case None =>
      match FirstUnread(inbox, 0, IsLeadPlain)
      case Some(i) => Some(i)
      case None => FirstUnread(inbox, 0, IsPlain)
  }

  predicate IsPrompt(m: Message) { IsShutdown(m) || IsPlain(m) }

  /** Priority class of a prompt-bearing message; lower goes first. */
  function Rank(m: Message): nat {
    if IsShutdown(m) then 0 else if IsLeadPlain(m) then 1 else 2
  }

  /** `i` is the unread prompt with the least (rank, index). */
  ghost predicate IsBestPrompt(inbox: seq<Message>, i: nat) {
    && i < |inbox| && !inbox[i].read && IsPrompt(inbox[i])
    && forall j :: 0 <= j < |inbox| && !inbox[j].read && IsPrompt(inbox[j]) ==>
         Rank(inbox[i]) < Rank(inbox[j]) || (Rank(inbox[i]) == Rank(inbox[j]) && i <= j)
  }

  /** Selection returns exactly the least unread prompt, and nothing only when there is none. */
  lemma SelectPromptIsBest(inbox: seq<Message>)
    ensures forall i: nat :: SelectPrompt(inbox) == Some(i) <==> IsBestPrompt(inbox, i)
    ensures SelectPrompt(inbox).None? <==>
              forall j :: 0 <= j < |inbox| ==> inbox[j].read || !IsPrompt(inbox[j])
  {
    FirstUnreadMeaning(inbox, 0, IsShutdown);
    FirstUnreadMeaning(inbox, 0, IsLeadPlain);
    FirstUnreadMeaning(inbox, 0, IsPlain);
  }

  /** An unread shutdown request goes before everything, the lead's text before anyone else's, and
      within each of these the older message goes first. */
  ghost predicate GoesFirst(inbox: seq<Message>, i: nat) {
    && i < |inbox| && !inbox[i].read && inbox[i].kind in {ShutdownRequest, Kind.Plain}
    && forall j :: 0 <= j < |inbox| && !inbox[j].read ==>
         && (inbox[j].kind == ShutdownRequest ==> inbox[i].kind == ShutdownRequest && i <= j)
         && (inbox[j].kind == Kind.Plain && inbox[i].kind == Kind.Plain ==>
               && (inbox[j].from == "team-lead" ==> inbox[i].from == "team-lead" && i <= j)
               && (inbox[i].from != "team-lead" ==> i <= j))
  }

  lemma SelectionGoesFirst(inbox: seq<Message>)
    ensures forall i: nat :: SelectPrompt(inbox) == Some(i) <==> GoesFirst(inbox, i)
  {
    SelectPromptIsBest(inbox);
    forall i: nat
      ensures IsBestPrompt(inbox, i) <==> GoesFirst(inbox, i)
    {
    }
  }

  // ---------------------------------------------------------------- consumers

  datatype Consumer =
    | PromptScan
    | ControlDrain
    | PlanWaiter(requestId: string)
    | PermissionBridge(requestId: string)

  predicate IsControl(m: Message) {
    FromLead(m) && (m.kind.ModeSet? || m.kind.RuleUpdate?)
  }

  predicate IsPlanReply(m: Message, requestId: string) {
    FromLead(m) && m.kind.PlanResponse? && m.kind.requestId == requestId
  }

  predicate IsPermissionReply(m: Message, requestId: string) {
    m.kind.PermissionResponse? && m.kind.requestId == requestId
  }

  predicate Wants(c: Consumer, m: Message) {
    match c
    case PromptScan => IsPrompt(m)
    case ControlDrain => IsControl(m)
    case PlanWaiter(id) => IsPlanReply(m, id)
    case PermissionBridge(id) => IsPermissionReply(m, id)
  }

  /** What the consumer takes next from its snapshot; the drain remembers how far it has got. */
  function Pick(c: Consumer, snapshot: seq<Message>, start: nat): Option<nat> {
    match c
    case PromptScan => SelectPrompt(snapshot)
    case _ => FirstUnread(snapshot, start, m => Wants(c, m))
  }

  lemma PickMeaning(c: Consumer, snapshot: seq<Message>, start: nat)
    ensures Pick(c, snapshot, start).Some? ==>
              var i := Pick(c, snapshot, start).value;
              i < |snapshot| && !snapshot[i].read && Wants(c, snapshot[i])
              && (!c.PromptScan? ==>
                    start <= i && forall j :: start <= j < i ==> snapshot[j].read || !Wants(c, snapshot[j]))
              && (c.PromptScan? ==> IsBestPrompt(snapshot, i))
    ensures Pick(c, snapshot, start).None? && !c.PromptScan? ==>
              forall j :: start <= j < |snapshot| ==> snapshot[j].read || !Wants(c, snapshot[j])
  {
    if c.PromptScan? {
      SelectPromptIsBest(snapshot);
    } else {
      FirstUnreadMeaning(snapshot, start, m => Wants(c, m));
    }
  }

  // ---------------------------------------------------------------- control state

  datatype Control = Control(mode: PermissionMode, rules: seq<Rule>)

  function ApplyControl(ctl: Control, m: Message): Control {
    if !IsControl(m) then ctl
    else match m.kind
         case ModeSet(mode) => ctl.(mode := mode)
         case RuleUpdate(rules) => ctl.(rules := ctl.rules + rules)
         case _ => ctl
  }

  /** The whole inbox applied once, in order: what a single drain at the end would do. */
  function ApplyAll(ctl: Control, inbox: seq<Message>): Control {
    if inbox == [] then ctl
    else ApplyControl(ApplyAll(ctl, inbox[..|inbox| - 1]), inbox[|inbox| - 1])
  }

  function RulesOf(m: Message): seq<Rule> {
    if FromLead(m) && m.kind.RuleUpdate? then m.kind.rules else []
  }

  /** Rules contributed by the lead's updates, in inbox order. */
  function LeadRules(inbox: seq<Message>): seq<Rule> {
    if inbox == [] then [] else LeadRules(inbox[..|inbox| - 1]) + RulesOf(inbox[|inbox| - 1])
  }

  predicate IsLeadMode(m: Message) { FromLead(m) && m.kind.ModeSet? }

  lemma {:induction false} ApplyAllRules(ctl: Control, inbox: seq<Message>)
    ensures ApplyAll(ctl, inbox).rules == ctl.rules + LeadRules(inbox)
  {
    if inbox != [] {
      ApplyAllRules(ctl, inbox[..|inbox| - 1]);
    }
  }

  /** The mode is the one the lead asked for last, or the initial one if it never asked. */
  ghost predicate IsLastLeadMode(ctl: Control, inbox: seq<Message>, mode: PermissionMode) {
    || (mode == ctl.mode && forall j :: 0 <= j < |inbox| ==> !IsLeadMode(inbox[j]))
    || (exists i :: 0 <= i < |inbox| && IsLeadMode(inbox[i]) && inbox[i].kind.mode == mode
                    && forall j :: i < j < |inbox| ==> !IsLeadMode(inbox[j]))
  }

  lemma {:induction false} ApplyAllMode(ctl: Control, inbox: seq<Message>)
    ensures IsLastLeadMode(ctl, inbox, ApplyAll(ctl, inbox).mode)
  {
    if inbox != [] {
      var n := |inbox| - 1;
      ApplyAllMode(ctl, inbox[..n]);
      var mode := ApplyAll(ctl, inbox[..n]).mode;
      if !IsLeadMode(inbox[n]) {
        if i :| 0 <= i < n && IsLeadMode(inbox[..n][i]) && inbox[..n][i].kind.mode == mode
                && forall j :: i < j < n ==> !IsLeadMode(inbox[..n][j]) {
          assert IsLeadMode(inbox[i]) && forall j :: i < j < n ==> inbox[j] == inbox[..n][j];
        } else {
          assert forall j :: 0 <= j < n ==> inbox[j] == inbox[..n][j];
        }
      }
    }
  }

  // ---------------------------------------------------------------- interleaved runs

  datatype Snapshot = Snapshot(messages: seq<Message>, next: nat)

  /** One act of consumption: which message, by whom, whether the mark succeeded, and how much
      of the inbox the consumer's read had seen. */
  datatype Consumption = Consumption(index: nat, taker: Consumer, marked: bool, seen: nat)

  datatype World = World(
    inbox: seq<Message>,
    control: Control,
    snapshots: map<Consumer, Snapshot>,
    log: seq<Consumption>)

  datatype Event =
    | Append(from: string, text: string, kind: Kind)
    | Poll(c: Consumer, readOk: bool)
    | Take(c: Consumer, markOk: bool)

  function MarkRead(inbox: seq<Message>, i: nat): seq<Message> {
    if i < |inbox| then inbox[i := inbox[i].(read := true)] else inbox
  }

  /** What consuming `m` does to the teammate: the drain applies it, an approved plan sets the mode. */
  function Effect(ctl: Control, c: Consumer, m: Message): Control {
    match c
    case ControlDrain => ApplyControl(ctl, m)
    case PlanWaiter(_) =>
      if m.kind.PlanResponse? && m.kind.approved
      then ctl.(mode := if m.kind.planMode.Some? then m.kind.planMode.value else Default)
      else ctl
    case _ => ctl
  }

  /** Consumer `c` takes message `i` of its snapshot: act on it, mark it, log it. */
  function TakeAt(w: World, c: Consumer, markOk: bool, i: nat): World
    requires c in w.snapshots && i < |w.snapshots[c].messages|
  {
    var snap := w.snapshots[c];
    World(
      if markOk then MarkRead(w.inbox, i) else w.inbox,
      Effect(w.control, c, snap.messages[i]),
      if c.ControlDrain? then w.snapshots[c := snap.(next := i + 1)] else w.snapshots - {c},
      w.log + [Consumption(i, c, markOk, |snap.messages|)])
  }

  function Step(w: World, e: Event): World {
    match e
    case Append(from, text, kind) => w.(inbox := w.inbox + [Message(from, text, kind, false)])
    case Poll(c, readOk) =>
      w.(snapshots := w.snapshots[c := Snapshot(if readOk then w.inbox else [], 0)])
    case Take(c, markOk) =>
      if c !in w.snapshots then w
      else match Pick(c, w.snapshots[c].messages, w.snapshots[c].next)
           case Some(i) => if i < |w.snapshots[c].messages| then TakeAt(w, c, markOk, i) else w
           case None => w.(snapshots := w.snapshots - {c})
  }

  function Start(ctl: Control): World {
    World([], ctl, map[], [])
  }

  function Run(ctl: Control, events: seq<Event>): World {
    if events == [] then Start(ctl)
    else Step(Run(ctl, events[..|events| - 1]), events[|events| - 1])
  }

  function Takes(log: seq<Consumption>, i: nat): nat {
    if log == [] then 0
    else Takes(log[..|log| - 1], i) + (if log[|log| - 1].index == i then 1 else 0)
  }

  function FailedMarks(log: seq<Consumption>, i: nat): nat {
    if log == [] then 0
    else FailedMarks(log[..|log| - 1], i) + (if log[|log| - 1].index == i && !log[|log| - 1].marked then 1 else 0)
  }

  /** A live snapshot is a prefix of the inbox that may lag only on flags its owner does not act on. */
  ghost predicate SnapshotTracks(w: World, c: Consumer, snap: Snapshot) {
    && |snap.messages| <= |w.inbox|
    && (!c.ControlDrain? ==> snap.next == 0)
    && (forall i :: 0 <= i < |snap.messages| ==> snap.messages[i].(read := true) == w.inbox[i].(read := true))
    && (forall i :: snap.next <= i < |snap.messages| && Wants(c, w.inbox[i]) ==>
          snap.messages[i].read == w.inbox[i].read)
  }

  ghost predicate Tracking(w: World) {
    forall c :: c in w.snapshots ==> SnapshotTracks(w, c, w.snapshots[c])
  }

  ghost predicate MeantForTaker(w: World) {
    forall k :: 0 <= k < |w.log| ==>
      && w.log[k].index < |w.inbox| && w.log[k].seen <= |w.inbox|
      && Wants(w.log[k].taker, w.inbox[w.log[k].index])
  }

  ghost predicate Balanced(w: World) {
    forall i :: 0 <= i < |w.inbox| ==>
      Takes(w.log, i) == FailedMarks(w.log, i) + (if w.inbox[i].read then 1 else 0)
  }

  ghost predicate Accounted(w: World) {
    Tracking(w) && MeantForTaker(w) && Balanced(w)
  }

  lemma ClassesAreDisjoint(c: Consumer, d: Consumer, m: Message)
    ensures Wants(c, m) && Wants(d, m) ==> c == d
  {}

  lemma {:induction false} UntouchedIndex(log: seq<Consumption>, i: nat)
    requires forall k :: 0 <= k < |log| ==> log[k].index != i
    ensures Takes(log, i) == 0 && FailedMarks(log, i) == 0
  {
    if log != [] {
      UntouchedIndex(log[..|log| - 1], i);
    }
  }

  lemma AppendAccounted(w: World, e: Event)
    requires Accounted(w) && e.Append?
    ensures Accounted(Step(w, e))
  {
    var w' := Step(w, e);
    UntouchedIndex(w.log, |w.inbox|);
    forall c | c in w'.snapshots
      ensures SnapshotTracks(w', c, w'.snapshots[c])
    {
      assert SnapshotTracks(w, c, w.snapshots[c]);
    }
  }

  lemma SnapshotContent(w: World, c: Consumer, j: nat)
    requires c in w.snapshots && SnapshotTracks(w, c, w.snapshots[c]) && j < |w.snapshots[c].messages|
    ensures w.snapshots[c].messages[j].from == w.inbox[j].from
    ensures w.snapshots[c].messages[j].text == w.inbox[j].text
    ensures w.snapshots[c].messages[j].kind == w.inbox[j].kind
  {
    var m, n := w.snapshots[c].messages[j], w.inbox[j];
    assert m.(read := true) == n.(read := true);
    assert m == m.(read := true).(read := m.read) && n == n.(read := true).(read := n.read);
  }

  /**
    `i` is what `c` takes next, said of the inbox itself: unread there, meant for `c`, and, among
    the messages the snapshot holds, the first such one for a drain and the best for a scan.
  */
  ghost predicate Takeable(w: World, c: Consumer, i: nat) {
    && c in w.snapshots
    && var snap := w.snapshots[c];
    && snap.next <= i < |snap.messages| <= |w.inbox|
    && Wants(c, w.inbox[i]) && !w.inbox[i].read && snap.messages[i] == w.inbox[i]
    && (c.ControlDrain? ==> forall j :: snap.next <= j < i && IsControl(w.inbox[j]) ==> w.inbox[j].read)
    && (c.PromptScan? ==> IsBestPrompt(w.inbox[..|snap.messages|], i))
  }

  lemma PickIsTakeable(w: World, c: Consumer, i: nat)
    requires c in w.snapshots && SnapshotTracks(w, c, w.snapshots[c])
    requires Pick(c, w.snapshots[c].messages, w.snapshots[c].next) == Some(i)
    ensures Takeable(w, c, i)
  {
    var snap := w.snapshots[c];
    PickMeaning(c, snap.messages, snap.next);
    SnapshotContent(w, c, i);
    var seen := w.inbox[..|snap.messages|];
    forall j | 0 <= j < |snap.messages|
      ensures snap.messages[j].kind == seen[j].kind && snap.messages[j].from == seen[j].from
    {
      SnapshotContent(w, c, j);
    }
  }

  /** Every step of a run is an append, a poll, a finished pass, or the taking of a takeable message. */
  lemma TakeCases(w: World, c: Consumer, markOk: bool) returns (i: nat)
    requires Accounted(w)
    ensures || Step(w, Take(c, markOk)) == w.(snapshots := w.snapshots - {c})
            || (Takeable(w, c, i) && Step(w, Take(c, markOk)) == TakeAt(w, c, markOk, i))
  {
    i := 0;
    if c in w.snapshots {
      match Pick(c, w.snapshots[c].messages, w.snapshots[c].next)
      case Some(k) =>
        i := k;
        PickIsTakeable(w, c, i);
      case None =>
    } else {
      assert w.snapshots - {c} == w.snapshots;
    }
  }

  lemma TakeKeepsTracking(w: World, c: Consumer, markOk: bool, i: nat, d: Consumer)
    requires Takeable(w, c, i)
    requires d in w.snapshots && SnapshotTracks(w, d, w.snapshots[d])
    ensures var w' := TakeAt(w, c, markOk, i);
            d in w'.snapshots ==> SnapshotTracks(w', d, w'.snapshots[d])
  {
    ClassesAreDisjoint(c, d, w.inbox[i]);
  }

  lemma TakeKeepsMeant(w: World, c: Consumer, markOk: bool, i: nat)
    requires MeantForTaker(w) && Takeable(w, c, i)
    ensures MeantForTaker(TakeAt(w, c, markOk, i))
  {
  }

  lemma TakesNext(log: seq<Consumption>, r: Consumption, j: nat)
    ensures Takes(log + [r], j) == Takes(log, j) + (if r.index == j then 1 else 0)
    ensures FailedMarks(log + [r], j) == FailedMarks(log, j) + (if r.index == j && !r.marked then 1 else 0)
  {
    assert (log + [r])[..|log|] == log;
  }

  lemma TakeKeepsBalance(w: World, c: Consumer, markOk: bool, i: nat)
    requires Balanced(w) && Takeable(w, c, i)
    ensures Balanced(TakeAt(w, c, markOk, i))
  {
    var w' := TakeAt(w, c, markOk, i);
    var r := Consumption(i, c, markOk, |w.snapshots[c].messages|);
    assert w'.log == w.log + [r];
    forall j | 0 <= j < |w'.inbox|
      ensures Takes(w'.log, j) == FailedMarks(w'.log, j) + (if w'.inbox[j].read then 1 else 0)
    {
      TakesNext(w.log, r, j);
    }
  }

  lemma TakeAccounted(w: World, c: Consumer, markOk: bool, i: nat)
    requires Accounted(w) && Takeable(w, c, i)
    ensures Accounted(TakeAt(w, c, markOk, i))
  {
    var w' := TakeAt(w, c, markOk, i);
    TakeKeepsMeant(w, c, markOk, i);
    TakeKeepsBalance(w, c, markOk, i);
    forall d | d in w'.snapshots
      ensures SnapshotTracks(w', d, w'.snapshots[d])
    {
      assert d in w.snapshots;
      TakeKeepsTracking(w, c, markOk, i, d);
    }
  }

  lemma SnapshotChangeAccounted(w: World, w': World, c: Consumer)
    requires Accounted(w) && w'.inbox == w.inbox && w'.log == w.log
    requires forall d :: d in w'.snapshots && d != c ==> d in w.snapshots && w'.snapshots[d] == w.snapshots[d]
    requires c in w'.snapshots ==> w'.snapshots[c] == Snapshot(w.inbox, 0) || w'.snapshots[c] == Snapshot([], 0)
    ensures Accounted(w')
  {
    forall d | d in w'.snapshots
      ensures SnapshotTracks(w', d, w'.snapshots[d])
    {
      if d != c {
        assert SnapshotTracks(w, d, w.snapshots[d]);
      }
    }
  }

  lemma StepAccounted(w: World, e: Event)
    requires Accounted(w)
    ensures Accounted(Step(w, e))
  {
    match e
    case Append(_, _, _) => AppendAccounted(w, e);
    case Poll(c, _) => SnapshotChangeAccounted(w, Step(w, e), c);
    case Take(c, markOk) =>
      var i := TakeCases(w, c, markOk);
      if Takeable(w, c, i) && Step(w, e) == TakeAt(w, c, markOk, i) {
        TakeAccounted(w, c, markOk, i);
      } else {
        SnapshotChangeAccounted(w, Step(w, e), c);
      }
  }

  lemma {:induction false} RunAccounted(ctl: Control, events: seq<Event>)
    ensures Accounted(Run(ctl, events))
  {
    if events != [] {
      RunAccounted(ctl, events[..|events| - 1]);
      StepAccounted(Run(ctl, events[..|events| - 1]), events[|events| - 1]);
    }
  }

  lemma {:induction false} MarksAllOk(log: seq<Consumption>, i: nat)
    requires forall k :: 0 <= k < |log| && log[k].index == i ==> log[k].marked
    ensures FailedMarks(log, i) == 0
  {
    if log != [] {
      MarksAllOk(log[..|log| - 1], i);
    }
  }

  lemma {:induction false} TwoTakes(log: seq<Consumption>, k: nat, l: nat)
    requires k < l < |log| && log[k].index == log[l].index
    ensures Takes(log, log[k].index) >= 2
  {
    var n := |log| - 1;
    if l < n {
      TwoTakes(log[..n], k, l);
    } else {
      OneTake(log[..n], k);
    }
  }

  lemma {:induction false} OneTake(log: seq<Consumption>, k: nat)
    requires k < |log|
    ensures Takes(log, log[k].index) >= 1
  {
    if k < |log| - 1 {
      OneTake(log[..|log| - 1], k);
    }
  }

  /**
    Exactly-once over every interleaving. A message is consumed once for every mark that failed,
    plus once more exactly when it is read; only the consumer it is meant for ever takes it; and
    when its marks succeed it is never taken twice.
  */
  lemma ConsumedExactlyOnce(ctl: Control, events: seq<Event>)
    ensures var w := Run(ctl, events);
            && (forall i :: 0 <= i < |w.inbox| ==>
                  Takes(w.log, i) == FailedMarks(w.log, i) + (if w.inbox[i].read then 1 else 0))
            && (forall k :: 0 <= k < |w.log| ==>
                  w.log[k].index < |w.inbox|
                  && forall c :: Wants(c, w.inbox[w.log[k].index]) <==> c == w.log[k].taker)
            && (forall k, l :: 0 <= k < l < |w.log| && w.log[k].index == w.log[l].index ==>
                  exists n :: 0 <= n < |w.log| && w.log[n].index == w.log[k].index && !w.log[n].marked)
  {
    RunAccounted(ctl, events);
    var w := Run(ctl, events);
    forall k | 0 <= k < |w.log|
      ensures forall c :: Wants(c, w.inbox[w.log[k].index]) <==> c == w.log[k].taker
    {
      forall c | Wants(c, w.inbox[w.log[k].index])
        ensures c == w.log[k].taker
      {
        ClassesAreDisjoint(c, w.log[k].taker, w.inbox[w.log[k].index]);
      }
    }
    forall k, l | 0 <= k < l < |w.log| && w.log[k].index == w.log[l].index
      ensures exists n :: 0 <= n < |w.log| && w.log[n].index == w.log[k].index && !w.log[n].marked
    {
      TwoTakes(w.log, k, l);
      if forall n :: 0 <= n < |w.log| && w.log[n].index == w.log[k].index ==> w.log[n].marked {
        MarksAllOk(w.log, w.log[k].index);
        assert false;
      }
    }
  }

  /** What each consumer may be given. */
  ghost predicate Suits(c: Consumer, m: Message) {
    match c
    case PromptScan => m.kind in {ShutdownRequest, Kind.Plain}
    case ControlDrain => m.from == "team-lead" && (m.kind.ModeSet? || m.kind.RuleUpdate?)
    case PlanWaiter(id) => m.from == "team-lead" && m.kind.PlanResponse? && m.kind.requestId == id
    case PermissionBridge(id) => m.kind.PermissionResponse? && m.kind.requestId == id
  }

  /** Over every run, every taken message suits its taker, and every read message was taken. */
  lemma TakersGetTheirOwn(ctl: Control, events: seq<Event>)
    ensures var w := Run(ctl, events);
            && (forall k :: 0 <= k < |w.log| ==>
                  w.log[k].index < |w.inbox| && Suits(w.log[k].taker, w.inbox[w.log[k].index]))
            && (forall j :: 0 <= j < |w.inbox| && w.inbox[j].read ==>
                  exists k :: 0 <= k < |w.log| && w.log[k].index == j && w.log[k].marked)
  {
    RunAccounted(ctl, events);
    RunPromptsOrdered(ctl, events);
  }

  // ---------------------------------------------------------------- prompt order

  ghost predicate TakenBefore(log: seq<Consumption>, j: nat, k: nat) {
    exists l :: 0 <= l < k && l < |log| && log[l].index == j && log[l].marked
  }

  /** Record `k` is a prompt of the same class as message `j`. */
  predicate SameClass(w: World, k: nat, j: nat) {
    && k < |w.log| && j < |w.inbox| && w.log[k].index < |w.inbox|
    && w.log[k].taker.PromptScan? && IsPrompt(w.inbox[j])
    && Rank(w.inbox[j]) == Rank(w.inbox[w.log[k].index])
  }

  /** Record `k` is a prompt and message `j`, which that poll saw, is a prompt of a higher class. */
  predicate Outranks(w: World, j: nat, k: nat) {
    && k < |w.log| && j < |w.inbox| && w.log[k].index < |w.inbox|
    && w.log[k].taker.PromptScan? && j < w.log[k].seen && IsPrompt(w.inbox[j])
    && Rank(w.inbox[j]) < Rank(w.inbox[w.log[k].index])
  }

  ghost predicate ReadWasTaken(w: World) {
    forall j :: 0 <= j < |w.inbox| && w.inbox[j].read ==> TakenBefore(w.log, j, |w.log|)
  }

  ghost predicate UnreadComesLater(w: World) {
    forall k: nat, j: nat :: SameClass(w, k, j) && !w.inbox[j].read ==> w.log[k].index <= j
  }

  ghost predicate ClassIsFifo(w: World) {
    forall k: nat, l: nat :: k < l < |w.log| && SameClass(w, k, w.log[l].index) && w.log[l].taker.PromptScan? ==>
      w.log[k].index <= w.log[l].index && (w.log[k].marked ==> w.log[k].index < w.log[l].index)
  }

  ghost predicate PriorityRespected(w: World) {
    forall k: nat, j: nat :: Outranks(w, j, k) ==> TakenBefore(w.log, j, k)
  }

  ghost predicate PromptsOrdered(w: World) {
    ReadWasTaken(w) && UnreadComesLater(w) && ClassIsFifo(w) && PriorityRespected(w)
  }

  lemma TakenBeforeExtends(log: seq<Consumption>, r: Consumption, j: nat, k: nat)
    requires k <= |log|
    ensures TakenBefore(log, j, k) <==> TakenBefore(log + [r], j, k)
  {
    if l :| 0 <= l < k && l < |log| && log[l].index == j && log[l].marked {
      assert (log + [r])[l] == log[l];
    }
    if l :| 0 <= l < k && l < |log + [r]| && (log + [r])[l].index == j && (log + [r])[l].marked {
      assert log[l] == (log + [r])[l];
    }
  }

  lemma TakeKeepsReadWasTaken(w: World, c: Consumer, markOk: bool, i: nat)
    requires ReadWasTaken(w) && Takeable(w, c, i)
    ensures ReadWasTaken(TakeAt(w, c, markOk, i))
  {
    var w' := TakeAt(w, c, markOk, i);
    var r := w'.log[|w.log|];
    forall j | 0 <= j < |w'.inbox| && w'.inbox[j].read
      ensures TakenBefore(w'.log, j, |w'.log|)
    {
      if j != i {
        TakenBeforeExtends(w.log, r, j, |w.log|);
      } else {
        assert w'.log[|w.log|].index == j;
      }
    }
  }

  lemma TakeKeepsUnreadLater(w: World, c: Consumer, markOk: bool, i: nat)
    requires UnreadComesLater(w) && Takeable(w, c, i)
    ensures UnreadComesLater(TakeAt(w, c, markOk, i))
  {
    var w' := TakeAt(w, c, markOk, i);
    forall k: nat, j: nat | SameClass(w', k, j) && !w'.inbox[j].read
      ensures w'.log[k].index <= j
    {
      if k < |w.log| {
        assert SameClass(w, k, j);
      } else if j < |w.snapshots[c].messages| {
        assert w.inbox[..|w.snapshots[c].messages|][j] == w.inbox[j];
      }
    }
  }

  lemma TakeKeepsFifo(w: World, c: Consumer, markOk: bool, i: nat)
    requires Accounted(w) && UnreadComesLater(w) && ClassIsFifo(w) && Takeable(w, c, i)
    ensures ClassIsFifo(TakeAt(w, c, markOk, i))
  {
    var w' := TakeAt(w, c, markOk, i);
    forall k: nat, l: nat | k < l < |w'.log| && SameClass(w', k, w'.log[l].index) && w'.log[l].taker.PromptScan?
      ensures w'.log[k].index <= w'.log[l].index && (w'.log[k].marked ==> w'.log[k].index < w'.log[l].index)
    {
      assert SameClass(w, k, w'.log[l].index);
      if l == |w.log| && w.log[k].marked && w.log[k].index == i {
        MarkedIsRead(w, k);
      }
    }
  }

  lemma MarkedIsRead(w: World, k: nat)
    requires Accounted(w) && k < |w.log| && w.log[k].marked
    ensures w.inbox[w.log[k].index].read
  {
    MoreTakesThanFailures(w.log, k);
  }

  lemma {:induction false} MoreTakesThanFailures(log: seq<Consumption>, k: nat)
    requires k < |log| && log[k].marked
    ensures Takes(log, log[k].index) > FailedMarks(log, log[k].index)
  {
    var n := |log| - 1;
    if k < n {
      MoreTakesThanFailures(log[..n], k);
    } else {
      FailuresAtMostTakes(log[..n], log[k].index);
    }
  }

  lemma {:induction false} FailuresAtMostTakes(log: seq<Consumption>, i: nat)
    ensures FailedMarks(log, i) <= Takes(log, i)
  {
    if log != [] {
      FailuresAtMostTakes(log[..|log| - 1], i);
    }
  }

  lemma TakeKeepsPriority(w: World, c: Consumer, markOk: bool, i: nat)
    requires ReadWasTaken(w) && PriorityRespected(w) && Takeable(w, c, i)
    ensures PriorityRespected(TakeAt(w, c, markOk, i))
  {
    var w' := TakeAt(w, c, markOk, i);
    var r := w'.log[|w.log|];
    forall k: nat, j: nat | Outranks(w', j, k)
      ensures TakenBefore(w'.log, j, k)
    {
      if k < |w.log| {
        assert Outranks(w, j, k);
      } else {
        assert w.inbox[..|w.snapshots[c].messages|][j] == w.inbox[j];
      }
      TakenBeforeExtends(w.log, r, j, k);
    }
  }

  lemma StepPromptsOrdered(w: World, e: Event)
    requires Accounted(w) && PromptsOrdered(w)
    ensures PromptsOrdered(Step(w, e))
  {
    match e
    case Append(_, _, _) =>
    case Poll(_, _) => SameInboxAndLog(w, Step(w, e));
    case Take(c, markOk) =>
      var i := TakeCases(w, c, markOk);
      if Takeable(w, c, i) && Step(w, e) == TakeAt(w, c, markOk, i) {
        TakeKeepsReadWasTaken(w, c, markOk, i);
        TakeKeepsUnreadLater(w, c, markOk, i);
        TakeKeepsFifo(w, c, markOk, i);
        TakeKeepsPriority(w, c, markOk, i);
      } else {
        SameInboxAndLog(w, Step(w, e));
      }
  }

  lemma SameInboxAndLog(w: World, w': World)
    requires PromptsOrdered(w) && w'.inbox == w.inbox && w'.log == w.log
    ensures PromptsOrdered(w')
  {
    forall k: nat, j: nat
      ensures SameClass(w, k, j) <==> SameClass(w', k, j)
      ensures Outranks(w, j, k) <==> Outranks(w', j, k)
    {}
  }

  lemma {:induction false} RunPromptsOrdered(ctl: Control, events: seq<Event>)
    ensures PromptsOrdered(Run(ctl, events))
  {
    if events != [] {
      var before := events[..|events| - 1];
      RunAccounted(ctl, before);
      RunPromptsOrdered(ctl, before);
      StepPromptsOrdered(Run(ctl, before), events[|events| - 1]);
    }
  }

  /** Within a class (shutdown, lead, peer) prompts are taken in inbox order over every run, and
      strictly so once the earlier one's mark succeeded. */
  lemma PromptsTakenInOrder(ctl: Control, events: seq<Event>, k: nat, l: nat)
    requires k < l < |Run(ctl, events).log|
    requires Run(ctl, events).log[k].taker.PromptScan? && Run(ctl, events).log[l].taker.PromptScan?
    ensures var w := Run(ctl, events);
            var i, j := w.log[k].index, w.log[l].index;
            && i < |w.inbox| && j < |w.inbox|
            && (Rank(w.inbox[i]) == Rank(w.inbox[j]) ==> i <= j && (w.log[k].marked ==> i < j))
  {
    RunAccounted(ctl, events);
    RunPromptsOrdered(ctl, events);
    var w := Run(ctl, events);
    assert SameClass(w, k, w.log[l].index) || Rank(w.inbox[w.log[l].index]) != Rank(w.inbox[w.log[k].index]);
  }

  /** A prompt is taken only after every prompt of a higher class that its poll saw was taken. */
  lemma HigherClassTakenFirst(ctl: Control, events: seq<Event>, k: nat, j: nat)
    requires k < |Run(ctl, events).log| && Run(ctl, events).log[k].taker.PromptScan?
    requires j < Run(ctl, events).log[k].seen
    ensures var w := Run(ctl, events);
            && w.log[k].seen <= |w.inbox| && w.log[k].index < |w.inbox|
            && (IsPrompt(w.inbox[j]) && Rank(w.inbox[j]) < Rank(w.inbox[w.log[k].index]) ==>
                  exists n :: 0 <= n < k && w.log[n].index == j && w.log[n].marked && w.log[n].taker.PromptScan?)
  {
    RunAccounted(ctl, events);
    RunPromptsOrdered(ctl, events);
    var w := Run(ctl, events);
    if IsPrompt(w.inbox[j]) && Rank(w.inbox[j]) < Rank(w.inbox[w.log[k].index]) {
      assert Outranks(w, j, k);
      var n :| 0 <= n < k && n < |w.log| && w.log[n].index == j && w.log[n].marked;
      ClassesAreDisjoint(PromptScan, w.log[n].taker, w.inbox[j]);
    }
  }
}
