/**
  What the control drain makes of the lead's mode requests and rule updates, over every interleaving of
  appends, polls and the four consumers' takes, with reads and marks that may fail. A drain whose mark
  fails applies the same message again later.
*/
module MailboxControl {
  import opened Prelude
  import opened Mailbox

  // ---------------------------------------------------------------- the state is the log, replayed

  /** The effects of all takes, in the order they happened. */
  function EffectLog(ctl: Control, inbox: seq<Message>, log: seq<Consumption>): Control {
    if log == [] then ctl
    else
      var r := log[|log| - 1];
      var before := EffectLog(ctl, inbox, log[..|log| - 1]);
      if r.index < |inbox| then Effect(before, r.taker, inbox[r.index]) else before
  }

  /** The second inbox extends the first and differs from it only in read flags. */
  ghost predicate Extends(a: seq<Message>, b: seq<Message>) {
    |a| <= |b| && forall j :: 0 <= j < |a| ==> a[j].kind == b[j].kind && a[j].from == b[j].from
  }

  ghost predicate Within(log: seq<Consumption>, n: nat) {
    forall k :: 0 <= k < |log| ==> log[k].index < n
  }

  lemma {:induction false} EffectLogExtends(ctl: Control, a: seq<Message>, b: seq<Message>, log: seq<Consumption>)
    requires Extends(a, b) && Within(log, |a|)
    ensures EffectLog(ctl, a, log) == EffectLog(ctl, b, log)
  {
    if log != [] {
      EffectLogExtends(ctl, a, b, log[..|log| - 1]);
      var r := log[|log| - 1];
      assert a[r.index].kind == b[r.index].kind && a[r.index].from == b[r.index].from;
    }
  }

  lemma LogWithin(w: World)
    requires Accounted(w)
    ensures Within(w.log, |w.inbox|)
  {
  }

  /** A step either takes a takeable message or leaves log and control state alone and only appends. */
  lemma StepCases(w: World, e: Event) returns (i: nat)
    requires Accounted(w)
    ensures || (e.Take? && Takeable(w, e.c, i) && Step(w, e) == TakeAt(w, e.c, e.markOk, i))
            || (Step(w, e).log == w.log && Step(w, e).control == w.control && w.inbox <= Step(w, e).inbox
                && forall j :: |w.inbox| <= j < |Step(w, e).inbox| ==> !Step(w, e).inbox[j].read)
  {
    i := 0;
    if e.Take? {
      i := TakeCases(w, e.c, e.markOk);
    }
  }

  ghost predicate Replayed(ctl: Control, w: World) {
    w.control == EffectLog(ctl, w.inbox, w.log)
  }

  lemma TakeReplays(ctl: Control, w: World, c: Consumer, markOk: bool, i: nat)
    requires Accounted(w) && Takeable(w, c, i) && Replayed(ctl, w)
    ensures Replayed(ctl, TakeAt(w, c, markOk, i))
  {
    var w' := TakeAt(w, c, markOk, i);
    LogWithin(w);
    EffectLogExtends(ctl, w.inbox, w'.inbox, w.log);
    assert w'.log[..|w.log|] == w.log;
  }

  /** For every run, failing reads and marks included: the control state is the effects of the takes, in
      the order they happened. */
  lemma {:induction false} ControlIsLog(ctl: Control, events: seq<Event>)
    ensures Replayed(ctl, Run(ctl, events))
  {
    if events != [] {
      var before, e := events[..|events| - 1], events[|events| - 1];
      var w := Run(ctl, before);
      ControlIsLog(ctl, before);
      RunAccounted(ctl, before);
      var i := StepCases(w, e);
      if e.Take? && Takeable(w, e.c, i) && Step(w, e) == TakeAt(w, e.c, e.markOk, i) {
        TakeReplays(ctl, w, e.c, e.markOk, i);
      } else {
        LogWithin(w);
        EffectLogExtends(ctl, w.inbox, Step(w, e).inbox, w.log);
      }
    }
  }

  // ---------------------------------------------------------------- rules

  /** The rules of all messages the drain took, in the order it took them. */
  function RulesLog(inbox: seq<Message>, log: seq<Consumption>): seq<Rule> {
    if log == [] then []
    else
      var r := log[|log| - 1];
      RulesLog(inbox, log[..|log| - 1])
      + (if r.taker.ControlDrain? && r.index < |inbox| then RulesOf(inbox[r.index]) else [])
  }

  lemma {:induction false} EffectLogRules(ctl: Control, inbox: seq<Message>, log: seq<Consumption>)
    ensures EffectLog(ctl, inbox, log).rules == ctl.rules + RulesLog(inbox, log)
  {
    if log != [] {
      EffectLogRules(ctl, inbox, log[..|log| - 1]);
    }
  }

  /** For every run, failing marks included: the rules are the initial ones followed by those of the
      messages the drain took, in the order it took them. */
  lemma RulesAreTaken(ctl: Control, events: seq<Event>)
    ensures var w := Run(ctl, events);
            w.control.rules == ctl.rules + RulesLog(w.inbox, w.log)
  {
    ControlIsLog(ctl, events);
    EffectLogRules(ctl, Run(ctl, events).inbox, Run(ctl, events).log);
  }

  /** The drain took the message of record `k` and its mark failed. */
  predicate DrainMarkFailed(w: World, k: nat) {
    k < |w.log| && w.log[k].taker.ControlDrain? && !w.log[k].marked && w.log[k].index < |w.inbox|
  }

  /** No mark of a non-empty rule update failed. */
  ghost predicate UpdatesMarked(w: World) {
    forall k: nat :: DrainMarkFailed(w, k) ==> RulesOf(w.inbox[w.log[k].index]) == []
  }

  /** How many rules the read messages hold. */
  function ReadLen(inbox: seq<Message>): nat {
    if inbox == [] then 0
    else
      var m := inbox[|inbox| - 1];
      ReadLen(inbox[..|inbox| - 1]) + (if m.read then |RulesOf(m)| else 0)
  }

  /** How many rules were applied without a successful mark. */
  function FailedLen(inbox: seq<Message>, log: seq<Consumption>): nat {
    if log == [] then 0
    else
      var r := log[|log| - 1];
      FailedLen(inbox, log[..|log| - 1])
      + (if r.taker.ControlDrain? && !r.marked && r.index < |inbox| then |RulesOf(inbox[r.index])| else 0)
  }

  lemma {:induction false} LogExtends(a: seq<Message>, b: seq<Message>, log: seq<Consumption>)
    requires Extends(a, b) && Within(log, |a|)
    ensures RulesLog(a, log) == RulesLog(b, log) && FailedLen(a, log) == FailedLen(b, log)
  {
    if log != [] {
      LogExtends(a, b, log[..|log| - 1]);
      var r := log[|log| - 1];
      assert a[r.index].kind == b[r.index].kind && a[r.index].from == b[r.index].from;
    }
  }

  lemma {:induction false} ReadLenMark(inbox: seq<Message>, i: nat)
    requires i < |inbox| && !inbox[i].read
    ensures ReadLen(MarkRead(inbox, i)) == ReadLen(inbox) + |RulesOf(inbox[i])|
  {
    var n := |inbox| - 1;
    var after := MarkRead(inbox, i);
    if i < n {
      ReadLenMark(inbox[..n], i);
      assert after[..n] == MarkRead(inbox[..n], i);
    } else {
      assert after[..n] == inbox[..n];
    }
  }

  lemma {:induction false} ReadLenAppend(a: seq<Message>, b: seq<Message>)
    requires a <= b && forall j :: |a| <= j < |b| ==> !b[j].read
    ensures ReadLen(b) == ReadLen(a)
    decreases |b|
  {
    if |a| < |b| {
      ReadLenAppend(a, b[..|b| - 1]);
    } else {
      assert a == b;
    }
  }

  lemma OthersTakeNoRules(c: Consumer, m: Message)
    requires Wants(c, m) && c != ControlDrain
    ensures RulesOf(m) == []
  {
    ClassesAreDisjoint(c, ControlDrain, m);
  }

  ghost predicate RulesCounted(w: World) {
    |RulesLog(w.inbox, w.log)| == ReadLen(w.inbox) + FailedLen(w.inbox, w.log)
  }

  lemma TakeCounts(w: World, c: Consumer, markOk: bool, i: nat)
    requires Accounted(w) && Takeable(w, c, i) && RulesCounted(w)
    ensures RulesCounted(TakeAt(w, c, markOk, i))
  {
    var w' := TakeAt(w, c, markOk, i);
    LogWithin(w);
    LogExtends(w.inbox, w'.inbox, w.log);
    ReadLenMark(w.inbox, i);
    assert w'.log[..|w.log|] == w.log;
    if c != ControlDrain {
      OthersTakeNoRules(c, w.inbox[i]);
    }
  }

  lemma {:induction false} RunCounts(ctl: Control, events: seq<Event>)
    ensures RulesCounted(Run(ctl, events))
  {
    if events != [] {
      var before, e := events[..|events| - 1], events[|events| - 1];
      var w := Run(ctl, before);
      RunCounts(ctl, before);
      RunAccounted(ctl, before);
      var i := StepCases(w, e);
      if e.Take? && Takeable(w, e.c, i) && Step(w, e) == TakeAt(w, e.c, e.markOk, i) {
        TakeCounts(w, e.c, e.markOk, i);
      } else {
        LogWithin(w);
        LogExtends(w.inbox, Step(w, e).inbox, w.log);
        ReadLenAppend(w.inbox, Step(w, e).inbox);
      }
    }
  }

  // ---------------------------------------------------------------- rules in order

  predicate IsUpdate(m: Message) {
    RulesOf(m) != []
  }

  /** Exactly the updates below `f` are read. */
  ghost predicate ReadBelow(inbox: seq<Message>, f: nat) {
    f <= |inbox| && forall j :: 0 <= j < |inbox| && IsUpdate(inbox[j]) ==> (inbox[j].read <==> j < f)
  }

  /** The drain's current pass has left no update behind. */
  ghost predicate PassClean(w: World) {
    ControlDrain in w.snapshots ==>
      w.snapshots[ControlDrain].next <= |w.inbox|
      && forall j :: 0 <= j < w.snapshots[ControlDrain].next && IsUpdate(w.inbox[j]) ==> w.inbox[j].read
  }

  ghost predicate AppliedBelow(w: World, f: nat) {
    f <= |w.inbox| && RulesLog(w.inbox, w.log) == LeadRules(w.inbox[..f])
  }

  /** Updates are taken in order: exactly those below `f` are read, and their rules are what was applied. */
  ghost predicate UpdatesBelow(w: World, f: nat) {
    ReadBelow(w.inbox, f) && PassClean(w) && AppliedBelow(w, f)
  }

  lemma LeadRulesLast(inbox: seq<Message>)
    requires inbox != []
    ensures LeadRules(inbox) == LeadRules(inbox[..|inbox| - 1]) + RulesOf(inbox[|inbox| - 1])
  {
  }

  lemma {:induction false} LeadRulesSkip(a: seq<Message>, b: seq<Message>)
    requires Extends(a, b) && forall j :: |a| <= j < |b| ==> !IsUpdate(b[j])
    ensures LeadRules(b) == LeadRules(a)
    decreases |b|
  {
    if b != [] {
      var n := |b| - 1;
      LeadRulesLast(b);
      if |a| == |b| {
        LeadRulesLast(a);
        LeadRulesSkip(a[..n], b[..n]);
      } else {
        LeadRulesSkip(a, b[..n]);
        assert !IsUpdate(b[n]);
      }
    }
  }

  lemma UpdateIsControl(m: Message)
    ensures IsUpdate(m) ==> IsControl(m)
  {
  }

  /** What the drain takes comes after every update that was read, with no update in between. */
  lemma NextUpdate(w: World, i: nat, f: nat)
    requires Takeable(w, ControlDrain, i) && ReadBelow(w.inbox, f) && PassClean(w)
    ensures forall j :: 0 <= j < i && IsUpdate(w.inbox[j]) ==> w.inbox[j].read && j < f
    ensures IsUpdate(w.inbox[i]) ==> f <= i
  {
    forall j | 0 <= j < i && IsUpdate(w.inbox[j])
      ensures w.inbox[j].read && j < f
    {
      UpdateIsControl(w.inbox[j]);
    }
  }

  lemma UpdateTakenFlags(w: World, i: nat, f: nat)
    requires Takeable(w, ControlDrain, i) && ReadBelow(w.inbox, f) && PassClean(w) && IsUpdate(w.inbox[i])
    ensures ReadBelow(TakeAt(w, ControlDrain, true, i).inbox, i + 1) && PassClean(TakeAt(w, ControlDrain, true, i))
  {
    NextUpdate(w, i, f);
  }

  lemma TakeLogs(w: World, c: Consumer, markOk: bool, i: nat)
    requires Accounted(w) && Takeable(w, c, i)
    ensures var w' := TakeAt(w, c, markOk, i);
            RulesLog(w'.inbox, w'.log) ==
            RulesLog(w.inbox, w.log) + (if c.ControlDrain? then RulesOf(w.inbox[i]) else [])
  {
    var w' := TakeAt(w, c, markOk, i);
    LogWithin(w);
    LogExtends(w.inbox, w'.inbox, w.log);
    assert w'.log[..|w.log|] == w.log;
  }

  lemma LeadRulesAppend(c: seq<Message>, m: Message)
    ensures LeadRules(c + [m]) == LeadRules(c) + RulesOf(m)
  {
    assert (c + [m])[..|c|] == c;
  }

  lemma UpdateTakenRules(w: World, i: nat, f: nat)
    requires Accounted(w) && Takeable(w, ControlDrain, i) && f <= i && AppliedBelow(w, f)
    requires forall j :: f <= j < i ==> !IsUpdate(w.inbox[j])
    ensures AppliedBelow(TakeAt(w, ControlDrain, true, i), i + 1)
  {
    TakeLogs(w, ControlDrain, true, i);
    var inbox := TakeAt(w, ControlDrain, true, i).inbox;
    LeadRulesSkip(w.inbox[..f], inbox[..i]);
    LeadRulesAppend(inbox[..i], inbox[i]);
    assert inbox[..i + 1] == inbox[..i] + [inbox[i]];
  }

  /** A take of anything but an update changes nothing about updates. */
  lemma OtherTakenFlags(w: World, c: Consumer, markOk: bool, i: nat, f: nat)
    requires Takeable(w, c, i) && ReadBelow(w.inbox, f) && PassClean(w) && !IsUpdate(w.inbox[i])
    ensures ReadBelow(TakeAt(w, c, markOk, i).inbox, f) && PassClean(TakeAt(w, c, markOk, i))
  {
    if c == ControlDrain {
      NextUpdate(w, i, f);
    }
  }

  lemma OtherTakenRules(w: World, c: Consumer, markOk: bool, i: nat, f: nat)
    requires Accounted(w) && Takeable(w, c, i) && AppliedBelow(w, f) && !IsUpdate(w.inbox[i])
    ensures AppliedBelow(TakeAt(w, c, markOk, i), f)
  {
    TakeLogs(w, c, markOk, i);
    LeadRulesSkip(w.inbox[..f], TakeAt(w, c, markOk, i).inbox[..f]);
  }

  lemma NothingTaken(w: World, e: Event, f: nat)
    requires Accounted(w) && UpdatesBelow(w, f) && Step(w, e).log == w.log && w.inbox <= Step(w, e).inbox
    requires forall j :: |w.inbox| <= j < |Step(w, e).inbox| ==> !Step(w, e).inbox[j].read
    ensures UpdatesBelow(Step(w, e), f)
  {
    var w' := Step(w, e);
    LogWithin(w);
    LogExtends(w.inbox, w'.inbox, w.log);
    assert w'.inbox[..f] == w.inbox[..f];
    if e.Take? {
      var i := TakeCases(w, e.c, e.markOk);
    }
  }

  /** A take of an update is the drain's, and its mark succeeded. */
  lemma UpdateIsMarked(w: World, c: Consumer, markOk: bool, i: nat)
    requires Takeable(w, c, i) && IsUpdate(w.inbox[i]) && UpdatesMarked(TakeAt(w, c, markOk, i))
    ensures c == ControlDrain && markOk
  {
    var w' := TakeAt(w, c, markOk, i);
    UpdateIsControl(w.inbox[i]);
    ClassesAreDisjoint(c, ControlDrain, w.inbox[i]);
    assert w'.log[|w.log|].index == i && RulesOf(w'.inbox[i]) == RulesOf(w.inbox[i]);
    assert !DrainMarkFailed(w', |w.log|);
  }

  lemma UpdateTaken(w: World, i: nat, f: nat)
    requires Accounted(w) && UpdatesBelow(w, f) && Takeable(w, ControlDrain, i) && IsUpdate(w.inbox[i])
    ensures UpdatesBelow(TakeAt(w, ControlDrain, true, i), i + 1)
  {
    NextUpdate(w, i, f);
    UpdateTakenFlags(w, i, f);
    UpdateTakenRules(w, i, f);
  }

  lemma TakeUpdates(w: World, w': World, c: Consumer, markOk: bool, i: nat, f: nat) returns (f': nat)
    requires Accounted(w) && UpdatesBelow(w, f) && Takeable(w, c, i)
    requires w' == TakeAt(w, c, markOk, i) && UpdatesMarked(w')
    ensures UpdatesBelow(w', f')
  {
    if IsUpdate(w.inbox[i]) {
      UpdateIsMarked(w, c, markOk, i);
      UpdateTaken(w, i, f);
      f' := i + 1;
    } else {
      OtherTakenFlags(w, c, markOk, i, f);
      OtherTakenRules(w, c, markOk, i, f);
      f' := f;
    }
  }

  lemma StepUpdates(w: World, e: Event, f: nat) returns (f': nat)
    requires Accounted(w) && UpdatesBelow(w, f) && UpdatesMarked(Step(w, e))
    ensures UpdatesBelow(Step(w, e), f')
  {
    f' := f;
    var i := StepCases(w, e);
    if e.Take? && Takeable(w, e.c, i) && Step(w, e) == TakeAt(w, e.c, e.markOk, i) {
      f' := TakeUpdates(w, Step(w, e), e.c, e.markOk, i, f);
    } else {
      NothingTaken(w, e, f);
    }
  }

  lemma MarkedEarlier(w: World, e: Event)
    requires Accounted(w) && UpdatesMarked(Step(w, e))
    ensures UpdatesMarked(w)
  {
    var i := StepCases(w, e);
    var w' := Step(w, e);
    forall k: nat | DrainMarkFailed(w, k)
      ensures RulesOf(w.inbox[w.log[k].index]) == []
    {
      assert w'.log[k] == w.log[k] && DrainMarkFailed(w', k);
      var j := w.log[k].index;
      assert w'.inbox[j].kind == w.inbox[j].kind && w'.inbox[j].from == w.inbox[j].from;
    }
  }

  lemma {:induction false} UpdatesInOrder(ctl: Control, events: seq<Event>) returns (f: nat)
    requires UpdatesMarked(Run(ctl, events))
    ensures UpdatesBelow(Run(ctl, events), f)
  {
    if events == [] {
      f := 0;
    } else {
      var before, e := events[..|events| - 1], events[|events| - 1];
      RunAccounted(ctl, before);
      MarkedEarlier(Run(ctl, before), e);
      f := UpdatesInOrder(ctl, before);
      f := StepUpdates(Run(ctl, before), e, f);
    }
  }

  /** No control message is left unread. */
  ghost predicate AllDrained(w: World) {
    forall j :: 0 <= j < |w.inbox| && IsControl(w.inbox[j]) ==> w.inbox[j].read
  }

  lemma {:induction false} ReadLenAll(inbox: seq<Message>)
    requires forall j :: 0 <= j < |inbox| && IsUpdate(inbox[j]) ==> inbox[j].read
    ensures ReadLen(inbox) == |LeadRules(inbox)|
  {
    if inbox != [] {
      ReadLenAll(inbox[..|inbox| - 1]);
    }
  }

  lemma {:induction false} FailedLenZero(w: World, n: nat)
    requires n <= |w.log|
    ensures FailedLen(w.inbox, w.log[..n]) == 0 <==>
              forall k: nat :: k < n && DrainMarkFailed(w, k) ==> RulesOf(w.inbox[w.log[k].index]) == []
  {
    if n > 0 {
      FailedLenZero(w, n - 1);
      assert w.log[..n][..n - 1] == w.log[..n - 1];
    }
  }

  /**
    Poll-schedule independence of the rules. However appends, polls and takes were interleaved, once no
    control message is left unread the rules are the initial ones followed by every lead update in inbox
    order, each once, as one drain of the final inbox would have it, exactly when no mark of a non-empty
    update failed.
  */
  lemma RulesOnceIff(ctl: Control, events: seq<Event>)
    requires AllDrained(Run(ctl, events))
    ensures var w := Run(ctl, events);
            w.control.rules == ctl.rules + LeadRules(w.inbox) <==> UpdatesMarked(w)
  {
    var w := Run(ctl, events);
    RulesAreTaken(ctl, events);
    forall j | 0 <= j < |w.inbox|
      ensures IsUpdate(w.inbox[j]) ==> w.inbox[j].read
    {
      UpdateIsControl(w.inbox[j]);
    }
    if UpdatesMarked(w) {
      var f := UpdatesInOrder(ctl, events);
      LeadRulesSkip(w.inbox[..f], w.inbox);
    } else {
      RunCounts(ctl, events);
      ReadLenAll(w.inbox);
      FailedLenZero(w, |w.log|);
      assert w.log[..|w.log|] == w.log;
      assert |ctl.rules + LeadRules(w.inbox)| != |w.control.rules|;
    }
  }

  // ---------------------------------------------------------------- the mode

  /** The mode that record `k` set: a mode request taken by the drain, or an approved plan. */
  function SetBy(w: World, k: nat): Option<PermissionMode> {
    if k < |w.log| && w.log[k].index < |w.inbox| then ModeSetBy(w.log[k].taker, w.inbox[w.log[k].index]) else None
  }

  function ModeSetBy(c: Consumer, m: Message): Option<PermissionMode> {
    if c.ControlDrain? && IsLeadMode(m) then Some(m.kind.mode)
    else if c.PlanWaiter? && m.kind.PlanResponse? && m.kind.approved
    then Some(if m.kind.planMode.Some? then m.kind.planMode.value else Default)
    else None
  }

  /** Record `k` is the last of the first `n` that set a mode. */
  ghost predicate LastSetter(w: World, k: nat, n: nat) {
    k < n && SetBy(w, k).Some? && forall l: nat :: k < l < n ==> SetBy(w, l).None?
  }

  lemma EffectLogModeNext(ctl: Control, w: World, n: nat)
    requires 0 < n <= |w.log|
    ensures var before := EffectLog(ctl, w.inbox, w.log[..n - 1]).mode;
            EffectLog(ctl, w.inbox, w.log[..n]).mode ==
            if SetBy(w, n - 1).Some? then SetBy(w, n - 1).value else before
  {
    assert w.log[..n][..n - 1] == w.log[..n - 1];
  }

  lemma {:induction false} EffectLogMode(ctl: Control, w: World, n: nat)
    requires n <= |w.log|
    ensures var mode := EffectLog(ctl, w.inbox, w.log[..n]).mode;
            || (mode == ctl.mode && forall l: nat :: l < n ==> SetBy(w, l).None?)
            || exists k: nat :: LastSetter(w, k, n) && SetBy(w, k) == Some(mode)
  {
    if n > 0 {
      EffectLogMode(ctl, w, n - 1);
      EffectLogModeNext(ctl, w, n);
      var before := EffectLog(ctl, w.inbox, w.log[..n - 1]).mode;
      if SetBy(w, n - 1).Some? {
        assert LastSetter(w, n - 1, n);
      } else if k: nat :| LastSetter(w, k, n - 1) && SetBy(w, k) == Some(before) {
        assert LastSetter(w, k, n);
      }
    }
  }

  /** For every run: the mode is the one set last, by the drain or by an approved plan. */
  lemma ModeIsLastSet(ctl: Control, events: seq<Event>)
    ensures var w := Run(ctl, events);
            || (w.control.mode == ctl.mode && forall l: nat :: l < |w.log| ==> SetBy(w, l).None?)
            || exists k: nat :: LastSetter(w, k, |w.log|) && SetBy(w, k) == Some(w.control.mode)
  {
    var w := Run(ctl, events);
    ControlIsLog(ctl, events);
    EffectLogMode(ctl, w, |w.log|);
    assert w.log[..|w.log|] == w.log;
  }

  // ---------------------------------------------------------------- the drain's order

  /** One of the first `k` records took message `j`. */
  ghost predicate Took(log: seq<Consumption>, j: nat, k: nat) {
    exists l :: 0 <= l < k && l < |log| && log[l].index == j
  }

  /** A mark that succeeded shows. */
  ghost predicate MarksShow(w: World) {
    forall k :: 0 <= k < |w.log| && w.log[k].marked && w.log[k].index < |w.inbox| ==> w.inbox[w.log[k].index].read
  }

  /** Only a failed mark is followed by another take of the same message. */
  ghost predicate RetakesFailed(log: seq<Consumption>) {
    forall k, l :: 0 <= k < l < |log| && log[k].index == log[l].index ==> !log[k].marked
  }

  /** Before the drain takes a message it has taken every control message ahead of it. */
  ghost predicate DrainInOrder(w: World) {
    forall k, j :: 0 <= k < |w.log| && w.log[k].taker.ControlDrain? && 0 <= j < w.log[k].index && j < |w.inbox|
                   && IsControl(w.inbox[j]) ==>
      Took(w.log, j, k)
  }

  /** The drain's current pass has taken every control message it is past. */
  ghost predicate PassTook(w: World) {
    ControlDrain in w.snapshots ==>
      w.snapshots[ControlDrain].next <= |w.inbox|
      && forall j :: 0 <= j < w.snapshots[ControlDrain].next && IsControl(w.inbox[j]) ==> Took(w.log, j, |w.log|)
  }

  ghost predicate DrainOrdered(w: World) {
    MarksShow(w) && RetakesFailed(w.log) && DrainInOrder(w) && PassTook(w)
  }

  lemma TookExtends(a: seq<Consumption>, b: seq<Consumption>, j: nat, k: nat)
    requires a <= b && Took(a, j, k)
    ensures Took(b, j, k)
  {
    var l :| 0 <= l < k && l < |a| && a[l].index == j;
    assert b[l] == a[l];
  }

  lemma ReadIsTook(w: World, j: nat)
    requires Accounted(w) && j < |w.inbox| && w.inbox[j].read
    ensures Took(w.log, j, |w.log|)
  {
    if forall k :: 0 <= k < |w.log| ==> w.log[k].index != j {
      UntouchedIndex(w.log, j);
      assert false;
    }
  }

  lemma TakeShows(w: World, c: Consumer, markOk: bool, i: nat)
    requires Takeable(w, c, i) && MarksShow(w) && RetakesFailed(w.log) && Within(w.log, |w.inbox|)
    ensures MarksShow(TakeAt(w, c, markOk, i)) && RetakesFailed(TakeAt(w, c, markOk, i).log)
  {
  }

  /** What the drain is about to take: every control message ahead of it was taken. */
  lemma AheadIsTook(w: World, i: nat, j: nat)
    requires Accounted(w) && Takeable(w, ControlDrain, i) && PassTook(w) && j < i && IsControl(w.inbox[j])
    ensures Took(w.log, j, |w.log|)
  {
    if w.snapshots[ControlDrain].next <= j {
      ReadIsTook(w, j);
    }
  }

  lemma TakeInOrder(w: World, c: Consumer, markOk: bool, i: nat)
    requires Accounted(w) && Takeable(w, c, i) && DrainInOrder(w) && PassTook(w)
    ensures DrainInOrder(TakeAt(w, c, markOk, i))
  {
    var w' := TakeAt(w, c, markOk, i);
    forall k, j | 0 <= k < |w'.log| && w'.log[k].taker.ControlDrain? && 0 <= j < w'.log[k].index && j < |w'.inbox|
                  && IsControl(w'.inbox[j])
      ensures Took(w'.log, j, k)
    {
      assert IsControl(w.inbox[j]);
      if k < |w.log| {
        assert w'.log[k] == w.log[k];
      } else {
        AheadIsTook(w, i, j);
      }
      TookExtends(w.log, w'.log, j, k);
    }
  }

  lemma TakePass(w: World, c: Consumer, markOk: bool, i: nat)
    requires Accounted(w) && Takeable(w, c, i) && PassTook(w)
    ensures PassTook(TakeAt(w, c, markOk, i))
  {
    var w' := TakeAt(w, c, markOk, i);
    if ControlDrain in w'.snapshots {
      forall j | 0 <= j < w'.snapshots[ControlDrain].next && IsControl(w'.inbox[j])
        ensures Took(w'.log, j, |w'.log|)
      {
        assert IsControl(w.inbox[j]);
        if c == ControlDrain && j == i {
          assert w'.log[|w.log|].index == i;
        } else {
          if c == ControlDrain {
            AheadIsTook(w, i, j);
          }
          TookExtends(w.log, w'.log, j, |w.log|);
        }
      }
    }
  }

  lemma NothingTook(w: World, e: Event)
    requires Accounted(w) && DrainOrdered(w) && Step(w, e).log == w.log && w.inbox <= Step(w, e).inbox
    ensures DrainOrdered(Step(w, e))
  {
    LogWithin(w);
    var w' := Step(w, e);
    assert forall j :: 0 <= j < |w.inbox| ==> w'.inbox[j] == w.inbox[j];
    if e.Take? {
      var i := TakeCases(w, e.c, e.markOk);
    }
  }

  lemma {:induction false} RunDrainOrdered(ctl: Control, events: seq<Event>)
    ensures DrainOrdered(Run(ctl, events))
  {
    if events != [] {
      var before, e := events[..|events| - 1], events[|events| - 1];
      var w := Run(ctl, before);
      RunDrainOrdered(ctl, before);
      RunAccounted(ctl, before);
      var i := StepCases(w, e);
      if e.Take? && Takeable(w, e.c, i) && Step(w, e) == TakeAt(w, e.c, e.markOk, i) {
        LogWithin(w);
        TakeShows(w, e.c, e.markOk, i);
        TakeInOrder(w, e.c, e.markOk, i);
        TakePass(w, e.c, e.markOk, i);
      } else {
        NothingTook(w, e);
      }
    }
  }

  // ---------------------------------------------------------------- the last request wins, or not

  /** Record `k` is a mode request taken by the drain. */
  predicate IsModeTake(w: World, k: nat) {
    k < |w.log| && w.log[k].taker.ControlDrain? && w.log[k].index < |w.inbox| && IsLeadMode(w.inbox[w.log[k].index])
  }

  ghost predicate IsLastRequest(inbox: seq<Message>, i: nat) {
    i < |inbox| && IsLeadMode(inbox[i]) && forall j :: i < j < |inbox| ==> !IsLeadMode(inbox[j])
  }

  /**
    The mark of a request failed (`k0`), the lead's last request was taken (`k1`), and after it, as the last
    of all requests taken, the first one was applied again (`k2`), for another mode.
  */
  ghost predicate Overrules(w: World, k0: nat, k1: nat, k2: nat) {
    && k0 < k1 < k2 && IsModeTake(w, k0) && IsModeTake(w, k1) && IsModeTake(w, k2)
    && !w.log[k0].marked && w.log[k0].index == w.log[k2].index
    && IsLastRequest(w.inbox, w.log[k1].index)
    && (forall l: nat :: k2 < l ==> !IsModeTake(w, l))
    && w.inbox[w.log[k2].index].kind.mode != w.inbox[w.log[k1].index].kind.mode
  }

  ghost predicate StaleMode(w: World) {
    exists k0: nat, k1: nat, k2: nat :: Overrules(w, k0, k1, k2)
  }

  /** No plan waiter has consumed an approval, so only the drain has written the mode. */
  ghost predicate NoApproval(w: World) {
    forall k: nat :: SetBy(w, k).Some? ==> w.log[k].taker.ControlDrain?
  }

  lemma SetterIsModeTake(w: World, k: nat)
    requires NoApproval(w)
    ensures SetBy(w, k).Some? <==> IsModeTake(w, k)
    ensures IsModeTake(w, k) ==> SetBy(w, k) == Some(w.inbox[w.log[k].index].kind.mode)
  {
  }

  /** A request that is not the last but was taken last had its mark fail before the last one was taken. */
  lemma TakenAgain(w: World, k1: nat, k2: nat)
    requires Accounted(w) && DrainOrdered(w)
    requires k1 < k2 && IsModeTake(w, k1) && IsModeTake(w, k2) && w.log[k2].index < w.log[k1].index
    ensures exists k0: nat :: k0 < k1 && IsModeTake(w, k0) && !w.log[k0].marked && w.log[k0].index == w.log[k2].index
  {
    var i := w.log[k2].index;
    assert IsControl(w.inbox[i]);
    assert Took(w.log, i, k1);
    var k0 :| 0 <= k0 < k1 && w.log[k0].index == i;
    ClassesAreDisjoint(w.log[k0].taker, ControlDrain, w.inbox[i]);
    assert IsModeTake(w, k0);
  }

  lemma RequestTaken(w: World, i: nat) returns (k: nat)
    requires Accounted(w) && AllDrained(w) && i < |w.inbox| && IsLeadMode(w.inbox[i])
    ensures IsModeTake(w, k) && w.log[k].index == i
  {
    ReadIsTook(w, i);
    k :| 0 <= k < |w.log| && w.log[k].index == i;
    ClassesAreDisjoint(w.log[k].taker, ControlDrain, w.inbox[i]);
  }

  lemma {:induction false} LastRequestExists(inbox: seq<Message>, n: nat, i: nat) returns (last: nat)
    requires i < n <= |inbox| && IsLeadMode(inbox[i])
    ensures i <= last && IsLastRequest(inbox[..n], last)
  {
    if IsLeadMode(inbox[n - 1]) {
      last := n - 1;
    } else {
      last := LastRequestExists(inbox, n - 1, i);
    }
  }

  /** The mode is the last request's, said through an index. */
  lemma LastModeAt(ctl: Control, inbox: seq<Message>, last: nat, mode: PermissionMode)
    requires IsLastRequest(inbox, last)
    ensures IsLastLeadMode(ctl, inbox, mode) <==> inbox[last].kind.mode == mode
  {
  }

  lemma OneLastRequest(inbox: seq<Message>, i: nat, j: nat)
    requires IsLastRequest(inbox, i) && IsLastRequest(inbox, j)
    ensures i == j
  {
  }

  /** With the last of the taken requests at `k2` and the lead's last at `last`, the modes differ exactly when
      the former overrules the latter. */
  lemma StaleIff(w: World, k2: nat, last: nat)
    requires Accounted(w) && DrainOrdered(w) && AllDrained(w) && IsLastRequest(w.inbox, last)
    requires IsModeTake(w, k2) && forall l: nat :: k2 < l ==> !IsModeTake(w, l)
    ensures StaleMode(w) <==> w.inbox[w.log[k2].index].kind.mode != w.inbox[last].kind.mode
  {
    if w.inbox[w.log[k2].index].kind.mode != w.inbox[last].kind.mode {
      var k1 := RequestTaken(w, last);
      TakenAgain(w, k1, k2);
      var k0: nat :| k0 < k1 && IsModeTake(w, k0) && !w.log[k0].marked && w.log[k0].index == w.log[k2].index;
      assert Overrules(w, k0, k1, k2);
    }
    if k0: nat, k1: nat, l2: nat :| Overrules(w, k0, k1, l2) {
      OneLastRequest(w.inbox, last, w.log[k1].index);
      assert !(k2 < l2) && !(l2 < k2);
    }
  }

  lemma ModeAskedLast(ctl: Control, w: World, k2: nat)
    requires Accounted(w) && DrainOrdered(w) && AllDrained(w) && NoApproval(w)
    requires LastSetter(w, k2, |w.log|)
    ensures IsLastLeadMode(ctl, w.inbox, SetBy(w, k2).value) <==> !StaleMode(w)
  {
    SetterIsModeTake(w, k2);
    forall l: nat | k2 < l
      ensures !IsModeTake(w, l)
    {
      SetterIsModeTake(w, l);
    }
    var last := LastRequestExists(w.inbox, |w.inbox|, w.log[k2].index);
    assert w.inbox[..|w.inbox|] == w.inbox;
    LastModeAt(ctl, w.inbox, last, SetBy(w, k2).value);
    StaleIff(w, k2, last);
  }

  lemma NoModeAsked(ctl: Control, w: World)
    requires Accounted(w) && AllDrained(w) && NoApproval(w)
    requires forall l: nat :: l < |w.log| ==> SetBy(w, l).None?
    ensures IsLastLeadMode(ctl, w.inbox, ctl.mode) && !StaleMode(w)
  {
    forall k: nat
      ensures !IsModeTake(w, k)
    {
      SetterIsModeTake(w, k);
    }
    forall i: nat | i < |w.inbox|
      ensures !IsLeadMode(w.inbox[i])
    {
      if IsLeadMode(w.inbox[i]) {
        var k := RequestTaken(w, i);
        assert false;
      }
    }
  }

  lemma ModeAskedLastIff(ctl: Control, events: seq<Event>)
    requires AllDrained(Run(ctl, events)) && NoApproval(Run(ctl, events))
    ensures var w := Run(ctl, events);
            IsLastLeadMode(ctl, w.inbox, w.control.mode) <==> !StaleMode(w)
  {
    var w := Run(ctl, events);
    RunAccounted(ctl, events);
    RunDrainOrdered(ctl, events);
    ModeIsLastSet(ctl, events);
    if k2: nat :| LastSetter(w, k2, |w.log|) && SetBy(w, k2) == Some(w.control.mode) {
      ModeAskedLast(ctl, w, k2);
    } else {
      NoModeAsked(ctl, w);
    }
  }

  // ---------------------------------------------------------------- poll-schedule independence

  lemma SameLastMode(ctl: Control, inbox: seq<Message>, a: PermissionMode, b: PermissionMode)
    requires IsLastLeadMode(ctl, inbox, a) && IsLastLeadMode(ctl, inbox, b)
    ensures a == b
  {
  }

  /**
    Poll-schedule independence. However appends, polls and the steps of all four consumers were interleaved,
    with reads and marks failing anywhere: once no control message is left unread and if no plan was approved,
    the teammate is in the state one drain of the final inbox would have produced, exactly when no mark of a
    non-empty rule update failed and no request whose mark failed was applied again after the last one.
  */
  lemma ScheduleIndependence(ctl: Control, events: seq<Event>)
    requires AllDrained(Run(ctl, events))
    ensures var w := Run(ctl, events);
            && (w.control.rules == ctl.rules + LeadRules(w.inbox) <==> UpdatesMarked(w))
            && (NoApproval(w) ==> (IsLastLeadMode(ctl, w.inbox, w.control.mode) <==> !StaleMode(w)))
            && (NoApproval(w) ==> (w.control == ApplyAll(ctl, w.inbox) <==> UpdatesMarked(w) && !StaleMode(w)))
  {
    var w := Run(ctl, events);
    RulesOnceIff(ctl, events);
    ApplyAllRules(ctl, w.inbox);
    ApplyAllMode(ctl, w.inbox);
    if NoApproval(w) {
      ModeAskedLastIff(ctl, events);
      if !StaleMode(w) {
        SameLastMode(ctl, w.inbox, w.control.mode, ApplyAll(ctl, w.inbox).mode);
      }
    }
  }

  /** `n` further takes of the drain's current pass. */
  function DrainOn(w: World, n: nat): World
    decreases n
  {
    if n == 0 then w else DrainOn(Step(w, Take(ControlDrain, true)), n - 1)
  }

  /** The control messages below `upto` have all been read. */
  ghost predicate ControlReadBelow(w: World, upto: nat) {
    forall j :: 0 <= j < upto && j < |w.inbox| && IsControl(w.inbox[j]) ==> w.inbox[j].read
  }

  lemma PassAdvances(w: World, i: nat)
    requires Takeable(w, ControlDrain, i) && ControlReadBelow(w, w.snapshots[ControlDrain].next)
    ensures ControlReadBelow(TakeAt(w, ControlDrain, true, i), i + 1)
  {}

  lemma PassLeavesRead(w: World)
    requires Accounted(w) && ControlDrain in w.snapshots && |w.snapshots[ControlDrain].messages| == |w.inbox|
    requires Pick(ControlDrain, w.snapshots[ControlDrain].messages, w.snapshots[ControlDrain].next).None?
    ensures forall j :: w.snapshots[ControlDrain].next <= j < |w.inbox| && IsControl(w.inbox[j]) ==> w.inbox[j].read
  {
    var c := ControlDrain;
    PickMeaning(c, w.snapshots[c].messages, w.snapshots[c].next);
    forall j | w.snapshots[c].next <= j < |w.inbox|
      ensures IsControl(w.inbox[j]) ==> w.inbox[j].read
    {
      SnapshotContent(w, c, j);
    }
  }

  /** A pass over the whole inbox that has left nothing unread behind it. */
  ghost predicate FullPass(w: World) {
    && Accounted(w) && ControlDrain in w.snapshots
    && |w.snapshots[ControlDrain].messages| == |w.inbox|
    && ControlReadBelow(w, w.snapshots[ControlDrain].next)
  }

  lemma PassGoesOn(w: World, i: nat)
    requires FullPass(w) && Takeable(w, ControlDrain, i)
    ensures var w' := TakeAt(w, ControlDrain, true, i);
            FullPass(w') && |w'.inbox| == |w.inbox| && w'.snapshots[ControlDrain].next > w.snapshots[ControlDrain].next
  {
    PassAdvances(w, i);
    TakeAccounted(w, ControlDrain, true, i);
  }

  /** The pass is over and nothing is unread, or fewer than `left` of the inbox's `len` messages are to come. */
  ghost predicate PassNears(w: World, len: nat, left: nat) {
    && |w.inbox| == len
    && (if ControlDrain in w.snapshots
        then FullPass(w) && len - w.snapshots[ControlDrain].next < left
        else ControlReadBelow(w, len))
  }

  lemma PassStep(w: World, len: nat, left: nat)
    requires left > 0 && PassNears(w, len, left)
    ensures PassNears(Step(w, Take(ControlDrain, true)), len, left - 1)
  {
    if ControlDrain in w.snapshots {
      var snap := w.snapshots[ControlDrain];
      match Pick(ControlDrain, snap.messages, snap.next)
      case Some(i) =>
        PickIsTakeable(w, ControlDrain, i);
        PassGoesOn(w, i);
      case None =>
        PassLeavesRead(w);
    }
  }

  /** A pass that is not interrupted and takes often enough leaves no control message unread. */
  lemma {:induction false} PassCompletes(w: World, len: nat, n: nat)
    requires PassNears(w, len, n)
    ensures PassNears(DrainOn(w, n), len, 0)
    decreases n
  {
    if n > 0 {
      PassStep(w, len, n);
      PassCompletes(Step(w, Take(ControlDrain, true)), len, n - 1);
    }
  }

  function DrainTakes(n: nat): seq<Event> {
    seq(n, _ => Take(ControlDrain, true))
  }

  lemma {:induction false} RunThenDrain(ctl: Control, events: seq<Event>, n: nat)
    ensures Run(ctl, events + DrainTakes(n)) == DrainOn(Run(ctl, events), n)
    decreases n
  {
    if n == 0 {
      assert events + DrainTakes(0) == events;
    } else {
      var first := events + [Take(ControlDrain, true)];
      assert first[..|events|] == events;
      assert events + DrainTakes(n) == first + DrainTakes(n - 1);
      RunThenDrain(ctl, first, n - 1);
    }
  }

  /**
    Every schedule that ends in a completed drain pass, whatever came before it, leaves no control message
    unread, so the same conditions decide whether the teammate is in the state that one drain of the final
    inbox produces.
  */
  lemma EndingInADrainIsEnough(ctl: Control, events: seq<Event>, n: nat)
    requires n > |Run(ctl, events).inbox|
    ensures var w := Run(ctl, events + [Poll(ControlDrain, true)] + DrainTakes(n));
            && AllDrained(w)
            && (w.control.rules == ctl.rules + LeadRules(w.inbox) <==> UpdatesMarked(w))
            && (NoApproval(w) ==> (w.control == ApplyAll(ctl, w.inbox) <==> UpdatesMarked(w) && !StaleMode(w)))
  {
    var polled := events + [Poll(ControlDrain, true)];
    assert polled[..|events|] == events;
    RunAccounted(ctl, polled);
    PassCompletes(Run(ctl, polled), |Run(ctl, events).inbox|, n);
    RunThenDrain(ctl, polled, n);
    ScheduleIndependence(ctl, polled + DrainTakes(n));
  }

  // ---------------------------------------------------------------- what a failed mark does

  function FromTheLead(kind: Kind): Event {
    Append(TEAM_LEAD_NAME, "", kind)
  }

  const DRAIN_READS := Poll(ControlDrain, true)

  const MARKED := Take(ControlDrain, true)

  const MARK_FAILS := Take(ControlDrain, false)

  lemma RunNext(ctl: Control, events: seq<Event>, e: Event)
    ensures Run(ctl, events + [e]) == Step(Run(ctl, events), e)
  {
    assert (events + [e])[..|events|] == events;
  }

  /** The drain takes the first unread control message from where its pass is. */
  lemma DrainTakesAt(w: World, markOk: bool, i: nat)
    requires Accounted(w) && Takeable(w, ControlDrain, i)
    ensures Step(w, Take(ControlDrain, markOk)) == TakeAt(w, ControlDrain, markOk, i)
  {
    var snap := w.snapshots[ControlDrain];
    PickMeaning(ControlDrain, snap.messages, snap.next);
    SnapshotContent(w, ControlDrain, i);
    match Pick(ControlDrain, snap.messages, snap.next)
    case Some(k) =>
      SnapshotContent(w, ControlDrain, k);
      PickIsTakeable(w, ControlDrain, k);
    case None =>
      assert false;
  }

  /** One update, read once more because its first mark failed: everything is read and every rule is there twice. */
  lemma FailedMarkAppliesRulesTwice(ctl: Control, rules: seq<Rule>)
    ensures var w := Run(ctl, [FromTheLead(RuleUpdate(rules)), DRAIN_READS, MARK_FAILS, DRAIN_READS, MARKED]);
            AllDrained(w) && LeadRules(w.inbox) == rules && w.control.rules == ctl.rules + rules + rules
  {
    var update := FromTheLead(RuleUpdate(rules));
    var e1 := [update];
    var e2 := e1 + [DRAIN_READS];
    var e3 := e2 + [MARK_FAILS];
    var e4 := e3 + [DRAIN_READS];
    RunNext(ctl, [], update);
    RunNext(ctl, e1, DRAIN_READS);
    RunNext(ctl, e2, MARK_FAILS);
    RunNext(ctl, e3, DRAIN_READS);
    RunNext(ctl, e4, MARKED);
    RunAccounted(ctl, e2);
    DrainTakesAt(Run(ctl, e2), false, 0);
    RunAccounted(ctl, e4);
    DrainTakesAt(Run(ctl, e4), true, 0);
    assert [] + [update] == e1;
    assert e4 + [MARKED] == [update, DRAIN_READS, MARK_FAILS, DRAIN_READS, MARKED];
    LeadRulesLast(Run(ctl, e4 + [MARKED]).inbox);
  }

  function Asks(first: PermissionMode, second: PermissionMode): seq<Event> {
    [FromTheLead(ModeSet(first)), FromTheLead(ModeSet(second)), DRAIN_READS]
  }

  function Request(mode: PermissionMode, read: bool): Message {
    Message(TEAM_LEAD_NAME, "", ModeSet(mode), read)
  }

  lemma AsksArrive(ctl: Control, first: PermissionMode, second: PermissionMode)
    ensures var w := Run(ctl, Asks(first, second));
            && w.inbox == [Request(first, false), Request(second, false)] && w.control == ctl
            && ControlDrain in w.snapshots && w.snapshots[ControlDrain] == Snapshot(w.inbox, 0)
  {
    var a, b := FromTheLead(ModeSet(first)), FromTheLead(ModeSet(second));
    RunNext(ctl, [], a);
    RunNext(ctl, [a], b);
    RunNext(ctl, [a] + [b], DRAIN_READS);
    assert [] + [a] == [a];
    assert [a] + [b] + [DRAIN_READS] == Asks(first, second);
    assert Run(ctl, [a]).inbox == [Request(first, false)];
    assert Run(ctl, [a] + [b]).inbox == [Request(first, false), Request(second, false)];
  }

  lemma FirstAskTaken(ctl: Control, first: PermissionMode, second: PermissionMode)
    ensures var w := Run(ctl, Asks(first, second) + [MARK_FAILS]);
            && w.inbox == [Request(first, false), Request(second, false)] && w.control == ctl.(mode := first)
            && ControlDrain in w.snapshots && w.snapshots[ControlDrain] == Snapshot(w.inbox, 1)
  {
    var e3 := Asks(first, second);
    AsksArrive(ctl, first, second);
    RunNext(ctl, e3, MARK_FAILS);
    RunAccounted(ctl, e3);
    DrainTakesAt(Run(ctl, e3), false, 0);
  }

  /** One pass takes both requests, but the mark of the first fails. */
  lemma AsksTaken(ctl: Control, first: PermissionMode, second: PermissionMode)
    ensures var w := Run(ctl, Asks(first, second) + [MARK_FAILS] + [MARKED]);
            w.inbox == [Request(first, false), Request(second, true)] && w.control == ctl.(mode := second)
  {
    var e4 := Asks(first, second) + [MARK_FAILS];
    FirstAskTaken(ctl, first, second);
    RunNext(ctl, e4, MARKED);
    RunAccounted(ctl, e4);
    DrainTakesAt(Run(ctl, e4), true, 1);
  }

  /** The next pass applies the first request again: everything is read, and the mode is not the lead's last. */
  lemma FailedMarkBringsBackTheOldMode(ctl: Control, first: PermissionMode, second: PermissionMode)
    requires first != second
    ensures var w := Run(ctl, Asks(first, second) + [MARK_FAILS] + [MARKED] + [DRAIN_READS] + [MARKED]);
            AllDrained(w) && w.control.mode == first && IsLastLeadMode(ctl, w.inbox, second)
  {
    var e5 := Asks(first, second) + [MARK_FAILS] + [MARKED];
    var e6 := e5 + [DRAIN_READS];
    AsksTaken(ctl, first, second);
    RunNext(ctl, e5, DRAIN_READS);
    RunNext(ctl, e6, MARKED);
    RunAccounted(ctl, e6);
    DrainTakesAt(Run(ctl, e6), true, 0);
    var w := Run(ctl, e6 + [MARKED]);
    assert w.inbox[1].kind == ModeSet(second) && IsLastRequest(w.inbox, 1);
    LastModeAt(ctl, w.inbox, 1, second);
  }
}
