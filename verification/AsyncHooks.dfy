/**
  Delivery of hook results to the conversation. Background hooks are registered, updated and
  completed in a table that is collected turn by turn and finalized at the end; hooks run in the
  turn itself go through a queue. The table is visited in an order nothing fixes, so the order is
  an input, and so is the clock.
*/
module AsyncHooks {
  import opened Prelude

  /** Hook ids only ever serve to tell hooks apart. */
  type Id = nat

  datatype Hook = Hook(
    name: string,
    event: string,
    startedAt: int,
    timeout: nat,
    stdout: string,
    stderr: string,
    exitCode: Option<int>,
    delivered: bool,
    rewake: bool)

  datatype Response = Response(
    id: Id,
    name: string,
    event: string,
    stdout: string,
    stderr: string,
    exitCode: int,
    timedOut: bool,
    rewake: bool)

  type Pending = map<Id, Hook>

  /** The table, and the ledger of what was registered, delivered and overwritten undelivered. */
  datatype State = State(pending: Pending, registered: seq<Id>, delivered: seq<Id>, lost: seq<Id>)

  const EMPTY := State(map[], [], [], [])

  /** Milliseconds. */
  const DEFAULT_TIMEOUT: nat := 15_000

  datatype Event =
    | Register(id: Id, name: string, event: string, timeout: Option<nat>, now: int)
    | MarkRewake(id: Id)
    | UpdateOutput(id: Id, stdout: string, stderr: string)
    | Complete(id: Id, exitCode: int)
    | Collect(order: seq<Id>, now: int)
    | Cleanup
    | Finalize(order: seq<Id>)

  /** Which visit of the table: a turn at some time, or the last one. */
  datatype Visit = Turn(now: int) | Last

  predicate TimedOut(h: Hook, v: Visit) {
    match v
    case Turn(now) => now - h.startedAt > h.timeout
    case Last => h.exitCode.None?
  }

  predicate Ready(h: Hook, v: Visit) {
    !h.delivered && (v.Last? || h.exitCode.Some? || TimedOut(h, v))
  }

  function ResponseOf(id: Id, h: Hook, v: Visit): Response {
    Response(id, h.name, h.event, h.stdout, h.stderr,
             if h.exitCode.Some? then h.exitCode.value else -1, TimedOut(h, v), h.rewake)
  }

  function Gather(p: Pending, order: seq<Id>, n: nat, v: Visit): seq<Response>
    requires n <= |order|
  {
    if n == 0 then []
    else
      var id := order[n - 1];
      Gather(p, order, n - 1, v) + (if id in p && Ready(p[id], v) then [ResponseOf(id, p[id], v)] else [])
  }

  function Ids(rs: seq<Response>): seq<Id> {
    seq(|rs|, i requires 0 <= i < |rs| => rs[i].id)
  }

  function Settle(p: Pending, v: Visit): Pending {
    map id | id in p :: if Ready(p[id], v) then p[id].(delivered := true) else p[id]
  }

  function VisitAll(s: State, order: seq<Id>, v: Visit): State {
    s.(pending := Settle(s.pending, v), delivered := s.delivered + Ids(Gather(s.pending, order, |order|, v)))
  }

  predicate Undelivered(p: Pending, id: Id) {
    id in p && !p[id].delivered
  }

  function Step(s: State, e: Event): State {
    match e
    case Register(id, name, event, timeout, now) =>
      var limit := if timeout.Some? then timeout.value else DEFAULT_TIMEOUT;
      var h := Hook(name, event, now, limit, "", "", None, false, false);
      State(s.pending[id := h], s.registered + [id], s.delivered,
            if Undelivered(s.pending, id) then s.lost + [id] else s.lost)
    case MarkRewake(id) => if id in s.pending then s.(pending := s.pending[id := s.pending[id].(rewake := true)]) else s
    case UpdateOutput(id, stdout, stderr) =>
      if id in s.pending then s.(pending := s.pending[id := s.pending[id].(stdout := stdout, stderr := stderr)]) else s
    case Complete(id, exitCode) =>
      if id in s.pending then s.(pending := s.pending[id := s.pending[id].(exitCode := Some(exitCode))]) else s
    case Collect(order, now) => VisitAll(s, order, Turn(now))
    case Cleanup => s.(pending := map id | id in s.pending && !s.pending[id].delivered :: s.pending[id])
    case Finalize(order) => VisitAll(s, order, Last)
  }

  function Run(s: State, events: seq<Event>): State
    decreases |events|
  {
    if events == [] then s else Run(Step(s, events[0]), events[1..])
  }

  ghost predicate Visits(p: Pending, order: seq<Id>) {
    Distinct(order) && forall id :: id in order <==> id in p
  }

  /** Collections visit the whole table, each entry once. */
  ghost predicate WholeVisits(s: State, events: seq<Event>)
    decreases |events|
  {
    events == []
    || ((events[0].Collect? || events[0].Finalize? ==> Visits(s.pending, events[0].order))
        && WholeVisits(Step(s, events[0]), events[1..]))
  }

  // ---------------------------------------------------------------- the ledger

  function One(b: bool): nat {
    if b then 1 else 0
  }

  /** Each registration of an id is delivered, still to be delivered, or was overwritten before that. */
  ghost predicate Balanced(s: State, id: Id) {
    Count(s.registered, id) == Count(s.delivered, id) + One(Undelivered(s.pending, id)) + Count(s.lost, id)
  }

  lemma IdsAppend(rs: seq<Response>, r: Response, id: Id)
    ensures Count(Ids(rs + [r]), id) == Count(Ids(rs), id) + One(r.id == id)
  {
    assert Ids(rs + [r]) == Ids(rs) + [r.id];
  }

  lemma {:induction false} GatherCounts(p: Pending, order: seq<Id>, n: nat, v: Visit, id: Id)
    requires n <= |order| && Distinct(order)
    ensures Count(Ids(Gather(p, order, n, v)), id) == One(id in order[..n] && id in p && Ready(p[id], v))
  {
    if n > 0 {
      GatherCounts(p, order, n - 1, v, id);
      var last := order[n - 1];
      assert order[..n] == order[..n - 1] + [last];
      if last in p && Ready(p[last], v) {
        IdsAppend(Gather(p, order, n - 1, v), ResponseOf(last, p[last], v), id);
      } else {
        assert Gather(p, order, n, v) == Gather(p, order, n - 1, v);
      }
    }
  }

  lemma VisitBalances(s: State, order: seq<Id>, v: Visit, id: Id)
    requires Balanced(s, id) && Visits(s.pending, order)
    ensures Balanced(VisitAll(s, order, v), id)
  {
    GatherCounts(s.pending, order, |order|, v, id);
    assert order[..|order|] == order;
    CountConcat(s.delivered, Ids(Gather(s.pending, order, |order|, v)), id);
  }

  lemma RegisterBalances(s: State, e: Event, id: Id)
    requires Balanced(s, id) && e.Register?
    ensures Balanced(Step(s, e), id)
  {
  }

  /** Whatever changes an entry, or drops a delivered one, delivers nothing and loses nothing. */
  lemma UpdateBalances(s: State, e: Event, id: Id)
    requires Balanced(s, id) && (e.MarkRewake? || e.UpdateOutput? || e.Complete? || e.Cleanup?)
    ensures Balanced(Step(s, e), id)
  {
    assert Undelivered(Step(s, e).pending, id) <==> Undelivered(s.pending, id);
  }

  lemma StepBalances(s: State, e: Event, id: Id)
    requires Balanced(s, id) && (e.Collect? || e.Finalize? ==> Visits(s.pending, e.order))
    ensures Balanced(Step(s, e), id)
  {
    match e
    case Register(_, _, _, _, _) => RegisterBalances(s, e, id);
    case Collect(order, now) => VisitBalances(s, order, Turn(now), id);
    case Finalize(order) => VisitBalances(s, order, Last, id);
    case _ => UpdateBalances(s, e, id);
  }

  lemma {:induction false} RunBalances(s: State, events: seq<Event>, id: Id)
    requires Balanced(s, id) && WholeVisits(s, events)
    ensures Balanced(Run(s, events), id)
    decreases |events|
  {
    if events != [] {
      StepBalances(s, events[0], id);
      RunBalances(Step(s, events[0]), events[1..], id);
    }
  }

  // ---------------------------------------------------------------- nothing lost, nothing left

  /** The id is never registered while its last registration is undelivered. */
  ghost predicate NeverOverwritten(s: State, events: seq<Event>, id: Id)
    decreases |events|
  {
    events == []
    || ((events[0].Register? && events[0].id == id ==> !Undelivered(s.pending, id))
        && NeverOverwritten(Step(s, events[0]), events[1..], id))
  }

  lemma {:induction false} LedgerGrows(s: State, events: seq<Event>, id: Id)
    ensures Count(Run(s, events).lost, id) >= Count(s.lost, id)
    ensures Count(Run(s, events).lost, id) == Count(s.lost, id) <==> NeverOverwritten(s, events, id)
    decreases |events|
  {
    if events != [] {
      LedgerGrows(Step(s, events[0]), events[1..], id);
    }
  }

  lemma {:induction false} RunAppend(s: State, events: seq<Event>, e: Event)
    ensures Run(s, events + [e]) == Step(Run(s, events), e)
    decreases |events|
  {
    if events == [] {
      assert (events + [e])[1..] == [];
    } else {
      assert (events + [e])[1..] == events[1..] + [e];
      RunAppend(Step(s, events[0]), events[1..], e);
    }
  }

  /** After a run that ends in finalize nothing is left to deliver, and an id was delivered as often as it
      was registered exactly when it was never registered again before its delivery. */
  lemma EveryHookDeliveredOnceIff(events: seq<Event>, order: seq<Id>, id: Id)
    requires WholeVisits(EMPTY, events + [Finalize(order)])
    ensures var s := Run(EMPTY, events + [Finalize(order)]);
            && !Undelivered(s.pending, id)
            && Count(s.delivered, id) <= Count(s.registered, id)
            && (Count(s.delivered, id) == Count(s.registered, id) <==>
                  NeverOverwritten(EMPTY, events + [Finalize(order)], id))
  {
    var all := events + [Finalize(order)];
    RunBalances(EMPTY, all, id);
    LedgerGrows(EMPTY, all, id);
    RunAppend(EMPTY, events, Finalize(order));
  }

  /** A hook registered twice and then finalized is delivered less often than it was registered. */
  lemma RegisteredTwiceLosesOne() returns (events: seq<Event>)
    ensures WholeVisits(EMPTY, events + [Finalize([0])])
    ensures var s := Run(EMPTY, events + [Finalize([0])]);
            Count(s.delivered, 0) < Count(s.registered, 0)
  {
    var r := Register(0, "n", "e", None, 0);
    var last := Finalize([0]);
    events := [r, r];
    var once := Step(EMPTY, r);
    assert events + [last] == [r, r, last];
    assert [r, r, last][1..] == [r, last] && [r, last][1..] == [last] && [last][1..] == [];
    assert Undelivered(once.pending, 0) && !NeverOverwritten(once, [r, last], 0);
    assert WholeVisits(Step(once, r), [last]) && WholeVisits(once, [r, last]);
    EveryHookDeliveredOnceIff(events, [0], 0);
  }

  // ---------------------------------------------------------------- what a visit delivers

  lemma {:induction false} GatherMeaning(p: Pending, order: seq<Id>, n: nat, v: Visit)
    requires n <= |order|
    ensures forall r :: r in Gather(p, order, n, v) <==>
              r.id in order[..n] && r.id in p && Ready(p[r.id], v) && r == ResponseOf(r.id, p[r.id], v)
  {
    if n > 0 {
      GatherMeaning(p, order, n - 1, v);
      assert order[..n] == order[..n - 1] + [order[n - 1]];
    }
  }

  /** A second visit at the same moment has nothing to deliver. */
  lemma {:induction false} NothingTwice(p: Pending, order: seq<Id>, n: nat, v: Visit)
    requires n <= |order|
    ensures Gather(Settle(p, v), order, n, v) == []
  {
    if n > 0 {
      NothingTwice(p, order, n - 1, v);
    }
  }

  /** `q` is `p` with the ready entries among the first `n` of the order marked. */
  ghost predicate MarkedTo(p: Pending, q: Pending, order: seq<Id>, n: nat, v: Visit)
    requires n <= |order|
  {
    && q.Keys == p.Keys
    && (forall id :: id in p && id in order[..n] ==> q[id] == Marked(p[id], v))
    && (forall id :: id in p && id !in order[..n] ==> q[id] == p[id])
  }

  function Marked(h: Hook, v: Visit): Hook {
    if Ready(h, v) then h.(delivered := true) else h
  }

  /** What visiting entry `id` does to the table. */
  function MarkOne(q: Pending, id: Id, v: Visit): Pending
    requires id in q
  {
    if Ready(q[id], v) then q[id := q[id].(delivered := true)] else q
  }

  lemma MarkNext(p: Pending, q: Pending, order: seq<Id>, n: nat, v: Visit)
    requires n < |order| && Distinct(order) && order[n] in p && MarkedTo(p, q, order, n, v)
    ensures q[order[n]] == p[order[n]] && MarkedTo(p, MarkOne(q, order[n], v), order, n + 1, v)
  {
    assert order[..n + 1] == order[..n] + [order[n]];
  }

  lemma AllMarked(p: Pending, q: Pending, order: seq<Id>, v: Visit)
    requires Visits(p, order) && MarkedTo(p, q, order, |order|, v)
    ensures q == Settle(p, v)
  {
    assert order[..|order|] == order;
  }

  method VisitOne(q: Pending, id: Id, v: Visit) returns (marked: Pending, answer: seq<Response>)
    requires id in q
    ensures marked == MarkOne(q, id, v)
    ensures answer == if Ready(q[id], v) then [ResponseOf(id, q[id], v)] else []
  {
    var hook := q[id];
    if Ready(hook, v) {
      return q[id := hook.(delivered := true)], [ResponseOf(id, hook, v)];
    }
    return q, [];
  }

  /** The loop shared by the turn's collection and the final one: every ready entry is marked and
      answered once. */
  method VisitTable(p: Pending, order: seq<Id>, v: Visit) returns (q: Pending, responses: seq<Response>)
    requires Visits(p, order)
    ensures q == Settle(p, v)
    ensures responses == Gather(p, order, |order|, v)
  {
    q, responses := p, [];
    for i := 0 to |order|
      invariant MarkedTo(p, q, order, i, v)
      invariant responses == Gather(p, order, i, v)
    {
      assert order[i] in p;
      MarkNext(p, q, order, i, v);
      var answer;
      q, answer := VisitOne(q, order[i], v);
      responses := responses + answer;
    }
    AllMarked(p, q, order, v);
  }

  // ---------------------------------------------------------------- what a visit promises

  predicate Overdue(h: Hook, now: int) {
    now - h.startedAt > h.timeout
  }

  /** The answer passes on what the entry holds; without an exit code it says -1. */
  ghost predicate Reports(r: Response, h: Hook) {
    && r.name == h.name && r.event == h.event && r.stdout == h.stdout && r.stderr == h.stderr
    && (r.rewake <==> h.rewake)
    && (h.exitCode.Some? ==> r.exitCode == h.exitCode.value) && (h.exitCode.None? ==> r.exitCode == -1)
  }

  ghost predicate Has(responses: seq<Response>, id: Id) {
    exists i :: 0 <= i < |responses| && responses[i].id == id
  }

  ghost predicate OneEach(responses: seq<Response>) {
    forall i, j :: 0 <= i < j < |responses| ==> responses[i].id != responses[j].id
  }

  /** A turn's collection answers exactly the undelivered hooks that have completed or are overdue, each once. */
  ghost predicate AnsweredAt(p: Pending, responses: seq<Response>, now: int) {
    && OneEach(responses)
    && (forall id :: Has(responses, id) <==>
          id in p && !p[id].delivered && (p[id].exitCode.Some? || Overdue(p[id], now)))
    && (forall r :: r in responses ==> r.id in p && Reports(r, p[r.id]) && (r.timedOut <==> Overdue(p[r.id], now)))
  }

  /** The last visit answers every undelivered hook, as timed out exactly when it has no exit code. */
  ghost predicate AnsweredLast(p: Pending, responses: seq<Response>) {
    && OneEach(responses)
    && (forall id :: Has(responses, id) <==> id in p && !p[id].delivered)
    && (forall r :: r in responses ==> r.id in p && Reports(r, p[r.id]) && (r.timedOut <==> p[r.id].exitCode.None?))
  }

  /** The answered entries are delivered, and the table is as before otherwise. */
  ghost function MarkedDelivered(p: Pending, responses: seq<Response>): Pending {
    map id | id in p :: p[id].(delivered := p[id].delivered || Has(responses, id))
  }

  lemma {:induction false} GatherOnce(p: Pending, order: seq<Id>, n: nat, v: Visit)
    requires n <= |order| && Distinct(order)
    ensures OneEach(Gather(p, order, n, v))
  {
    if n > 0 {
      GatherOnce(p, order, n - 1, v);
      GatherMeaning(p, order, n - 1, v);
      var before := Gather(p, order, n - 1, v);
      forall i | 0 <= i < |before|
        ensures before[i].id != order[n - 1]
      {
        assert before[i] in before && before[i].id in order[..n - 1];
      }
    }
  }

  lemma VisitHas(p: Pending, order: seq<Id>, v: Visit, id: Id)
    requires Visits(p, order)
    ensures Has(Gather(p, order, |order|, v), id) <==> id in p && Ready(p[id], v)
  {
    var rs := Gather(p, order, |order|, v);
    GatherMeaning(p, order, |order|, v);
    assert order[..|order|] == order;
    if i :| 0 <= i < |rs| && rs[i].id == id {
      assert rs[i] in rs;
    }
    if id in p && Ready(p[id], v) {
      var r := ResponseOf(id, p[id], v);
      assert r in rs;
    }
  }

  lemma VisitReports(p: Pending, order: seq<Id>, v: Visit, r: Response)
    requires Visits(p, order) && r in Gather(p, order, |order|, v)
    ensures r.id in p && Reports(r, p[r.id]) && (r.timedOut <==> TimedOut(p[r.id], v))
  {
    GatherMeaning(p, order, |order|, v);
  }

  lemma CollectAnswers(p: Pending, order: seq<Id>, now: int)
    requires Visits(p, order)
    ensures AnsweredAt(p, Gather(p, order, |order|, Turn(now)), now)
  {
    var rs := Gather(p, order, |order|, Turn(now));
    GatherOnce(p, order, |order|, Turn(now));
    forall id
      ensures Has(rs, id) <==> id in p && !p[id].delivered && (p[id].exitCode.Some? || Overdue(p[id], now))
    {
      VisitHas(p, order, Turn(now), id);
    }
    forall r | r in rs
      ensures r.id in p && Reports(r, p[r.id]) && (r.timedOut <==> Overdue(p[r.id], now))
    {
      VisitReports(p, order, Turn(now), r);
    }
  }

  lemma LastAnswers(p: Pending, order: seq<Id>)
    requires Visits(p, order)
    ensures AnsweredLast(p, Gather(p, order, |order|, Last))
  {
    var rs := Gather(p, order, |order|, Last);
    GatherOnce(p, order, |order|, Last);
    forall id
      ensures Has(rs, id) <==> id in p && !p[id].delivered
    {
      VisitHas(p, order, Last, id);
    }
    forall r | r in rs
      ensures r.id in p && Reports(r, p[r.id]) && (r.timedOut <==> p[r.id].exitCode.None?)
    {
      VisitReports(p, order, Last, r);
    }
  }

  lemma SettleMarks(p: Pending, order: seq<Id>, v: Visit)
    requires Visits(p, order)
    ensures Settle(p, v) == MarkedDelivered(p, Gather(p, order, |order|, v))
  {
    forall id | id in p
      ensures Settle(p, v)[id] == MarkedDelivered(p, Gather(p, order, |order|, v))[id]
    {
      VisitHas(p, order, v, id);
    }
  }

  // ---------------------------------------------------------------- from registration to answer

  /** What happened to an entry since it was registered: its last output, its last exit code, a rewake. */
  ghost function OutputAfter(events: seq<Event>, id: Id): (string, string) {
    if events == [] then ("", "")
    else
      var e := events[|events| - 1];
      if e.UpdateOutput? && e.id == id then (e.stdout, e.stderr) else OutputAfter(events[..|events| - 1], id)
  }

  ghost function CodeAfter(events: seq<Event>, id: Id): Option<int> {
    if events == [] then None
    else
      var e := events[|events| - 1];
      if e.Complete? && e.id == id then Some(e.exitCode) else CodeAfter(events[..|events| - 1], id)
  }

  /** The event neither registers the id again nor visits the table. */
  predicate LeavesPending(e: Event, id: Id) {
    !(e.Register? && e.id == id) && !e.Collect? && !e.Finalize?
  }

  /** The entry is as registered, with the outputs, code and rewake that came since. */
  ghost predicate IsEntry(h: Hook, first: Event, since: seq<Event>)
    requires first.Register?
  {
    && h.name == first.name && h.event == first.event && h.startedAt == first.now && !h.delivered
    && h.timeout == (if first.timeout.Some? then first.timeout.value else 15_000)
    && (h.stdout, h.stderr) == OutputAfter(since, first.id) && h.exitCode == CodeAfter(since, first.id)
    && (h.rewake <==> MarkRewake(first.id) in since)
  }

  lemma SinceNext(since: seq<Event>, e: Event, id: Id)
    ensures OutputAfter(since + [e], id) ==
            if e.UpdateOutput? && e.id == id then (e.stdout, e.stderr) else OutputAfter(since, id)
    ensures CodeAfter(since + [e], id) == if e.Complete? && e.id == id then Some(e.exitCode) else CodeAfter(since, id)
    ensures MarkRewake(id) in since + [e] <==> MarkRewake(id) in since || e == MarkRewake(id)
  {
    assert (since + [e])[..|since|] == since;
  }

  lemma EntryStays(s: State, e: Event, id: Id)
    requires id in s.pending && !s.pending[id].delivered && LeavesPending(e, id)
    ensures var h := s.pending[id];
            && id in Step(s, e).pending
            && Step(s, e).pending[id] ==
               if e.UpdateOutput? && e.id == id then h.(stdout := e.stdout, stderr := e.stderr)
               else if e.Complete? && e.id == id then h.(exitCode := Some(e.exitCode))
               else if e == MarkRewake(id) then h.(rewake := true)
               else h
  {
  }

  lemma EntryNext(s: State, first: Event, since: seq<Event>, e: Event)
    requires first.Register? && LeavesPending(e, first.id)
    requires first.id in s.pending && IsEntry(s.pending[first.id], first, since)
    ensures var p := Step(s, e).pending;
            first.id in p && IsEntry(p[first.id], first, since + [e])
  {
    SinceNext(since, e, first.id);
    EntryStays(s, e, first.id);
  }

  lemma {:induction false} EntryFollows(s: State, first: Event, since: seq<Event>, n: nat)
    requires first.Register? && n <= |since| && forall i :: 0 <= i < |since| ==> LeavesPending(since[i], first.id)
    ensures var p := Run(Step(s, first), since[..n]).pending;
            first.id in p && IsEntry(p[first.id], first, since[..n])
  {
    var start := Step(s, first);
    if n == 0 {
      assert since[..0] == [];
    } else {
      var before, e := since[..n - 1], since[n - 1];
      EntryFollows(s, first, since, n - 1);
      EntryNext(Run(start, before), first, before, e);
      RunAppend(start, before, e);
      assert since[..n] == before + [e];
    }
  }

  /**
    What a hook's answer says, over every run: if it is visited at `now` after any events that neither register
    it again nor visit the table, it is answered exactly when a completion came since or it is overdue, and the
    answer carries the name and event it was registered with, the last output and exit code since, and whether
    it was marked to wake the agent.
  */
  lemma AnswerTellsTheRun(s: State, first: Event, since: seq<Event>, order: seq<Id>, now: int)
    requires first.Register? && forall i :: 0 <= i < |since| ==> LeavesPending(since[i], first.id)
    requires Visits(Run(Step(s, first), since).pending, order)
    ensures var p := Run(Step(s, first), since).pending;
            var rs := Gather(p, order, |order|, Turn(now));
            var code, limit := CodeAfter(since, first.id), if first.timeout.Some? then first.timeout.value else 15_000;
            && (Has(rs, first.id) <==> code.Some? || now - first.now > limit)
            && forall r :: r in rs && r.id == first.id ==>
                 && r.name == first.name && r.event == first.event
                 && (r.stdout, r.stderr) == OutputAfter(since, first.id)
                 && r.exitCode == (if code.Some? then code.value else -1)
                 && (r.timedOut <==> now - first.now > limit) && (r.rewake <==> MarkRewake(first.id) in since)
  {
    EntryFollows(s, first, since, |since|);
    assert since[..|since|] == since;
    CollectAnswers(Run(Step(s, first), since).pending, order, now);
  }

  class AsyncHookRegistry {
    var pending: Pending
    ghost var registered: seq<Id>
    ghost var delivered: seq<Id>
    ghost var lost: seq<Id>

    constructor ()
      ensures Value() == EMPTY
    {
      pending, registered, delivered, lost := map[], [], [], [];
    }

    ghost function Value(): State
      reads this
    {
      State(pending, registered, delivered, lost)
    }

    method RegisterHook(id: Id, name: string, event: string, timeout: Option<nat>, now: int)
      modifies this
      ensures Value() == Step(old(Value()), Register(id, name, event, timeout, now))
    {
      if Undelivered(pending, id) {
        lost := lost + [id];
      }
      registered := registered + [id];
      pending := pending[id := Hook(name, event, now, if timeout.Some? then timeout.value else DEFAULT_TIMEOUT,
                                    "", "", None, false, false)];
    }

    method MarkRewakeOn(id: Id)
      modifies this
      ensures Value() == Step(old(Value()), MarkRewake(id))
    {
      if id in pending {
        pending := pending[id := pending[id].(rewake := true)];
      }
    }

    method UpdateOutputOf(id: Id, stdout: string, stderr: string)
      modifies this
      ensures Value() == Step(old(Value()), UpdateOutput(id, stdout, stderr))
    {
      if id in pending {
        pending := pending[id := pending[id].(stdout := stdout, stderr := stderr)];
      }
    }

    method CompleteHook(id: Id, exitCode: int)
      modifies this
      ensures Value() == Step(old(Value()), Complete(id, exitCode))
    {
      if id in pending {
        pending := pending[id := pending[id].(exitCode := Some(exitCode))];
      }
    }

    method VisitHooks(order: seq<Id>, v: Visit) returns (responses: seq<Response>)
      requires Visits(pending, order)
      modifies this
      ensures Value() == VisitAll(old(Value()), order, v)
      ensures responses == Gather(old(pending), order, |order|, v)
      ensures forall r :: r in responses <==>
                r.id in old(pending) && Ready(old(pending)[r.id], v) && r == ResponseOf(r.id, old(pending)[r.id], v)
    {
      GatherMeaning(pending, order, |order|, v);
      assert order[..|order|] == order;
      pending, responses := VisitTable(pending, order, v);
      delivered := delivered + Ids(responses);
    }

    method CollectResponses(order: seq<Id>, now: int) returns (responses: seq<Response>)
      requires Visits(pending, order)
      modifies this
      ensures Value() == Step(old(Value()), Collect(order, now))
      ensures responses == Gather(old(pending), order, |order|, Turn(now))
      ensures AnsweredAt(old(pending), responses, now) && pending == MarkedDelivered(old(pending), responses)
    {
      CollectAnswers(pending, order, now);
      SettleMarks(pending, order, Turn(now));
      responses := VisitHooks(order, Turn(now));
    }

    method FinalizeAll(order: seq<Id>) returns (responses: seq<Response>)
      requires Visits(pending, order)
      modifies this
      ensures Value() == Step(old(Value()), Finalize(order))
      ensures forall id :: id in pending ==> pending[id].delivered
      ensures AnsweredLast(old(pending), responses) && pending == MarkedDelivered(old(pending), responses)
    {
      LastAnswers(pending, order);
      SettleMarks(pending, order, Last);
      responses := VisitHooks(order, Last);
    }

    method CleanupDelivered()
      modifies this
      ensures Value() == Step(old(Value()), Cleanup)
      ensures forall id :: id in pending <==> id in old(pending) && !old(pending)[id].delivered
      ensures forall id :: id in pending ==> pending[id] == old(pending)[id]
    {
      pending := map id | id in pending && !pending[id].delivered :: pending[id];
    }
  }

  // ---------------------------------------------------------------- events of the turn itself

  /** A queue of events, with everything pushed and everything drained so far. */
  class SyncHookEventBuffer<T> {
    var queue: seq<T>
    ghost var pushed: seq<T>
    ghost var drained: seq<T>

    constructor ()
      ensures Valid() && queue == [] && pushed == [] && drained == []
    {
      queue, pushed, drained := [], [], [];
    }

    /** What was drained, in order, followed by what is queued, is what was pushed. */
    ghost predicate Valid()
      reads this
    {
      drained + queue == pushed
    }

    method Push(e: T)
      requires Valid()
      modifies this
      ensures Valid() && pushed == old(pushed) + [e] && drained == old(drained)
    {
      queue := queue + [e];
      pushed := pushed + [e];
    }

    method Extend(es: seq<T>)
      requires Valid()
      modifies this
      ensures Valid() && pushed == old(pushed) + es && drained == old(drained)
    {
      for i := 0 to |es|
        invariant queue == old(queue) + es[..i]
        invariant pushed == old(pushed) && drained == old(drained)
      {
        queue := queue + [es[i]];
      }
      assert es[..|es|] == es;
      pushed := pushed + es;
    }

    method Drain() returns (out: seq<T>)
      requires Valid()
      modifies this
      ensures Valid() && queue == [] && pushed == old(pushed)
      ensures out == old(queue) && drained == old(drained) + out == pushed
    {
      out := queue;
      drained := drained + out;
      queue := [];
    }
  }

  datatype HookEvent =
    | AsyncResponse(systemMessage: Option<string>, additionalContext: Option<string>)
    | Sync(text: string)

  function ToHookEvent(r: Response): HookEvent {
    AsyncResponse(if r.stdout == "" then None else Some(r.stdout),
                  if r.stderr == "" then None else Some("[" + r.name + "] " + r.stderr))
  }

  function ToHookEvents(rs: seq<Response>): seq<HookEvent> {
    seq(|rs|, i requires 0 <= i < |rs| => ToHookEvent(rs[i]))
  }

  /** The response's output and, under the hook's name, its error output, each only when there is some. */
  ghost predicate Tells(e: HookEvent, r: Response) {
    && e.AsyncResponse?
    && (e.systemMessage.None? <==> r.stdout == "") && (e.additionalContext.None? <==> r.stderr == "")
    && (e.systemMessage.Some? ==> e.systemMessage.value == r.stdout)
    && (e.additionalContext.Some? ==> e.additionalContext.value == "[" + r.name + "] " + r.stderr)
  }

  /** Background results first, then the turn's own events, each handed over for good. */
  method DrainCombined(registry: AsyncHookRegistry, buffer: SyncHookEventBuffer<HookEvent>, order: seq<Id>, now: int)
    returns (out: seq<HookEvent>, ghost responses: seq<Response>)
    requires Visits(registry.pending, order) && buffer.Valid()
    modifies registry, buffer
    ensures out == ToHookEvents(Gather(old(registry.pending), order, |order|, Turn(now))) + old(buffer.queue)
    ensures AnsweredAt(old(registry.pending), responses, now)
    ensures |out| == |responses| + |old(buffer.queue)| && out[|responses|..] == old(buffer.queue)
    ensures forall i :: 0 <= i < |responses| ==> Tells(out[i], responses[i])
    ensures registry.Value() == Step(old(registry.Value()), Collect(order, now))
    ensures buffer.Valid() && buffer.queue == []
  {
    var collected := registry.CollectResponses(order, now);
    responses := collected;
    out := ToHookEvents(collected);
    var events := buffer.Drain();
    out := out + events;
  }
}
