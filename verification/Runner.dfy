/**
  The in-process agent runner: a bounded table of registered agents, each of which may be given one
  execution handle whose result is later taken by a waiter or a collector, or given up by a
  cancellation. Every operation is one step under the table's lock; any number of callers may
  interleave theirs in any order. Each registration is numbered, so that an id that is registered
  again counts as a new registration.
*/
module Runner {
  import opened Prelude

  type Handle = nat

  datatype Observer = Waiter | Collector

  /** Where an offered handle ended up. */
  datatype Place =
    | Aborted
    | Held(reg: nat)
    | Taken(reg: nat, observer: Observer)
    | Dropped(reg: nat)

  datatype Entry = Entry(reg: nat, started: bool, receiver: Option<Handle>)

  /** `next` numbers registrations; `places` records every handle offered so far. */
  datatype Table = Table(maxAgents: nat, agents: map<string, Entry>, next: nat, places: map<Handle, Place>)

  function New(maxAgents: int): Table {
    Table(Max(1, maxAgents), map[], 0, map[])
  }

  datatype Event =
    | Register(id: string)
    | Start(id: string, handle: Handle)
    | Wait(id: string)
    | Collect(id: string)
    | Cancel(id: string)
    | CancelAll

  function Release(t: Table, e: Entry, place: Place): map<Handle, Place> {
    if e.receiver.Some? then t.places[e.receiver.value := place] else t.places
  }

  /** The handles waiting in the table. */
  predicate Waiting(t: Table, h: Handle) {
    exists id :: id in t.agents && t.agents[id].receiver == Some(h)
  }

  function ReleaseAll(t: Table): map<Handle, Place> {
    map h | h in t.places ::
      if t.places[h].Held? && Waiting(t, h) then Dropped(t.places[h].reg) else t.places[h]
  }

  function Step(t: Table, e: Event): Table {
    match e
    case Register(id) =>
      if |t.agents| >= t.maxAgents || id in t.agents then t
      else t.(agents := t.agents[id := Entry(t.next, false, None)], next := t.next + 1)
    case Start(id, h) =>
      if id !in t.agents || t.agents[id].started then t.(places := t.places[h := Aborted])
      else
        t.(agents := t.agents[id := Entry(t.agents[id].reg, true, Some(h))],
           places := t.places[h := Held(t.agents[id].reg)])
    case Wait(id) =>
      if id !in t.agents || t.agents[id].receiver.None? then t
      else
        t.(agents := t.agents[id := t.agents[id].(receiver := None)],
           places := Release(t, t.agents[id], Taken(t.agents[id].reg, Waiter)))
    case Collect(id) =>
      if id !in t.agents then t
      else t.(agents := t.agents - {id}, places := Release(t, t.agents[id], Taken(t.agents[id].reg, Collector)))
    case Cancel(id) =>
      if id !in t.agents then t
      else t.(agents := t.agents - {id}, places := Release(t, t.agents[id], Dropped(t.agents[id].reg)))
    case CancelAll => t.(agents := map[], places := ReleaseAll(t))
  }

  function Run(t: Table, events: seq<Event>): Table
    decreases |events|
  {
    if events == [] then t else Run(Step(t, events[0]), events[1..])
  }

  /** A handle is owned by whoever offers it, so it is offered once. */
  ghost predicate FreshHandles(t: Table, events: seq<Event>)
    decreases |events|
  {
    events == []
    || ((events[0].Start? ==> events[0].handle !in t.places) && FreshHandles(Step(t, events[0]), events[1..]))
  }

  // ---------------------------------------------------------------- what every step keeps

  type Agents = map<string, Entry>
  type Places = map<Handle, Place>

  /** The registration a handle was attached to. */
  function RegOf(p: Place): Option<nat> {
    if p.Aborted? then None else Some(p.reg)
  }

  ghost predicate Bounded(t: Table) {
    t.maxAgents >= 1 && |t.agents| <= t.maxAgents
  }

  ghost predicate Numbered(agents: Agents, next: nat) {
    && (forall id :: id in agents ==> agents[id].reg < next)
    && (forall id, id' :: id in agents && id' in agents && agents[id].reg == agents[id'].reg ==> id == id')
  }

  ghost predicate PlacesNumbered(places: Places, next: nat) {
    forall h :: h in places && RegOf(places[h]).Some? ==> RegOf(places[h]).value < next
  }

  /** No registration was ever given two handles. */
  ghost predicate StartedOnce(places: Places) {
    forall h, h' :: h in places && h' in places && RegOf(places[h]).Some? && RegOf(places[h]) == RegOf(places[h']) ==>
      h == h'
  }

  ghost predicate HasHandle(places: Places, reg: nat) {
    exists h :: h in places && RegOf(places[h]) == Some(reg)
  }

  ghost predicate StartedIffHandled(agents: Agents, places: Places) {
    forall id :: id in agents ==> (agents[id].started <==> HasHandle(places, agents[id].reg))
  }

  /** Every receiver in the table is held for its entry. */
  ghost predicate WaitingIsHeld(agents: Agents, places: Places) {
    forall id :: id in agents ==> ReceiverHeld(agents[id], places)
  }

  ghost predicate ReceiverHeld(e: Entry, places: Places) {
    e.receiver.Some? ==> e.receiver.value in places && places[e.receiver.value] == Held(e.reg)
  }

  /** Every held handle is the receiver of some entry. */
  ghost predicate HeldIsWaiting(agents: Agents, places: Places) {
    forall h :: h in places && places[h].Held? ==> WaitsFor(agents, h, places[h].reg)
  }

  ghost predicate WaitsFor(agents: Agents, h: Handle, reg: nat) {
    exists id :: id in agents && agents[id].receiver == Some(h) && agents[id].reg == reg
  }

  ghost predicate Inv(t: Table) {
    && Bounded(t) && Numbered(t.agents, t.next) && PlacesNumbered(t.places, t.next) && StartedOnce(t.places)
    && StartedIffHandled(t.agents, t.places) && WaitingIsHeld(t.agents, t.places) && HeldIsWaiting(t.agents, t.places)
  }

  /** What became of a handle never changes once it is out of the table. */
  ghost predicate Settles(p: Places, q: Places) {
    p.Keys <= q.Keys && forall h :: h in p ==> q[h] == p[h] || (p[h].Held? && !q[h].Held? && RegOf(q[h]) == RegOf(p[h]))
  }

  ghost predicate Kept(t: Table, u: Table) {
    Inv(u) && Settles(t.places, u.places)
  }

  lemma NewInv(maxAgents: int)
    ensures Inv(New(maxAgents))
  {
  }

  lemma RegisterKeeps(t: Table, id: string)
    requires Inv(t)
    ensures Kept(t, Step(t, Register(id)))
  {
    if |t.agents| < t.maxAgents && id !in t.agents {
      var agents := t.agents[id := Entry(t.next, false, None)];
      forall h | h in t.places && t.places[h].Held?
        ensures WaitsFor(agents, h, t.places[h].reg)
      {
        var other :| other in t.agents && t.agents[other].receiver == Some(h) && t.agents[other].reg == t.places[h].reg;
        assert agents[other] == t.agents[other];
      }
      assert StartedIffHandled(agents, t.places);
    }
  }

  lemma AbortKeeps(t: Table, h: Handle)
    requires Inv(t) && h !in t.places
    ensures Kept(t, t.(places := t.places[h := Aborted]))
  {
    var places := t.places[h := Aborted];
    forall id | id in t.agents
      ensures t.agents[id].started <==> HasHandle(places, t.agents[id].reg)
    {
      if HasHandle(t.places, t.agents[id].reg) {
        var k :| k in t.places && RegOf(t.places[k]) == Some(t.agents[id].reg);
        assert k in places && places[k] == t.places[k];
      }
    }
  }

  lemma AttachKeeps(t: Table, id: string, h: Handle)
    requires Inv(t) && h !in t.places && id in t.agents && !t.agents[id].started
    ensures Kept(t, Step(t, Start(id, h)))
  {
    AttachHandled(t, id, h);
    AttachOnce(t, id, h);
    AttachHeld(t, id, h);
  }

  lemma AttachOnce(t: Table, id: string, h: Handle)
    requires Inv(t) && h !in t.places && id in t.agents && !t.agents[id].started
    ensures StartedOnce(t.places[h := Held(t.agents[id].reg)])
    ensures PlacesNumbered(t.places[h := Held(t.agents[id].reg)], t.next)
  {
    assert !HasHandle(t.places, t.agents[id].reg);
  }

  lemma AttachHandled(t: Table, id: string, h: Handle)
    requires Inv(t) && h !in t.places && id in t.agents && !t.agents[id].started
    ensures var reg := t.agents[id].reg;
            StartedIffHandled(t.agents[id := Entry(reg, true, Some(h))], t.places[h := Held(reg)])
  {
    var reg := t.agents[id].reg;
    var places := t.places[h := Held(reg)];
    assert h in places && RegOf(places[h]) == Some(reg);
    forall other | other in t.agents && other != id
      ensures HasHandle(places, t.agents[other].reg) <==> HasHandle(t.places, t.agents[other].reg)
    {
      if HasHandle(t.places, t.agents[other].reg) {
        var k :| k in t.places && RegOf(t.places[k]) == Some(t.agents[other].reg);
        assert k in places && places[k] == t.places[k];
      }
    }
  }

  lemma AttachHeld(t: Table, id: string, h: Handle)
    requires Inv(t) && h !in t.places && id in t.agents && !t.agents[id].started
    ensures var reg := t.agents[id].reg;
            && HeldIsWaiting(t.agents[id := Entry(reg, true, Some(h))], t.places[h := Held(reg)])
            && WaitingIsHeld(t.agents[id := Entry(reg, true, Some(h))], t.places[h := Held(reg)])
  {
    var reg := t.agents[id].reg;
    var agents := t.agents[id := Entry(reg, true, Some(h))];
    assert agents[id].receiver == Some(h) && agents[id].reg == reg;
    assert !HasHandle(t.places, reg);
    forall k | k in t.places && t.places[k].Held?
      ensures WaitsFor(agents, k, t.places[k].reg)
    {
      var other :| other in t.agents && t.agents[other].receiver == Some(k) && t.agents[other].reg == t.places[k].reg;
      assert RegOf(t.places[k]) != Some(reg);
      assert agents[other] == t.agents[other];
    }
  }

  lemma StartKeeps(t: Table, id: string, h: Handle)
    requires Inv(t) && h !in t.places
    ensures Kept(t, Step(t, Start(id, h)))
  {
    if id in t.agents && !t.agents[id].started {
      AttachKeeps(t, id, h);
    } else {
      AbortKeeps(t, h);
    }
  }

  /** The entry's receiver is taken away and its handle settled; the entry stays or goes. */
  ghost predicate Released(t: Table, id: string, stays: bool, place: Place, u: Table)
    requires id in t.agents
  {
    && u.maxAgents == t.maxAgents && u.next == t.next
    && u.agents == (if stays then t.agents[id := t.agents[id].(receiver := None)] else t.agents - {id})
    && u.places == Release(t, t.agents[id], place)
    && RegOf(place) == Some(t.agents[id].reg) && !place.Held?
  }

  lemma ReleaseKeepsRegs(t: Table, id: string, place: Place, reg: nat)
    requires Inv(t) && id in t.agents && RegOf(place) == Some(t.agents[id].reg) && !place.Held?
    ensures var places := Release(t, t.agents[id], place);
            && places.Keys == t.places.Keys
            && (forall h :: h in places ==> RegOf(places[h]) == RegOf(t.places[h]))
            && Settles(t.places, places)
            && (HasHandle(places, reg) <==> HasHandle(t.places, reg))
  {
    assert ReceiverHeld(t.agents[id], t.places);
    var places := Release(t, t.agents[id], place);
    assert places.Keys == t.places.Keys;
    if HasHandle(t.places, reg) {
      var h :| h in t.places && RegOf(t.places[h]) == Some(reg);
      assert h in places && RegOf(places[h]) == Some(reg);
    }
    if HasHandle(places, reg) {
      var h :| h in places && RegOf(places[h]) == Some(reg);
      assert h in t.places && RegOf(t.places[h]) == Some(reg);
    }
  }

  lemma ReleaseHeld(t: Table, id: string, stays: bool, place: Place, u: Table)
    requires Inv(t) && id in t.agents && Released(t, id, stays, place, u)
    ensures WaitingIsHeld(u.agents, u.places) && HeldIsWaiting(u.agents, u.places)
  {
    assert ReceiverHeld(t.agents[id], t.places);
    forall other | other in u.agents
      ensures ReceiverHeld(u.agents[other], u.places)
    {
      assert ReceiverHeld(t.agents[other], t.places);
    }
    forall h | h in u.places && u.places[h].Held?
      ensures WaitsFor(u.agents, h, u.places[h].reg)
    {
      assert t.places[h] == u.places[h];
      var other :| other in t.agents && t.agents[other].receiver == Some(h) && t.agents[other].reg == t.places[h].reg;
      assert other != id;
      assert u.agents[other] == t.agents[other];
    }
  }

  lemma ReleaseKeeps(t: Table, id: string, stays: bool, place: Place, u: Table)
    requires Inv(t) && id in t.agents && Released(t, id, stays, place, u)
    ensures Kept(t, u)
  {
    ReleaseHeld(t, id, stays, place, u);
    forall reg: nat
      ensures HasHandle(u.places, reg) <==> HasHandle(t.places, reg)
    {
      ReleaseKeepsRegs(t, id, place, reg);
    }
    ReleaseKeepsRegs(t, id, place, t.agents[id].reg);
    assert |u.agents| <= |t.agents|;
  }

  lemma WaitKeeps(t: Table, id: string)
    requires Inv(t)
    ensures Kept(t, Step(t, Wait(id)))
  {
    if id in t.agents && t.agents[id].receiver.Some? {
      ReleaseKeeps(t, id, true, Taken(t.agents[id].reg, Waiter), Step(t, Wait(id)));
    }
  }

  lemma CollectKeeps(t: Table, id: string)
    requires Inv(t)
    ensures Kept(t, Step(t, Collect(id)))
  {
    if id in t.agents {
      ReleaseKeeps(t, id, false, Taken(t.agents[id].reg, Collector), Step(t, Collect(id)));
    }
  }

  lemma CancelKeeps(t: Table, id: string)
    requires Inv(t)
    ensures Kept(t, Step(t, Cancel(id)))
  {
    if id in t.agents {
      ReleaseKeeps(t, id, false, Dropped(t.agents[id].reg), Step(t, Cancel(id)));
    }
  }

  lemma CancelAllKeeps(t: Table)
    requires Inv(t)
    ensures Kept(t, Step(t, CancelAll))
  {
    forall h | h in t.places && t.places[h].Held?
      ensures Waiting(t, h)
    {
      assert WaitsFor(t.agents, h, t.places[h].reg);
    }
  }

  lemma StepKeeps(t: Table, e: Event)
    requires Inv(t) && (e.Start? ==> e.handle !in t.places)
    ensures Kept(t, Step(t, e))
  {
    match e
    case Register(id) => RegisterKeeps(t, id);
    case Start(id, h) => StartKeeps(t, id, h);
    case Wait(id) => WaitKeeps(t, id);
    case Collect(id) => CollectKeeps(t, id);
    case Cancel(id) => CancelKeeps(t, id);
    case CancelAll => CancelAllKeeps(t);
  }

  // ---------------------------------------------------------------- whole runs

  lemma SettlesTransitively(p: Places, q: Places, r: Places)
    requires Settles(p, q) && Settles(q, r)
    ensures Settles(p, r)
  {
    forall h | h in p
      ensures h in r && (r[h] == p[h] || (p[h].Held? && !r[h].Held? && RegOf(r[h]) == RegOf(p[h])))
    {
      assert h in q.Keys && h in r.Keys;
    }
  }

  lemma {:induction false} RunKeeps(t: Table, events: seq<Event>)
    requires Inv(t) && FreshHandles(t, events)
    ensures Inv(Run(t, events)) && Settles(t.places, Run(t, events).places)
    decreases |events|
  {
    if events != [] {
      var u := Step(t, events[0]);
      StepKeeps(t, events[0]);
      RunKeeps(u, events[1..]);
      SettlesTransitively(t.places, u.places, Run(u, events[1..]).places);
    }
  }

  /** Over any interleaving the table never exceeds its bound, and no registration is started twice. */
  lemma RunnerStaysSound(maxAgents: int, events: seq<Event>)
    requires FreshHandles(New(maxAgents), events)
    ensures var t := Run(New(maxAgents), events);
            && |t.agents| <= Max(1, maxAgents)
            && StartedOnce(t.places)
  {
    NewInv(maxAgents);
    RunKeeps(New(maxAgents), events);
    RunKeepsBound(New(maxAgents), events);
  }

  lemma {:induction false} RunKeepsBound(t: Table, events: seq<Event>)
    ensures Run(t, events).maxAgents == t.maxAgents
    decreases |events|
  {
    if events != [] {
      RunKeepsBound(Step(t, events[0]), events[1..]);
    }
  }

  /** The registration an offer is attached to: that of its agent, if there is one and it was not started. */
  function OfferedTo(t: Table, id: string): Option<nat> {
    if id in t.agents && !t.agents[id].started then Some(t.agents[id].reg) else None
  }

  /** Every offered handle is accounted for: to the end of the run it is attached to the registration its agent
      had when it was offered, and aborted if there was none or it had already been started. */
  lemma {:induction false} OfferedIsPlaced(t: Table, events: seq<Event>, i: nat)
    requires Inv(t) && FreshHandles(t, events) && i < |events| && events[i].Start?
    ensures var places := Run(t, events).places;
            && events[i].handle in places
            && RegOf(places[events[i].handle]) == OfferedTo(Run(t, events[..i]), events[i].id)
    decreases |events|
  {
    var u := Step(t, events[0]);
    StepKeeps(t, events[0]);
    if i == 0 {
      RunKeeps(u, events[1..]);
      assert events[0].handle in u.places.Keys;
    } else {
      OfferedIsPlaced(u, events[1..], i - 1);
      assert events[..i][1..] == events[1..][..i - 1];
    }
  }

  /** A handle that was aborted, dropped, or taken by one observer stays so whatever happens later: no
      second observer ever gets its result. */
  lemma SettledForGood(t: Table, events: seq<Event>, h: Handle)
    requires Inv(t) && FreshHandles(t, events) && h in t.places && !t.places[h].Held?
    ensures h in Run(t, events).places && Run(t, events).places[h] == t.places[h]
  {
    RunKeeps(t, events);
    assert h in Run(t, events).places.Keys;
  }

  /** A registration keeps the one handle it was started with. */
  lemma AttachedForGood(t: Table, events: seq<Event>, h: Handle)
    requires Inv(t) && FreshHandles(t, events) && h in t.places && RegOf(t.places[h]).Some?
    ensures h in Run(t, events).places && RegOf(Run(t, events).places[h]) == RegOf(t.places[h])
    ensures forall k :: k in Run(t, events).places && RegOf(Run(t, events).places[k]) == RegOf(t.places[h]) ==> k == h
  {
    RunKeeps(t, events);
    assert h in Run(t, events).places.Keys;
  }

  // ---------------------------------------------------------------- one agent at a time

  /** Every entry but that of `id` is as before. */
  ghost predicate OthersKept(before: Agents, after: Agents, id: string) {
    forall other :: other != id ==>
      && (other in after <==> other in before)
      && (other in after ==> after[other] == before[other])
  }

  /** Every handle but `h` is where it was. */
  ghost predicate PlacesKept(before: Places, after: Places, h: Option<Handle>) {
    && (forall k :: k in before ==> k in after)
    && (forall k :: k in after && h != Some(k) ==> k in before && after[k] == before[k])
  }

  /** The step is about the agent: it waits for it, collects it, cancels it, or cancels all. */
  predicate Touches(e: Event, id: string) {
    e == Wait(id) || e == Collect(id) || e == Cancel(id) || e == CancelAll
  }

  /** What becomes of the result of registration `reg`. */
  function Fate(e: Event, reg: nat): Place {
    if e.Wait? then Taken(reg, Waiter) else if e.Collect? then Taken(reg, Collector) else Dropped(reg)
  }

  /** The agent has been started with the handle, whose result nobody has asked for. */
  ghost predicate Holds(t: Table, id: string, h: Handle, reg: nat) {
    && id in t.agents && t.agents[id] == Entry(reg, true, Some(h))
    && h in t.places && t.places[h] == Held(reg)
  }

  lemma UntouchedHolds(t: Table, e: Event, id: string, h: Handle, reg: nat)
    requires Inv(t) && Holds(t, id, h, reg) && !Touches(e, id) && (e.Start? ==> e.handle !in t.places)
    ensures Holds(Step(t, e), id, h, reg)
  {
    assert ReceiverHeld(t.agents[id], t.places);
    if (e.Wait? || e.Collect? || e.Cancel?) && e.id in t.agents {
      assert ReceiverHeld(t.agents[e.id], t.places);
    }
  }

  lemma TouchedSettles(t: Table, e: Event, id: string, h: Handle, reg: nat)
    requires Inv(t) && Holds(t, id, h, reg) && Touches(e, id)
    ensures h in Step(t, e).places && Step(t, e).places[h] == Fate(e, reg)
  {
    assert t.agents[id].receiver == Some(h);
  }

  /** A result stays with its agent exactly as long as no step is about that agent: whatever the others do. */
  lemma {:induction false} HeldIffUntouched(t: Table, events: seq<Event>, id: string, h: Handle, reg: nat)
    requires Inv(t) && FreshHandles(t, events) && Holds(t, id, h, reg)
    ensures h in Run(t, events).places
    ensures Run(t, events).places[h].Held? <==> forall i :: 0 <= i < |events| ==> !Touches(events[i], id)
    ensures (forall i :: 0 <= i < |events| ==> !Touches(events[i], id)) ==> Holds(Run(t, events), id, h, reg)
    decreases |events|
  {
    if events != [] {
      var u := Step(t, events[0]);
      StepKeeps(t, events[0]);
      if Touches(events[0], id) {
        TouchedSettles(t, events[0], id, h, reg);
        SettledForGood(u, events[1..], h);
      } else {
        UntouchedHolds(t, events[0], id, h, reg);
        HeldIffUntouched(u, events[1..], id, h, reg);
        assert forall i :: 0 < i < |events| ==> events[i] == events[1..][i - 1];
      }
    }
  }

  /** And the first step that is about the agent decides for good who gets the result. */
  lemma {:induction false} FirstTouchDecides(t: Table, events: seq<Event>, id: string, h: Handle, reg: nat, n: nat)
    requires Inv(t) && FreshHandles(t, events) && Holds(t, id, h, reg)
    requires n < |events| && Touches(events[n], id) && forall i :: 0 <= i < n ==> !Touches(events[i], id)
    ensures h in Run(t, events).places && Run(t, events).places[h] == Fate(events[n], reg)
    decreases |events|
  {
    var u := Step(t, events[0]);
    StepKeeps(t, events[0]);
    if n == 0 {
      TouchedSettles(t, events[0], id, h, reg);
      SettledForGood(u, events[1..], h);
    } else {
      UntouchedHolds(t, events[0], id, h, reg);
      FirstTouchDecides(u, events[1..], id, h, reg, n - 1);
    }
  }

  // ---------------------------------------------------------------- the program

  /** The runner's table; the numbering and the places of handles are its bookkeeping. */
  class InProcessAgentRunner {
    const maxAgents: nat
    var agents: Agents
    var next: nat
    ghost var places: Places

    constructor (maxAgents: int)
      ensures Value() == New(maxAgents)
    {
      this.maxAgents := Max(1, maxAgents);
      agents, next, places := map[], 0, map[];
    }

    ghost function Value(): Table
      reads this
    {
      Table(maxAgents, agents, next, places)
    }

    method RegisterAgent(id: string) returns (success: bool)
      modifies this
      ensures Value() == Step(old(Value()), Register(id))
      ensures success <==> |old(agents)| < maxAgents && id !in old(agents)
      ensures agents == if success then old(agents)[id := Entry(old(next), false, None)] else old(agents)
      ensures next == old(next) + (if success then 1 else 0) && places == old(places)
    {
      if |agents| >= maxAgents || id in agents {
        return false;
      }
      agents := agents[id := Entry(next, false, None)];
      next := next + 1;
      return true;
    }

    /** A handle that cannot be attached is aborted. */
    method StartAgent(id: string, handle: Handle) returns (started: bool)
      modifies this
      ensures Value() == Step(old(Value()), Start(id, handle))
      ensures started <==> id in old(agents) && !old(agents)[id].started
      ensures handle in places && (places[handle].Aborted? <==> !started)
      ensures OthersKept(old(agents), agents, id) && PlacesKept(old(places), places, Some(handle))
      ensures agents.Keys == old(agents).Keys
      ensures id in agents ==> agents[id].reg == old(agents)[id].reg && agents[id].started
      ensures id in agents ==> agents[id].receiver == if started then Some(handle) else old(agents)[id].receiver
    {
      if id !in agents || agents[id].started {
        places := places[handle := Aborted];
        return false;
      }
      agents := agents[id := Entry(agents[id].reg, true, Some(handle))];
      places := places[handle := Held(agents[id].reg)];
      return true;
    }

    /** The handle whose result the caller gets, if any; the entry stays, but nobody can wait again. */
    method WaitForCompletion(id: string) returns (observed: Option<Handle>)
      modifies this
      ensures Value() == Step(old(Value()), Wait(id))
      ensures observed == if id in old(agents) then old(agents)[id].receiver else None
      ensures id in agents ==> agents[id] == old(agents)[id].(receiver := None)
      ensures agents.Keys == old(agents).Keys && OthersKept(old(agents), agents, id)
      ensures PlacesKept(old(places), places, observed)
      ensures observed.Some? ==> places[observed.value] == Taken(old(agents)[id].reg, Waiter)
    {
      if id !in agents {
        return None;
      }
      observed := agents[id].receiver;
      places := Release(Value(), agents[id], Taken(agents[id].reg, Waiter));
      if observed.Some? {
        agents := agents[id := agents[id].(receiver := None)];
      }
    }

    /** Removes the entry; an entry without a receiver is reported as having produced no result. */
    method CollectResult(id: string) returns (found: bool, observed: Option<Handle>)
      modifies this
      ensures Value() == Step(old(Value()), Collect(id))
      ensures found <==> id in old(agents)
      ensures observed == if id in old(agents) then old(agents)[id].receiver else None
      ensures agents == old(agents) - {id} && PlacesKept(old(places), places, observed)
      ensures observed.Some? ==> places[observed.value] == Taken(old(agents)[id].reg, Collector)
    {
      if id !in agents {
        return false, None;
      }
      var entry := agents[id];
      places := Release(Value(), entry, Taken(entry.reg, Collector));
      agents := agents - {id};
      return true, entry.receiver;
    }

    method CancelAgent(id: string) returns (found: bool)
      modifies this
      ensures Value() == Step(old(Value()), Cancel(id))
      ensures found <==> id in old(agents)
      ensures agents == old(agents) - {id}
      ensures PlacesKept(old(places), places, if found then old(agents)[id].receiver else None)
      ensures found && old(agents)[id].receiver.Some? ==>
                places[old(agents)[id].receiver.value] == Dropped(old(agents)[id].reg)
    {
      if id !in agents {
        return false;
      }
      places := Release(Value(), agents[id], Dropped(agents[id].reg));
      agents := agents - {id};
      return true;
    }

    method CancelAllAgents()
      modifies this
      ensures Value() == Step(old(Value()), CancelAll)
      ensures agents == map[]
    {
      places := ReleaseAll(Value());
      agents := map[];
    }
  }
}
