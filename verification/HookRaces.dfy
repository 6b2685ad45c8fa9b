/**
  The hook registry with any number of callers at once. The hook list and the set of seen keys have a lock
  each. A checked registration takes the keys' lock, enters its key and only then takes the list's lock to
  add the hook; a removal takes the list's lock, filters the list and only then takes the keys' lock; a
  reload reads the list, swaps it and swaps the keys, holding no lock in between. Everything else is one step.
  A step whose lock is held by somebody else does not happen.
*/
module HookRaces {
  import opened Prelude
  import opened D = Dedup
  import opened Hooks
  import opened HookRegistry

  /** A reload that has computed the new hooks, or has swapped them in and still holds the new keys. */
  datatype Reloading =
    | Ready(sources: seq<Source>, hooks: seq<Hook>)
    | HalfDone(sources: seq<Source>, keys: set<string>)

  /** `pushing` is the checked registration that holds the keys' lock, `rekeying` the removal that holds the
      list's; `log` lists the operations that are complete. */
  datatype Shared = Shared(
    registry: Registry,
    pushing: Option<Hook>,
    rekeying: Option<Hook -> bool>,
    reloads: map<nat, Reloading>,
    log: seq<Op>)

  datatype Event =
    | Simple(op: Op)
    | BeginDedup(hook: Hook)
    | Push
    | BeginRemove(doomed: Hook -> bool)
    | Rekey
    | BeginReload(k: nat, sources: seq<Source>)
    | SwapHooks(k: nat)
    | SwapKeys(k: nat)

  function Begin(r: Registry): Shared {
    Shared(r, None, None, map[], [])
  }

  predicate IsSimple(op: Op) {
    op.Register? || op.MarkFired? || op.RegisterForAgent? || op.ClearAgent?
  }

  function Act(w: Shared, e: Event): Shared {
    var r := w.registry;
    match e
    case Simple(op) =>
      if !IsSimple(op) || (op.Register? && w.rekeying.Some?) then w
      else w.(registry := Step(r, op), log := w.log + [op])
    case BeginDedup(h) =>
      if w.pushing.Some? then w
      else if KeyOf(h) in r.seen then w.(log := w.log + [RegisterDeduped(h)])
      else w.(registry := r.(seen := r.seen + {KeyOf(h)}), pushing := Some(h))
    case Push =>
      if w.pushing.None? || w.rekeying.Some? then w
      else w.(registry := r.(hooks := r.hooks + [w.pushing.value]), pushing := None,
              log := w.log + [RegisterDeduped(w.pushing.value)])
    case BeginRemove(doomed) =>
      if w.rekeying.Some? then w
      else w.(registry := r.(hooks := Reject(r.hooks, doomed)), rekeying := Some(doomed))
    case Rekey =>
      if w.rekeying.None? || w.pushing.Some? then w
      else w.(registry := r.(seen := Keys(r.hooks, KeyOf)), rekeying := None,
              log := w.log + [RemoveMatching(w.rekeying.value)])
    case BeginReload(k, sources) =>
      if k in w.reloads || w.rekeying.Some? then w
      else
        (match Loaded(sources)
         case Err(_) => w
         case Ok(defs) => w.(reloads := w.reloads[k := Ready(sources, Reloaded(r, defs).hooks)]))
    case SwapHooks(k) =>
      if k !in w.reloads || w.reloads[k].HalfDone? || w.rekeying.Some? then w
      else
        var hooks := w.reloads[k].hooks;
        w.(registry := r.(hooks := hooks),
           reloads := w.reloads[k := HalfDone(w.reloads[k].sources, Keys(hooks, KeyOf))])
    case SwapKeys(k) =>
      if k !in w.reloads || w.reloads[k].Ready? || w.pushing.Some? then w
      else w.(registry := r.(seen := w.reloads[k].keys), reloads := w.reloads - {k},
              log := w.log + [Reload(w.reloads[k].sources)])
  }

  function Play(w: Shared, events: seq<Event>): Shared
    decreases |events|
  {
    if events == [] then w else Play(Act(w, events[0]), events[1..])
  }

  ghost predicate AtRest(w: Shared) {
    w.pushing.None? && w.rekeying.None? && w.reloads == map[]
  }

  // ---------------------------------------------------------------- deadlock

  /** A checked registration waits for the list's lock, and a removal that holds it for the keys' lock. */
  predicate Deadlocked(w: Shared) {
    w.pushing.Some? && w.rekeying.Some?
  }

  /** The step changes the list, the keys or who holds a lock. */
  predicate Moves(w: Shared, e: Event) {
    var w' := Act(w, e);
    w'.registry.hooks != w.registry.hooks || w'.registry.seen != w.registry.seen
    || w'.pushing != w.pushing || w'.rekeying.Some? != w.rekeying.Some?
  }

  /** No step can move the registry on exactly when each lock is held by a caller that waits for the other. */
  lemma StuckIffDeadlocked(w: Shared)
    ensures (forall e :: !Moves(w, e)) <==> Deadlocked(w)
  {
    if !Deadlocked(w) {
      if w.rekeying.Some? {
        assert Moves(w, Rekey);
      } else {
        assert Moves(w, BeginRemove(h => false));
      }
    }
  }

  /** And then it stays so: both callers wait for good. */
  lemma {:induction false} DeadlockIsForGood(w: Shared, events: seq<Event>)
    requires Deadlocked(w)
    ensures var w' := Play(w, events);
            Deadlocked(w') && w'.registry.hooks == w.registry.hooks && w'.registry.seen == w.registry.seen
    decreases |events|
  {
    if events != [] {
      DeadlockIsForGood(Act(w, events[0]), events[1..]);
    }
  }

  lemma PlayTwo(w: Shared, a: Event, b: Event)
    ensures Play(w, [a, b]) == Act(Act(w, a), b)
  {
    assert [a, b][1..] == [b] && [b][1..] == [];
    assert Play(w, [a, b]) == Play(Act(w, a), [b]) == Play(Act(Act(w, a), b), []);
  }

  /** A checked registration of a new key and a removal get there whenever the one begins before the other ends. */
  lemma RegistrationAndRemovalCanDeadlock(r: Registry, h: Hook, doomed: Hook -> bool)
    requires KeyOf(h) !in r.seen
    ensures Deadlocked(Play(Begin(r), [BeginDedup(h), BeginRemove(doomed)]))
    ensures Deadlocked(Play(Begin(r), [BeginRemove(doomed), BeginDedup(h)]))
  {
    PlayTwo(Begin(r), BeginDedup(h), BeginRemove(doomed));
    PlayTwo(Begin(r), BeginRemove(doomed), BeginDedup(h));
  }

  // ---------------------------------------------------------------- runs in which reloads are alone

  /** A reload begins at rest, and until it is done nothing else touches the list or the keys. */
  ghost predicate Alone(w: Shared, e: Event) {
    && (e.BeginReload? ==> AtRest(w))
    && (w.reloads != map[] ==> e.SwapHooks? || e.SwapKeys? || (e.Simple? && !e.op.Register?))
  }

  ghost predicate AllAlone(w: Shared, events: seq<Event>)
    decreases |events|
  {
    events == [] || (Alone(w, events[0]) && AllAlone(Act(w, events[0]), events[1..]))
  }

  /** What the operations under way have done so far to a registry that is `r` without them. */
  function HooksNow(r: Registry, w: Shared): seq<Hook> {
    if w.rekeying.Some? then Reject(r.hooks, w.rekeying.value) else r.hooks
  }

  function SeenNow(r: Registry, w: Shared): set<string> {
    if w.pushing.Some? then r.seen + {KeyOf(w.pushing.value)} else r.seen
  }

  /** The only reload under way has computed, and perhaps swapped in, what it would make of `r`. */
  ghost predicate ReloadMatches(r: Registry, w: Shared, k: nat)
    requires k in w.reloads
  {
    && w.reloads == map[k := w.reloads[k]] && w.pushing.None? && w.rekeying.None?
    && Loaded(w.reloads[k].sources).Ok?
    && var next := Reloaded(r, Loaded(w.reloads[k].sources).value);
    && w.registry.(hooks := r.hooks) == r
    && if w.reloads[k].Ready? then w.reloads[k].hooks == next.hooks && w.registry.hooks == r.hooks
       else w.reloads[k].keys == next.seen && w.registry.hooks == next.hooks
  }

  /** The registry is what the complete operations, one after the other, and the begun ones have made of it. */
  ghost predicate Matches(r: Registry, w: Shared) {
    && (w.pushing.Some? ==> KeyOf(w.pushing.value) !in r.seen)
    && (w.reloads == map[] ==> w.registry == r.(hooks := HooksNow(r, w), seen := SeenNow(r, w)))
    && (forall k :: k in w.reloads ==> ReloadMatches(r, w, k))
  }

  lemma {:induction false} RunAppend(r: Registry, ops: seq<Op>, op: Op)
    ensures Run(r, ops + [op]) == Step(Run(r, ops), op)
    decreases |ops|
  {
    if ops == [] {
      assert (ops + [op])[1..] == [];
    } else {
      assert (ops + [op])[1..] == ops[1..] + [op];
      RunAppend(Step(r, ops[0]), ops[1..], op);
    }
  }

  /** What one step adds to the complete operations. */
  function LogAfter(r: Registry, w: Shared, e: Event): Registry {
    var w' := Act(w, e);
    if |w'.log| > |w.log| then Step(r, w'.log[|w.log|]) else r
  }

  ghost predicate ActsRight(r: Registry, w: Shared, e: Event) {
    && Matches(LogAfter(r, w, e), Act(w, e))
    && (Act(w, e).log == w.log || exists op :: Act(w, e).log == w.log + [op])
  }

  lemma RegisterActsRight(r: Registry, w: Shared, h: Hook)
    requires Matches(r, w) && Alone(w, Simple(Register(h)))
    ensures ActsRight(r, w, Simple(Register(h)))
  {
  }

  /** The parts of the registry that neither lock guards. */
  lemma AsideIsShared(r: Registry, w: Shared)
    requires Matches(r, w)
    ensures w.registry.fired == r.fired && w.registry.scoped == r.scoped
  {
    if w.reloads != map[] {
      var k := Member(w.reloads.Keys);
      assert ReloadMatches(r, w, k);
    }
  }

  lemma AsideMatches(r: Registry, w: Shared, fired: set<string>, scoped: map<string, seq<Hook>>, log: seq<Op>)
    requires Matches(r, w)
    ensures Matches(r.(fired := fired, scoped := scoped),
                    w.(registry := w.registry.(fired := fired, scoped := scoped), log := log))
  {
    var r' := r.(fired := fired, scoped := scoped);
    var w' := w.(registry := w.registry.(fired := fired, scoped := scoped), log := log);
    forall k | k in w'.reloads
      ensures ReloadMatches(r', w', k)
    {
      assert ReloadMatches(r, w, k);
    }
  }

  /** Firings and agents' scopes touch neither the list nor the keys. */
  lemma AsideActsRight(r: Registry, w: Shared, op: Op)
    requires Matches(r, w) && Alone(w, Simple(op)) && !op.Register?
    ensures ActsRight(r, w, Simple(op))
  {
    if IsSimple(op) {
      var r' := Step(r, op);
      AsideIsShared(r, w);
      AsideMatches(r, w, r'.fired, r'.scoped, w.log + [op]);
      assert Act(w, Simple(op)).registry == w.registry.(fired := r'.fired, scoped := r'.scoped);
    }
  }

  lemma DedupActsRight(r: Registry, w: Shared, e: Event)
    requires Matches(r, w) && Alone(w, e) && (e.BeginDedup? || e.Push?)
    ensures ActsRight(r, w, e)
  {
  }

  lemma RemoveActsRight(r: Registry, w: Shared, e: Event)
    requires Matches(r, w) && Alone(w, e) && (e.BeginRemove? || e.Rekey?)
    ensures ActsRight(r, w, e)
  {
  }

  lemma BeginReloadActsRight(r: Registry, w: Shared, k: nat, sources: seq<Source>)
    requires Matches(r, w) && Alone(w, BeginReload(k, sources))
    ensures ActsRight(r, w, BeginReload(k, sources))
  {
  }

  lemma SwapHooksActsRight(r: Registry, w: Shared, k: nat)
    requires Matches(r, w)
    ensures ActsRight(r, w, SwapHooks(k))
  {
  }

  lemma SwapKeysActsRight(r: Registry, w: Shared, k: nat)
    requires Matches(r, w)
    ensures ActsRight(r, w, SwapKeys(k))
  {
  }

  lemma ActMatches(r: Registry, w: Shared, e: Event)
    requires Matches(r, w) && Alone(w, e)
    ensures ActsRight(r, w, e)
  {
    match e
    case Simple(op) =>
      if op.Register? {
        RegisterActsRight(r, w, op.hook);
      } else {
        AsideActsRight(r, w, op);
      }
    case BeginDedup(_) => DedupActsRight(r, w, e);
    case Push => DedupActsRight(r, w, e);
    case BeginRemove(_) => RemoveActsRight(r, w, e);
    case Rekey => RemoveActsRight(r, w, e);
    case BeginReload(k, sources) => BeginReloadActsRight(r, w, k, sources);
    case SwapHooks(k) => SwapHooksActsRight(r, w, k);
    case SwapKeys(k) => SwapKeysActsRight(r, w, k);
  }

  lemma {:induction false} PlayMatches(r: Registry, w: Shared, events: seq<Event>)
    requires Matches(Run(r, w.log), w) && AllAlone(w, events)
    ensures Matches(Run(r, Play(w, events).log), Play(w, events))
    decreases |events|
  {
    if events != [] {
      var w' := Act(w, events[0]);
      ActMatches(Run(r, w.log), w, events[0]);
      if op :| w'.log == w.log + [op] {
        RunAppend(r, w.log, op);
      }
      PlayMatches(r, w', events[1..]);
    }
  }

  /** However callers interleave, if reloads are alone the registry at rest is what the complete operations
      would have made of it one after the other. */
  lemma AloneRunsAreSerial(r: Registry, events: seq<Event>)
    requires AllAlone(Begin(r), events) && AtRest(Play(Begin(r), events))
    ensures var w := Play(Begin(r), events);
            w.registry == Run(r, w.log)
  {
    PlayMatches(r, Begin(r), events);
  }

  /** So keys count as seen only while some hook has them, and checked runs stay clean. */
  lemma AloneRunsStayCovered(r: Registry, events: seq<Event>)
    requires AllAlone(Begin(r), events) && AtRest(Play(Begin(r), events))
    ensures var w := Play(Begin(r), events);
            && (SeenCovered(r) ==> SeenCovered(w.registry))
            && (Clean(r) && (forall i :: 0 <= i < |w.log| ==> !w.log[i].Register?) ==> Clean(w.registry))
  {
    var w := Play(Begin(r), events);
    AloneRunsAreSerial(r, events);
    if SeenCovered(r) {
      SeenStaysCovered(r, w.log);
    }
    if Clean(r) && forall i :: 0 <= i < |w.log| ==> !w.log[i].Register? {
      CheckedRunsStayClean(r, w.log);
    }
  }

  // ---------------------------------------------------------------- what a reload in company does

  /** A reload of one settings hook with two steps of another caller between its swaps. */
  function BetweenSwaps(r: Registry, h: Hook, a: Event, b: Event): Shared {
    var half := Act(Act(Begin(r), BeginReload(0, [Ok([h])])), SwapHooks(0));
    Act(Act(Act(half, a), b), SwapKeys(0))
  }

  /** A world with just a reload that is ready to swap. */
  ghost predicate JustReady(w: Shared, hooks: seq<Hook>) {
    w.pushing.None? && w.rekeying.None? && w.reloads.Keys == {0} && w.reloads[0].Ready? && w.reloads[0].hooks == hooks
  }

  /** A world with just a reload that has swapped the hooks. */
  ghost predicate HalfWay(w: Shared, keys: set<string>) {
    w.pushing.None? && w.rekeying.None? && w.reloads.Keys == {0} && w.reloads[0].HalfDone? && w.reloads[0].keys == keys
  }

  lemma ReloadBegins(r: Registry, sources: seq<Source>, defs: seq<Hook>)
    requires Loaded(sources) == Ok(defs)
    ensures var w := Act(Begin(r), BeginReload(0, sources));
            JustReady(w, Dedup(defs + SessionHooks(r.hooks), KeyOf, {})) && w.registry == r
  {
  }

  lemma ReloadSwaps(w: Shared, hooks: seq<Hook>)
    requires JustReady(w, hooks)
    ensures var w' := Act(w, SwapHooks(0));
            HalfWay(w', Keys(hooks, KeyOf)) && w'.registry == w.registry.(hooks := hooks)
  {
  }

  lemma LoadedOne(h: Hook)
    ensures Loaded([Ok([h])]) == Ok([h])
  {
    var sources: seq<Source> := [Ok([h])];
    assert sources[..0] == [] && [] + [h] == [h];
  }

  lemma HalfReloaded(r: Registry, h: Hook)
    ensures var w := Act(Act(Begin(r), BeginReload(0, [Ok([h])])), SwapHooks(0));
            && HalfWay(w, Keys(w.registry.hooks, KeyOf)) && KeyOf(h) in Keys(w.registry.hooks, KeyOf)
            && w.registry.seen == r.seen
  {
    var hooks := Dedup([h] + SessionHooks(r.hooks), KeyOf, {});
    LoadedOne(h);
    ReloadBegins(r, [Ok([h])], [h]);
    ReloadSwaps(Act(Begin(r), BeginReload(0, [Ok([h])])), hooks);
    DedupKeys([h] + SessionHooks(r.hooks), KeyOf, {});
    assert ([h] + SessionHooks(r.hooks))[0] == h;
  }

  function SharesKeyWith(h: Hook): Hook -> bool {
    x => KeyOf(x) == KeyOf(h)
  }

  lemma {:induction false} RejectedAreGone(hooks: seq<Hook>, doomed: Hook -> bool)
    ensures forall x :: x in Reject(hooks, doomed) ==> !doomed(x)
  {
    if hooks != [] {
      RejectedAreGone(hooks[..|hooks| - 1], doomed);
    }
  }

  lemma RemovalBetween(w: Shared, keys: set<string>, doomed: Hook -> bool)
    requires HalfWay(w, keys)
    ensures var w' := Act(Act(Act(w, BeginRemove(doomed)), Rekey), SwapKeys(0));
            AtRest(w') && w'.registry == w.registry.(hooks := Reject(w.registry.hooks, doomed), seen := keys)
  {
  }

  lemma RegistrationBetween(w: Shared, keys: set<string>, h: Hook)
    requires HalfWay(w, keys) && KeyOf(h) !in w.registry.seen
    ensures var w' := Act(Act(Act(w, BeginDedup(h)), Push), SwapKeys(0));
            AtRest(w') && w'.registry == w.registry.(hooks := w.registry.hooks + [h], seen := keys)
  {
  }

  lemma KeyIsGone(hooks: seq<Hook>, key: string)
    requires forall x :: x in hooks ==> KeyOf(x) != key
    ensures key !in Keys(hooks, KeyOf)
  {
  }

  /** A removal between the swaps: the key of the removed hook is left behind as seen, so the hook can never
      be registered again with a check. */
  lemma RemovalDuringReloadLeavesAKey(r: Registry, h: Hook)
    ensures var w := BetweenSwaps(r, h, BeginRemove(SharesKeyWith(h)), Rekey);
            && AtRest(w) && !SeenCovered(w.registry)
            && Step(w.registry, RegisterDeduped(h)) == w.registry
            && forall x :: x in w.registry.hooks ==> KeyOf(x) != KeyOf(h)
  {
    var half := Act(Act(Begin(r), BeginReload(0, [Ok([h])])), SwapHooks(0));
    HalfReloaded(r, h);
    RemovalBetween(half, half.reloads[0].keys, SharesKeyWith(h));
    RejectedAreGone(half.registry.hooks, SharesKeyWith(h));
    KeyIsGone(Reject(half.registry.hooks, SharesKeyWith(h)), KeyOf(h));
  }

  lemma TwiceIsNotDistinct(hooks: seq<Hook>, h: Hook)
    requires KeyOf(h) in Keys(hooks, KeyOf)
    ensures !DistinctKeys(hooks + [h], KeyOf)
  {
    var i :| 0 <= i < |hooks| && KeyOf(hooks[i]) == KeyOf(h);
    assert (hooks + [h])[i] == hooks[i] && (hooks + [h])[|hooks|] == h;
  }

  /** A checked registration of the same hook between the swaps is accepted: the hook is there twice. */
  lemma RegistrationDuringReloadDuplicates(r: Registry, h: Hook)
    requires KeyOf(h) !in r.seen
    ensures var w := BetweenSwaps(r, h, BeginDedup(h), Push);
            AtRest(w) && !DistinctKeys(w.registry.hooks, KeyOf)
  {
    var half := Act(Act(Begin(r), BeginReload(0, [Ok([h])])), SwapHooks(0));
    HalfReloaded(r, h);
    RegistrationBetween(half, half.reloads[0].keys, h);
    TwiceIsNotDistinct(half.registry.hooks, h);
  }

  lemma RegistrationBefore(w: Shared, hooks: seq<Hook>, h: Hook)
    requires JustReady(w, hooks)
    ensures JustReady(Act(w, Simple(Register(h))), hooks)
  {
  }

  lemma SwapEnds(w: Shared, keys: set<string>)
    requires HalfWay(w, keys)
    ensures AtRest(Act(w, SwapKeys(0))) && Act(w, SwapKeys(0)).registry.hooks == w.registry.hooks
  {
  }

  /** A session hook registered between a reload's read and its swap is gone. */
  lemma RegistrationDuringReloadIsLost(r: Registry, h: Hook)
    requires h.scope == Session && h !in r.hooks
    ensures var begun := Act(Begin(r), BeginReload(0, []));
            var w := Act(Act(Act(begun, Simple(Register(h))), SwapHooks(0)), SwapKeys(0));
            AtRest(w) && h !in w.registry.hooks
  {
    var hooks := Dedup(SessionHooks(r.hooks), KeyOf, {});
    var none: seq<Hook> := [];
    assert none + SessionHooks(r.hooks) == SessionHooks(r.hooks);
    ReloadBegins(r, [], none);
    var begun := Act(Begin(r), BeginReload(0, []));
    RegistrationBefore(begun, hooks, h);
    ReloadSwaps(Act(begun, Simple(Register(h))), hooks);
    SwapEnds(Act(Act(begun, Simple(Register(h))), SwapHooks(0)), Keys(hooks, KeyOf));
    SessionMembers(r.hooks);
    DedupMembers(SessionHooks(r.hooks), KeyOf, {});
  }
}
