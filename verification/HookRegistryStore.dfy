/**
  The registry as the program keeps it: four mutable collections behind methods. Each method is
  shown to make the step `HookRegistry.Step` says; a query returns the stable sort of what applies.
*/
module HookRegistryStore {
  import opened Prelude
  import opened D = Dedup
  import opened Hooks
  import opened R = HookRegistry

  class HookRegistry {
    var hooks: seq<Hook>
    var seenKeys: set<string>
    var firedOnce: set<string>
    var agentScoped: map<string, seq<Hook>>

    constructor ()
      ensures Value() == EMPTY
    {
      hooks, seenKeys, firedOnce, agentScoped := [], {}, {}, map[];
    }

    function Value(): Registry
      reads this
    {
      Registry(hooks, seenKeys, firedOnce, agentScoped)
    }

    method AddHook(h: Hook)
      modifies this
      ensures Value() == Step(old(Value()), Register(h))
      ensures hooks == old(hooks) + [h] && unchanged(`seenKeys, `firedOnce, `agentScoped)
    {
      hooks := hooks + [h];
    }

    method AddDeduped(h: Hook) returns (added: bool)
      modifies this
      ensures Value() == Step(old(Value()), RegisterDeduped(h))
      ensures added <==> KeyOf(h) !in old(seenKeys)
      ensures seenKeys == old(seenKeys) + {KeyOf(h)}
      ensures hooks == if added then old(hooks) + [h] else old(hooks)
      ensures unchanged(`firedOnce, `agentScoped)
    {
      var key := KeyOf(h);
      if key in seenKeys {
        return false;
      }
      seenKeys := seenKeys + {key};
      hooks := hooks + [h];
      return true;
    }

    /** Splits the list in two, keeping the order on both sides. */
    method RemoveMatchingHooks(doomed: Hook -> bool) returns (removed: seq<Hook>)
      modifies this
      ensures Value() == Step(old(Value()), RemoveMatching(doomed))
      ensures removed == Filter(old(hooks), doomed)
      ensures (forall h :: h in removed ==> doomed(h)) && (forall h :: h in hooks ==> !doomed(h))
      ensures seenKeys == Keys(hooks, KeyOf)
      ensures unchanged(`firedOnce, `agentScoped)
      ensures multiset(removed) + multiset(hooks) == multiset(old(hooks))
    {
      var retained;
      removed, retained := Partition(hooks, doomed);
      hooks := retained;
      seenKeys := CollectKeys(hooks, KeyOf);
    }

    method ReloadFromRuntime(sources: seq<Source>) returns (r: Result<nat, LoadError>)
      modifies this
      ensures Value() == Step(old(Value()), Reload(sources))
      ensures r.Err? <==> exists i :: 0 <= i < |sources| && sources[i].Err?
      ensures r.Err? ==> FirstError(sources, r.error) && unchanged(this)
      ensures r.Ok? ==> r.value == |hooks| == |seenKeys|
      ensures unchanged(`firedOnce, `agentScoped)
    {
      var preserved := KeepSessionHooks(hooks);
      var loaded, flat := LoadSources(sources);
      if loaded.Err? {
        return Err(loaded.error);
      }
      DedupCount(flat + preserved, KeyOf);
      hooks, seenKeys := AddNew(loaded.value.0, loaded.value.1, flat, KeyOf, preserved);
      return Ok(|hooks|);
    }

    method AddForAgent(agentId: string, scoped: seq<Hook>, isAgent: bool)
      modifies this
      ensures Value() == Step(old(Value()), RegisterForAgent(agentId, scoped, isAgent))
      ensures agentScoped.Keys == old(agentScoped.Keys) + {agentId}
      ensures IsScopedCopy(agentScoped[agentId], scoped, isAgent)
      ensures forall id :: id in old(agentScoped) && id != agentId ==> agentScoped[id] == old(agentScoped[id])
      ensures unchanged(`hooks, `seenKeys, `firedOnce)
    {
      agentScoped := agentScoped[agentId := AllForAgent(scoped, isAgent)];
    }

    method ClearAgentScope(agentId: string)
      modifies this
      ensures Value() == Step(old(Value()), ClearAgent(agentId))
      ensures agentScoped.Keys == old(agentScoped.Keys) - {agentId}
      ensures forall id :: id in agentScoped ==> agentScoped[id] == old(agentScoped[id])
      ensures unchanged(`hooks, `seenKeys, `firedOnce)
    {
      agentScoped := agentScoped - {agentId};
    }

    method MarkOnceFired(h: Hook)
      modifies this
      ensures Value() == Step(old(Value()), MarkFired(h))
      ensures firedOnce == old(firedOnce) + (if h.once then {KeyOf(h)} else {})
      ensures unchanged(`hooks, `seenKeys, `agentScoped)
    {
      if h.once {
        firedOnce := firedOnce + {KeyOf(h)};
      }
    }

    /** `order` is the order in which the agents' lists happen to be visited. */
    method FindMatching(order: seq<string>, q: Query) returns (found: seq<Hook>)
      requires Visits(Value(), order)
      ensures IsStableSort(found, Candidates(Value(), order, q)) && InRunOrder(found)
      ensures forall h :: h in found <==>
                IsFor(h, q) && ((h in hooks && !UsedUp(h, firedOnce)) || HeldByAgent(Value(), h))
    {
      var matches := [];
      for i := 0 to |hooks|
        invariant matches == MainMatches(Value(), i, q)
      {
        var h := hooks[i];
        if Applies(h, q) && !(h.once && KeyOf(h) in firedOnce) {
          matches := matches + [h];
        }
      }
      ghost var main := matches;
      for i := 0 to |order|
        invariant matches == main + ScopedMatches(Value(), order[..i], q)
      {
        assert order[..i + 1][..i] == order[..i];
        assert order[i] in agentScoped;
        var more := FilterApplicable(agentScoped[order[i]], q);
        matches := matches + more;
      }
      assert order[..|order|] == order;
      found := StableSort(matches);
      StableSortIsStable(matches);
      OrderedIffInRunOrder(found);
      forall h
        ensures h in found <==>
                IsFor(h, q) && ((h in hooks && !UsedUp(h, firedOnce)) || HeldByAgent(Value(), h))
      {
        FoundIff(Value(), order, q, found, h);
      }
    }
  }

  /** Loads source after source, dropping duplicates on the way; the first failing source ends it. */
  method LoadSources(sources: seq<Source>)
    returns (r: Result<(seq<Hook>, set<string>), LoadError>, ghost flat: seq<Hook>)
    ensures r.Err? <==> Loaded(sources).Err?
    ensures r.Err? <==> exists i :: 0 <= i < |sources| && sources[i].Err?
    ensures r.Err? ==> FirstError(sources, r.error)
    ensures r.Ok? ==> Loaded(sources) == Ok(flat) && r.value == (Dedup(flat, KeyOf, {}), Keys(flat, KeyOf))
  {
    var newHooks: seq<Hook>, newKeys: set<string> := [], {};
    flat := [];
    for i := 0 to |sources|
      invariant Loaded(sources[..i]) == Ok(flat)
      invariant newHooks == Dedup(flat, KeyOf, {}) && newKeys == Keys(flat, KeyOf)
    {
      assert sources[..i + 1][..i] == sources[..i];
      if sources[i].Err? {
        assert sources == sources[..i + 1] + sources[i + 1..];
        LoadInTurn(sources[..i + 1], sources[i + 1..]);
        LoadFailsIff(sources);
        return Err(sources[i].error), flat;
      }
      newHooks, newKeys := AddNew(newHooks, newKeys, flat, KeyOf, sources[i].value);
      flat := flat + sources[i].value;
    }
    assert sources[..|sources|] == sources;
    LoadFailsIff(sources);
    return Ok((newHooks, newKeys)), flat;
  }

  method KeepSessionHooks(hooks: seq<Hook>) returns (kept: seq<Hook>)
    ensures kept == SessionHooks(hooks)
    ensures forall h :: h in kept <==> h in hooks && h.scope == Session
  {
    kept := [];
    for i := 0 to |hooks|
      invariant kept == SessionHooks(hooks[..i])
    {
      assert hooks[..i + 1][..i] == hooks[..i];
      if hooks[i].scope == Session {
        kept := kept + [hooks[i]];
      }
    }
    assert hooks[..|hooks|] == hooks;
    SessionMembers(hooks);
  }

  method FilterApplicable(hooks: seq<Hook>, q: Query) returns (found: seq<Hook>)
    ensures found == Applicable(hooks, q)
  {
    found := [];
    for i := 0 to |hooks|
      invariant found == Applicable(hooks[..i], q)
    {
      assert hooks[..i + 1][..i] == hooks[..i];
      if Applies(hooks[i], q) {
        found := found + [hooks[i]];
      }
    }
    assert hooks[..|hooks|] == hooks;
  }
}
