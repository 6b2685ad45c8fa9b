/**
  The hook registry: an ordered list of hooks, the deduplication keys seen so far, the keys of
  once-hooks that have fired, and per-agent lists that come and go with the agents. The registry
  is changed by registrations, removals, whole reloads from settings, firings and agent scopes,
  in any order; a query returns the matching hooks in execution order.

  How a pattern matches a name, and what a settings source loads to, are inputs here.
*/
module HookRegistry {
  import opened Prelude
  import opened D = Dedup
  import opened Hooks

  // ---------------------------------------------------------------- the registry

  /** `fired` holds the keys of once-hooks that ran; `scoped` the hooks of each live agent. */
  datatype Registry = Registry(
    hooks: seq<Hook>,
    seen: set<string>,
    fired: set<string>,
    scoped: map<string, seq<Hook>>)

  const EMPTY := Registry([], {}, {}, map[])

  datatype LoadError = LoadError(reason: string)

  type Source = Result<seq<Hook>, LoadError>

  datatype Op =
    | Register(hook: Hook)
    | RegisterDeduped(hook: Hook)
    | RemoveMatching(doomed: Hook -> bool)
    | Reload(sources: seq<Source>)
    | MarkFired(hook: Hook)
    | RegisterForAgent(agentId: string, scopedHooks: seq<Hook>, isAgent: bool)
    | ClearAgent(agentId: string)

  /** All sources' hooks in order, or the first source's error. */
  function Loaded(sources: seq<Source>): Source {
    if sources == [] then Ok([])
    else match Loaded(sources[..|sources| - 1])
         case Err(e) => Err(e)
         case Ok(earlier) =>
           if sources[|sources| - 1].Err? then sources[|sources| - 1]
           else Ok(earlier + sources[|sources| - 1].value)
  }

  function SessionHooks(hooks: seq<Hook>): seq<Hook> {
    if hooks == [] then []
    else
      SessionHooks(hooks[..|hooks| - 1])
      + (if hooks[|hooks| - 1].scope == Session then [hooks[|hooks| - 1]] else [])
  }

  function ForAgent(h: Hook, isAgent: bool): Hook {
    if isAgent && h.event == Stop then h.(event := SubagentStop) else h
  }

  function AllForAgent(hooks: seq<Hook>, isAgent: bool): seq<Hook> {
    seq(|hooks|, i requires 0 <= i < |hooks| => ForAgent(hooks[i], isAgent))
  }

  function Reloaded(r: Registry, defs: seq<Hook>): Registry {
    var hooks := Dedup(defs + SessionHooks(r.hooks), KeyOf, {});
    r.(hooks := hooks, seen := Keys(hooks, KeyOf))
  }

  function Step(r: Registry, op: Op): Registry {
    match op
    case Register(h) => r.(hooks := r.hooks + [h])
    case RegisterDeduped(h) =>
      if KeyOf(h) in r.seen then r else r.(hooks := r.hooks + [h], seen := r.seen + {KeyOf(h)})
    case RemoveMatching(doomed) =>
      var rest := Reject(r.hooks, doomed);
      r.(hooks := rest, seen := Keys(rest, KeyOf))
    case Reload(sources) =>
      (match Loaded(sources)
       case Err(_) => r
       case Ok(defs) => Reloaded(r, defs))
    case MarkFired(h) => if h.once then r.(fired := r.fired + {KeyOf(h)}) else r
    case RegisterForAgent(agentId, hooks, isAgent) =>
      r.(scoped := r.scoped[agentId := AllForAgent(hooks, isAgent)])
    case ClearAgent(agentId) => r.(scoped := r.scoped - {agentId})
  }

  function Run(r: Registry, ops: seq<Op>): Registry
    decreases |ops|
  {
    if |ops| == 0 then r else Run(Step(r, ops[0]), ops[1..])
  }

  // ---------------------------------------------------------------- seen keys

  ghost predicate SeenCovered(r: Registry) {
    r.seen <= Keys(r.hooks, KeyOf)
  }

  lemma StepCovers(r: Registry, op: Op)
    requires SeenCovered(r)
    ensures SeenCovered(Step(r, op))
  {
    if op.Register? || op.RegisterDeduped? {
      KeysAppend(r.hooks, op.hook, KeyOf);
    }
  }

  /** Over any run, a key counts as seen only while some registered hook has it. */
  lemma {:induction false} SeenStaysCovered(r: Registry, ops: seq<Op>)
    requires SeenCovered(r)
    ensures SeenCovered(Run(r, ops))
    decreases |ops|
  {
    if |ops| > 0 {
      StepCovers(r, ops[0]);
      SeenStaysCovered(Step(r, ops[0]), ops[1..]);
    }
  }

  /** No duplicates, and the seen keys are exactly the registered ones. */
  ghost predicate Clean(r: Registry) {
    DistinctKeys(r.hooks, KeyOf) && r.seen == Keys(r.hooks, KeyOf)
  }

  /** Only an unchecked registration can make the registry unclean, and it always does. */
  lemma CleanKeptIff(r: Registry, op: Op)
    requires Clean(r)
    ensures Clean(Step(r, op)) <==> !op.Register?
  {
    match op
    case Register(h) =>
      KeysAppend(r.hooks, h, KeyOf);
      if KeyOf(h) in Keys(r.hooks, KeyOf) {
        var i :| 0 <= i < |r.hooks| && KeyOf(r.hooks[i]) == KeyOf(h);
        assert (r.hooks + [h])[i] == r.hooks[i] && (r.hooks + [h])[|r.hooks|] == h;
      }
    case RegisterDeduped(h) =>
      if KeyOf(h) !in r.seen {
        KeysAppend(r.hooks, h, KeyOf);
      }
    case RemoveMatching(doomed) => RejectDistinct(r.hooks, doomed, KeyOf);
    case Reload(sources) =>
      if Loaded(sources).Ok? {
        ReloadCleans(r, Loaded(sources).value);
      }
    case MarkFired(_) =>
    case RegisterForAgent(_, _, _) =>
    case ClearAgent(_) =>
  }

  /** A reload leaves a clean registry whatever it found. */
  lemma ReloadCleans(r: Registry, defs: seq<Hook>)
    ensures Clean(Reloaded(r, defs))
    ensures Reloaded(r, defs).seen == Keys(defs, KeyOf) + Keys(SessionHooks(r.hooks), KeyOf)
  {
    DedupKeys(defs + SessionHooks(r.hooks), KeyOf, {});
    KeysConcat(defs, SessionHooks(r.hooks), KeyOf);
  }

  lemma {:induction false} CheckedRunsStayClean(r: Registry, ops: seq<Op>)
    requires Clean(r) && forall i :: 0 <= i < |ops| ==> !ops[i].Register?
    ensures Clean(Run(r, ops))
    decreases |ops|
  {
    if |ops| > 0 {
      CleanKeptIff(r, ops[0]);
      CheckedRunsStayClean(Step(r, ops[0]), ops[1..]);
    }
  }

  // ---------------------------------------------------------------- reload

  lemma {:induction false} SessionConcat(a: seq<Hook>, b: seq<Hook>)
    ensures SessionHooks(a + b) == SessionHooks(a) + SessionHooks(b)
    decreases |b|
  {
    if b == [] {
      assert a + b == a;
    } else {
      assert (a + b)[..|a + b| - 1] == a + b[..|b| - 1];
      SessionConcat(a, b[..|b| - 1]);
    }
  }

  lemma {:induction false} SessionMembers(hooks: seq<Hook>)
    ensures forall h :: h in SessionHooks(hooks) <==> h in hooks && h.scope == Session
    ensures (forall h :: h in hooks ==> h.scope == Session) ==> SessionHooks(hooks) == hooks
  {
    if hooks != [] {
      SessionMembers(hooks[..|hooks| - 1]);
      assert hooks == hooks[..|hooks| - 1] + [hooks[|hooks| - 1]];
    }
  }

  lemma SessionKeys(hooks: seq<Hook>)
    ensures Keys(SessionHooks(hooks), KeyOf) <= Keys(hooks, KeyOf)
  {
    SessionMembers(hooks);
    forall k | k in Keys(SessionHooks(hooks), KeyOf)
      ensures k in Keys(hooks, KeyOf)
    {
      var i :| 0 <= i < |SessionHooks(hooks)| && k == KeyOf(SessionHooks(hooks)[i]);
      var h := SessionHooks(hooks)[i];
      assert h in hooks;
      var j :| 0 <= j < |hooks| && hooks[j] == h;
    }
  }

  /** The session hooks a reload keeps beyond the settings are the ones the next reload keeps. */
  lemma SessionsSurvive(defs: seq<Hook>, sessions: seq<Hook>)
    requires forall h :: h in sessions ==> h.scope == Session
    ensures var kept := Dedup(sessions, KeyOf, Keys(defs, KeyOf));
            SessionHooks(Dedup(defs + sessions, KeyOf, {})) == SessionHooks(Dedup(defs, KeyOf, {})) + kept
  {
    var kept := Dedup(sessions, KeyOf, Keys(defs, KeyOf));
    DedupConcat(defs, sessions, KeyOf, {});
    assert {} + Keys(defs, KeyOf) == Keys(defs, KeyOf);
    SessionConcat(Dedup(defs, KeyOf, {}), kept);
    DedupMembers(sessions, KeyOf, Keys(defs, KeyOf));
    SessionMembers(kept);
  }

  /** Reloading the same settings again changes nothing. */
  lemma ReloadIsIdempotent(r: Registry, defs: seq<Hook>)
    ensures Reloaded(Reloaded(r, defs), defs) == Reloaded(r, defs)
  {
    var sessions := SessionHooks(r.hooks);
    var kept := Dedup(sessions, KeyOf, Keys(defs, KeyOf));
    SessionMembers(r.hooks);
    SessionsSurvive(defs, sessions);
    DedupConcat(defs, sessions, KeyOf, {});
    var again := SessionHooks(Dedup(defs, KeyOf, {})) + kept;
    DedupConcat(defs, again, KeyOf, {});
    assert {} + Keys(defs, KeyOf) == Keys(defs, KeyOf);
    AgainIsKept(defs, sessions);
  }

  lemma AgainIsKept(defs: seq<Hook>, sessions: seq<Hook>)
    ensures var kept := Dedup(sessions, KeyOf, Keys(defs, KeyOf));
            Dedup(SessionHooks(Dedup(defs, KeyOf, {})) + kept, KeyOf, Keys(defs, KeyOf)) == kept
  {
    var kept := Dedup(sessions, KeyOf, Keys(defs, KeyOf));
    var settled := SessionHooks(Dedup(defs, KeyOf, {}));
    DedupKeys(defs, KeyOf, {});
    SessionKeys(Dedup(defs, KeyOf, {}));
    DedupConcat(settled, kept, KeyOf, Keys(defs, KeyOf));
    DedupAllSeen(settled, KeyOf, Keys(defs, KeyOf));
    assert Keys(defs, KeyOf) + Keys(settled, KeyOf) == Keys(defs, KeyOf);
    DedupKeys(sessions, KeyOf, Keys(defs, KeyOf));
    DedupNothing(kept, KeyOf, Keys(defs, KeyOf));
  }

  /** A reload is the first occurrences of the settings followed by the session hooks in place
      before; a failing source leaves everything as it was. */
  lemma ReloadMeaning(r: Registry, sources: seq<Source>)
    ensures Loaded(sources).Err? ==> Step(r, Reload(sources)) == r
    ensures Loaded(sources).Ok? ==>
              var all := Loaded(sources).value + SessionHooks(r.hooks);
              && Step(r, Reload(sources)).hooks == FirstOccurrences(all, KeyOf, |all|)
              && Step(r, Reload(sources)).fired == r.fired
              && Step(r, Reload(sources)).scoped == r.scoped
  {
    if Loaded(sources).Ok? {
      DedupIsFirstOccurrences(Loaded(sources).value + SessionHooks(r.hooks), KeyOf);
    }
  }

  /** The first source that fails, fails with `e`. */
  ghost predicate FirstError(sources: seq<Source>, e: LoadError) {
    exists i :: 0 <= i < |sources| && sources[i] == Err(e) && forall j :: 0 <= j < i ==> sources[j].Ok?
  }

  /** Sources load one after the other, and what follows a failing one does not matter. */
  lemma {:induction false} LoadInTurn(a: seq<Source>, b: seq<Source>)
    ensures Loaded([]) == Ok([]) && (|b| == 1 ==> Loaded(b) == b[0])
    ensures Loaded(a + b) ==
            if Loaded(a).Err? then Loaded(a)
            else if Loaded(b).Err? then Loaded(b) else Ok(Loaded(a).value + Loaded(b).value)
    decreases |b|
  {
    if b == [] {
      assert a + b == a;
      assert Loaded(a).Ok? ==> Loaded(a).value + [] == Loaded(a).value;
    } else {
      var n := |b| - 1;
      LoadInTurn(a, b[..n]);
      assert (a + b)[..|a + b| - 1] == a + b[..n];
      assert b[n].Ok? ==> [] + b[n].value == b[n].value;
      if Loaded(a).Ok? && Loaded(b).Ok? {
        var x, y, z := Loaded(a).value, Loaded(b[..n]).value, b[n].value;
        assert (x + y) + z == x + (y + z);
      }
    }
  }

  lemma {:induction false} LoadFailsIff(sources: seq<Source>)
    ensures Loaded(sources).Err? <==> exists i :: 0 <= i < |sources| && sources[i].Err?
    ensures Loaded(sources).Err? ==> FirstError(sources, Loaded(sources).error)
  {
    if sources != [] {
      var n := |sources| - 1;
      LoadFailsIff(sources[..n]);
      if Loaded(sources[..n]).Err? {
        var e := Loaded(sources).error;
        var i :| 0 <= i < n && sources[..n][i] == Err(e) && forall j :: 0 <= j < i ==> sources[..n][j].Ok?;
        assert sources[i] == Err(e) && forall j :: 0 <= j < i ==> sources[j] == sources[..n][j];
      } else if sources[n].Err? {
        assert forall j :: 0 <= j < n ==> sources[j] == sources[..n][j];
      }
    }
  }

  // ---------------------------------------------------------------- queries

  /** `pattern` decides how a non-wildcard matcher meets a value. */
  datatype Query = Query(event: EventType, value: Option<string>, pattern: (string, string) -> bool)

  predicate MatcherAccepts(matcher: Option<string>, q: Query) {
    match matcher
    case None => true
    case Some(m) => if m == "*" then q.value.Some? else q.value.Some? && q.pattern(m, q.value.value)
  }

  predicate Applies(h: Hook, q: Query) {
    h.event == q.event && MatcherAccepts(h.matcher, q)
  }

  predicate Suppressed(r: Registry, h: Hook) {
    h.once && KeyOf(h) in r.fired
  }

  function MainMatches(r: Registry, n: nat, q: Query): seq<Hook>
    requires n <= |r.hooks|
  {
    if n == 0 then []
    else
      MainMatches(r, n - 1, q)
      + (if Applies(r.hooks[n - 1], q) && !Suppressed(r, r.hooks[n - 1]) then [r.hooks[n - 1]] else [])
  }

  function Applicable(hooks: seq<Hook>, q: Query): seq<Hook> {
    if hooks == [] then []
    else
      Applicable(hooks[..|hooks| - 1], q) + (if Applies(hooks[|hooks| - 1], q) then [hooks[|hooks| - 1]] else [])
  }

  /** `order` is the order in which the agents' lists are visited, which nothing fixes. */
  function ScopedMatches(r: Registry, order: seq<string>, q: Query): seq<Hook>
    requires forall id :: id in order ==> id in r.scoped
  {
    if order == [] then []
    else
      ScopedMatches(r, order[..|order| - 1], q) + Applicable(r.scoped[order[|order| - 1]], q)
  }

  ghost predicate Visits(r: Registry, order: seq<string>) {
    Distinct(order) && forall id :: id in order <==> id in r.scoped
  }

  function Candidates(r: Registry, order: seq<string>, q: Query): seq<Hook>
    requires forall id :: id in order ==> id in r.scoped
  {
    MainMatches(r, |r.hooks|, q) + ScopedMatches(r, order, q)
  }

  lemma {:induction false} MainMembers(r: Registry, n: nat, q: Query)
    requires n <= |r.hooks|
    ensures forall h :: h in MainMatches(r, n, q) <==> h in r.hooks[..n] && Applies(h, q) && !Suppressed(r, h)
  {
    if n > 0 {
      MainMembers(r, n - 1, q);
      assert r.hooks[..n] == r.hooks[..n - 1] + [r.hooks[n - 1]];
    }
  }

  lemma {:induction false} ApplicableMembers(hooks: seq<Hook>, q: Query)
    ensures forall h :: h in Applicable(hooks, q) <==> h in hooks && Applies(h, q)
  {
    if hooks != [] {
      ApplicableMembers(hooks[..|hooks| - 1], q);
      assert hooks == hooks[..|hooks| - 1] + [hooks[|hooks| - 1]];
    }
  }

  /** The hook is for this event, and takes every value, any value there is, or the values its pattern accepts. */
  ghost predicate IsFor(h: Hook, q: Query) {
    && h.event == q.event
    && (h.matcher.Some? ==> q.value.Some?)
    && (h.matcher.Some? && h.matcher.value != "*" ==> q.pattern(h.matcher.value, q.value.value))
  }

  ghost predicate UsedUp(h: Hook, fired: set<string>) {
    KeyOf(h) in fired && h.once
  }

  /** Some live agent's list holds the hook. */
  ghost predicate HeldByAgent(r: Registry, h: Hook) {
    exists id :: id in r.scoped && h in r.scoped[id]
  }

  lemma {:induction false} ScopedMembers(r: Registry, order: seq<string>, q: Query, h: Hook)
    requires forall id :: id in order ==> id in r.scoped
    ensures h in ScopedMatches(r, order, q) <==> Applies(h, q) && exists id :: id in order && h in r.scoped[id]
  {
    if order != [] {
      var n := |order| - 1;
      ScopedMembers(r, order[..n], q, h);
      ApplicableMembers(r.scoped[order[n]], q);
      assert order == order[..n] + [order[n]];
    }
  }

  /** What a query finds: a registered hook that applies and has not been used up, or an applying
      hook of a live agent, used up or not. */
  lemma FoundIff(r: Registry, order: seq<string>, q: Query, found: seq<Hook>, h: Hook)
    requires Visits(r, order) && IsStableSort(found, Candidates(r, order, q))
    ensures h in found <==> IsFor(h, q) && ((h in r.hooks && !UsedUp(h, r.fired)) || HeldByAgent(r, h))
  {
    SameMembers(found, Candidates(r, order, q), h);
    MainMembers(r, |r.hooks|, q);
    assert r.hooks[..|r.hooks|] == r.hooks;
    ScopedMembers(r, order, q, h);
  }

  lemma {:induction false} OfClassConcat(a: seq<Hook>, b: seq<Hook>, c: Hook)
    ensures OfClass(a + b, c) == OfClass(a, c) + OfClass(b, c)
    decreases |b|
  {
    if b == [] {
      assert a + b == a;
    } else {
      assert (a + b)[..|a + b| - 1] == a + b[..|b| - 1];
      OfClassConcat(a, b[..|b| - 1], c);
    }
  }

  lemma OfClassNext(front: seq<Hook>, h: Hook, c: Hook)
    ensures OfClass(front + [h], c) == OfClass(front, c) + (if SameClass(h, c) then [h] else [])
    ensures OfClass(front + [], c) == OfClass(front, c)
  {
    assert (front + [h])[..|front|] == front && front + [] == front;
  }

  lemma {:induction false} MainOfClass(r: Registry, n: nat, q: Query, c: Hook, mine: Hook -> bool)
    requires n <= |r.hooks|
    requires forall h :: mine(h) <==> IsFor(h, q) && !UsedUp(h, r.fired) && SameClass(h, c)
    ensures OfClass(MainMatches(r, n, q), c) == Filter(r.hooks[..n], mine)
  {
    if n > 0 {
      MainOfClass(r, n - 1, q, c, mine);
      assert r.hooks[..n][..n - 1] == r.hooks[..n - 1];
      OfClassNext(MainMatches(r, n - 1, q), r.hooks[n - 1], c);
    }
  }

  lemma {:induction false} ApplicableOfClass(hooks: seq<Hook>, q: Query, c: Hook, theirs: Hook -> bool)
    requires forall h :: theirs(h) <==> IsFor(h, q) && SameClass(h, c)
    ensures OfClass(Applicable(hooks, q), c) == Filter(hooks, theirs)
  {
    if hooks != [] {
      ApplicableOfClass(hooks[..|hooks| - 1], q, c, theirs);
      OfClassNext(Applicable(hooks[..|hooks| - 1], q), hooks[|hooks| - 1], c);
    }
  }

  /** The agents' hooks that pass, agent after agent. */
  ghost function FromAgents(r: Registry, order: seq<string>, keep: Hook -> bool): seq<Hook>
    requires forall id :: id in order ==> id in r.scoped
  {
    if order == [] then [] else FromAgents(r, order[..|order| - 1], keep) + Filter(r.scoped[order[|order| - 1]], keep)
  }

  lemma {:induction false} ScopedOfClass(r: Registry, order: seq<string>, q: Query, c: Hook, theirs: Hook -> bool)
    requires forall id :: id in order ==> id in r.scoped
    requires forall h :: theirs(h) <==> IsFor(h, q) && SameClass(h, c)
    ensures OfClass(ScopedMatches(r, order, q), c) == FromAgents(r, order, theirs)
  {
    if order != [] {
      var n := |order| - 1;
      ScopedOfClass(r, order[..n], q, c, theirs);
      ApplicableOfClass(r.scoped[order[n]], q, c, theirs);
      OfClassConcat(ScopedMatches(r, order[..n], q), Applicable(r.scoped[order[n]], q), c);
    }
  }

  /** Within a scope and priority the registered hooks come first, in the order they were registered, and then
      the agents', agent after agent, each in its own order. */
  lemma FoundInOrder(r: Registry, order: seq<string>, q: Query, found: seq<Hook>, c: Hook,
                     mine: Hook -> bool, theirs: Hook -> bool)
    requires Visits(r, order) && IsStableSort(found, Candidates(r, order, q))
    requires forall h :: mine(h) <==> IsFor(h, q) && !UsedUp(h, r.fired) && SameClass(h, c)
    requires forall h :: theirs(h) <==> IsFor(h, q) && SameClass(h, c)
    ensures OfClass(found, c) == Filter(r.hooks, mine) + FromAgents(r, order, theirs)
  {
    MainOfClass(r, |r.hooks|, q, c, mine);
    assert r.hooks[..|r.hooks|] == r.hooks;
    ScopedOfClass(r, order, q, c, theirs);
    OfClassConcat(MainMatches(r, |r.hooks|, q), ScopedMatches(r, order, q), c);
  }

  ghost predicate Fires(op: Op, key: string) {
    op.MarkFired? && op.hook.once && KeyOf(op.hook) == key
  }

  /** Over any run a key counts as fired exactly when it did before or a once-hook with it is marked. */
  lemma {:induction false} FiredIff(r: Registry, ops: seq<Op>, key: string)
    ensures key in Run(r, ops).fired <==> key in r.fired || exists i :: 0 <= i < |ops| && Fires(ops[i], key)
    decreases |ops|
  {
    if |ops| > 0 {
      FiredIff(Step(r, ops[0]), ops[1..], key);
      FiresNext(ops, key);
      assert key in Step(r, ops[0]).fired <==> key in r.fired || Fires(ops[0], key);
    }
  }

  lemma FiresNext(ops: seq<Op>, key: string)
    requires |ops| > 0
    ensures (exists i :: 0 <= i < |ops| && Fires(ops[i], key))
            <==> (Fires(ops[0], key) || exists i :: 0 <= i < |ops[1..]| && Fires(ops[1..][i], key))
  {
    if i :| 0 <= i < |ops| && Fires(ops[i], key) {
      assert i > 0 ==> ops[1..][i - 1] == ops[i];
    }
    if i :| 0 <= i < |ops[1..]| && Fires(ops[1..][i], key) {
      assert ops[i + 1] == ops[1..][i];
    }
  }

  /** Once a once-hook has fired, then after any further run, reloads and registrations included,
      a query finds it exactly when a live agent holds it: agent lists ignore the firing. */
  lemma FiredIsFoundIff(r: Registry, fired: Hook, ops: seq<Op>, order: seq<string>, q: Query, found: seq<Hook>)
    requires fired.once
    requires var later := Run(Step(r, MarkFired(fired)), ops);
             Visits(later, order) && IsStableSort(found, Candidates(later, order, q))
    ensures var later := Run(Step(r, MarkFired(fired)), ops);
            forall h: Hook :: h.once && KeyOf(h) == KeyOf(fired) ==>
                          (h in found <==> IsFor(h, q) && HeldByAgent(later, h))
  {
    var later := Run(Step(r, MarkFired(fired)), ops);
    FiredIff(Step(r, MarkFired(fired)), ops, KeyOf(fired));
    forall h: Hook | h.once && KeyOf(h) == KeyOf(fired)
      ensures h in found <==> IsFor(h, q) && HeldByAgent(later, h)
    {
      FoundIff(later, order, q, found, h);
    }
  }

  /** A once-hook of an agent is found again after it has fired. */
  lemma AgentHookFiresAgain() returns (h: Hook, ops: seq<Op>, q: Query, found: seq<Hook>)
    ensures h.once && MarkFired(h) in ops
    ensures var r := Run(EMPTY, ops);
            Visits(r, ["a"]) && IsStableSort(found, Candidates(r, ["a"], q)) && h in found
  {
    h := Hook(Other(0), None, Prompt("p"), 0, User, None, true);
    var register := RegisterForAgent("a", [h], true);
    ops := [register, MarkFired(h)];
    q := Query(Other(0), None, (m, v) => false);
    var r := Step(Step(EMPTY, register), MarkFired(h));
    assert ops[1..] == [MarkFired(h)] && ops[1..][1..] == [];
    assert Run(EMPTY, ops) == Run(Step(EMPTY, register), ops[1..]) == Run(r, []);
    found := StableSort(Candidates(r, ["a"], q));
    StableSortIsStable(Candidates(r, ["a"], q));
    assert r.scoped["a"][0] == h;
    FoundIff(r, ["a"], q, found, h);
  }

  // ---------------------------------------------------------------- agents' lists

  ghost predicate Names(op: Op, id: string) {
    (op.RegisterForAgent? || op.ClearAgent?) && op.agentId == id
  }

  /** The same hooks, except that an agent's stop hooks wait for the subagent's stop. */
  ghost predicate IsScopedCopy(list: seq<Hook>, hooks: seq<Hook>, isAgent: bool) {
    && |list| == |hooks|
    && forall i :: 0 <= i < |hooks| ==>
         && list[i].(event := hooks[i].event) == hooks[i]
         && list[i].event == if isAgent && hooks[i].event.Stop? then SubagentStop else hooks[i].event
  }

  /** What is in force for an agent is what the last operation naming it said, whatever happens to others. */
  lemma {:induction false} LastNamingDecides(r: Registry, ops: seq<Op>, id: string)
    ensures var later := Run(r, ops);
            forall k :: 0 <= k < |ops| && Names(ops[k], id) && (forall j :: k < j < |ops| ==> !Names(ops[j], id)) ==>
              if ops[k].ClearAgent? then id !in later.scoped
              else id in later.scoped && IsScopedCopy(later.scoped[id], ops[k].scopedHooks, ops[k].isAgent)
    ensures var later := Run(r, ops);
            (forall k :: 0 <= k < |ops| ==> !Names(ops[k], id)) ==>
              && (id in later.scoped <==> id in r.scoped)
              && (id in r.scoped ==> later.scoped[id] == r.scoped[id])
    decreases |ops|
  {
    if |ops| > 0 {
      LastNamingDecides(Step(r, ops[0]), ops[1..], id);
      assert forall k :: 0 < k < |ops| ==> ops[k] == ops[1..][k - 1];
    }
  }

  // ---------------------------------------------------------------- agents end with SubagentStop

  ghost predicate NoAgentStop(r: Registry) {
    forall id, i :: id in r.scoped && 0 <= i < |r.scoped[id]| ==> r.scoped[id][i].event != Stop
  }

  ghost predicate AgentsOnly(ops: seq<Op>) {
    forall i :: 0 <= i < |ops| && ops[i].RegisterForAgent? ==> ops[i].isAgent
  }

  lemma {:induction false} AgentsNeverStop(r: Registry, ops: seq<Op>)
    requires NoAgentStop(r) && AgentsOnly(ops)
    ensures NoAgentStop(Run(r, ops))
    decreases |ops|
  {
    if |ops| > 0 {
      assert NoAgentStop(Step(r, ops[0]));
      AgentsNeverStop(Step(r, ops[0]), ops[1..]);
    }
  }
}
