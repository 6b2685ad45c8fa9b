/**
  Hook definitions, the keys that decide which of them are duplicates, and the order in which
  matching hooks run.
*/
module Hooks {
  import opened Prelude

  datatype Scope = Builtin | Plugin | User | Project | Local | Session | Policy

  function ScopeRank(s: Scope): nat {
    match s
    case Builtin => 0
    case Plugin => 1
    case User => 2
    case Project => 3
    case Local => 4
    case Session => 5
    case Policy => 6
  }

  /** `Other` stands for every event the registry does not treat specially. */
  datatype EventType = Stop | SubagentStop | Other(code: int)

  /** `shellText` is the printed form of a command's optional shell. */
  datatype Handler =
    | Command(command: string, shellText: string)
    | Prompt(prompt: string)
    | Http(url: string)
    | Agent(task: string)
    | ClientCallback(callbackId: string)

  datatype Hook = Hook(
    event: EventType,
    matcher: Option<string>,
    handler: Handler,
    priority: int,
    scope: Scope,
    condition: Option<string>,
    once: bool)

  // ---------------------------------------------------------------- dedup keys

  const NUL: char := '\0'

  function HandlerKey(h: Handler): string {
    match h
    case Command(command, shellText) => "cmd:" + shellText + [NUL] + command
    case Prompt(prompt) => "prompt:" + prompt
    case Http(url) => "http:" + url
    case Agent(task) => "agent:" + task
    case ClientCallback(id) => "client_callback:" + id
  }

  function ConditionText(h: Hook): string {
    if h.condition.Some? then h.condition.value else ""
  }

  function KeyOf(h: Hook): string {
    HandlerKey(h.handler) + [NUL] + ConditionText(h)
  }

  /** The shell is printed with escapes, so its printed form has no NUL. */
  predicate Printed(h: Hook) {
    h.handler.Command? ==> NUL !in h.handler.shellText
  }

  /** The text a handler's key ends in. */
  function LastText(h: Handler): string {
    match h
    case Command(command, _) => command
    case Prompt(prompt) => prompt
    case Http(url) => url
    case Agent(task) => task
    case ClientCallback(id) => id
  }

  function WithLast(h: Handler, text: string): Handler {
    match h
    case Command(_, shellText) => Command(text, shellText)
    case Prompt(_) => Prompt(text)
    case Http(_) => Http(text)
    case Agent(_) => Agent(text)
    case ClientCallback(_) => ClientCallback(text)
  }

  ghost predicate NulFree(h: Hook) {
    Printed(h) && NUL !in LastText(h.handler) && NUL !in ConditionText(h)
  }

  lemma ShorterHasNul(a: string, x: string, b: string, y: string)
    requires a + [NUL] + x == b + [NUL] + y && |a| < |b|
    ensures NUL in x && NUL in b
  {
    var s := a + [NUL] + x;
    assert s[|b|] == (b + [NUL] + y)[|b|] == NUL && x[|b| - |a| - 1] == s[|b|];
    assert s[|a|] == NUL && b[|a|] == s[|a|];
  }

  lemma SplitAtNul(a: string, x: string, b: string, y: string)
    requires a + [NUL] + x == b + [NUL] + y
    requires (NUL !in a && NUL !in b) || (NUL !in x && NUL !in y) || (NUL !in b && NUL !in y)
    ensures a == b && x == y
  {
    if |a| < |b| {
      ShorterHasNul(a, x, b, y);
    } else if |b| < |a| {
      ShorterHasNul(b, y, a, x);
    }
    var s := a + [NUL] + x;
    assert a == s[..|a|] && b == s[..|b|] && x == s[|a| + 1..] && y == s[|b| + 1..];
  }

  lemma DropPrefix(p: string, a: string, b: string)
    requires p + a == p + b
    ensures a == b
  {
    assert a == (p + a)[|p|..] && b == (p + b)[|p|..];
  }

  lemma HandlerKeyHead(h: Handler)
    ensures |HandlerKey(h)| > 1
    ensures HandlerKey(h)[0] ==
            match h case Command(_, _) => 'c' case Prompt(_) => 'p' case Http(_) => 'h' case Agent(_) => 'a'
                    case ClientCallback(_) => 'c'
    ensures h.Command? ==> HandlerKey(h)[1] == 'm'
    ensures h.ClientCallback? ==> HandlerKey(h)[1] == 'l'
  {
  }

  lemma HandlerKeyInjective(g: Handler, h: Handler)
    requires HandlerKey(g) == HandlerKey(h)
    requires g.Command? ==> NUL !in g.shellText
    requires h.Command? ==> NUL !in h.shellText
    ensures g == h
  {
    HandlerKeyHead(g);
    HandlerKeyHead(h);
    match g
    case Command(command, shellText) =>
      assert HandlerKey(g) == "cmd:" + (shellText + [NUL] + command);
      assert HandlerKey(h) == "cmd:" + (h.shellText + [NUL] + h.command);
      DropPrefix("cmd:", shellText + [NUL] + command, h.shellText + [NUL] + h.command);
      SplitAtNul(shellText, command, h.shellText, h.command);
    case Prompt(prompt) => DropPrefix("prompt:", prompt, h.prompt);
    case Http(url) => DropPrefix("http:", url, h.url);
    case Agent(task) => DropPrefix("agent:", task, h.task);
    case ClientCallback(id) => DropPrefix("client_callback:", id, h.callbackId);
  }

  predicate SameAction(g: Hook, h: Hook) {
    g.handler == h.handler && ConditionText(g) == ConditionText(h)
  }

  /** Two hooks are duplicates exactly when they run the same handler under the same condition,
      whatever their event, matcher, priority, scope or once flag. */
  lemma KeyMeaning(g: Hook, h: Hook)
    requires Printed(g) && Printed(h) && NUL !in ConditionText(g) && NUL !in ConditionText(h)
    ensures KeyOf(g) == KeyOf(h) <==> SameAction(g, h)
  {
    if KeyOf(g) == KeyOf(h) {
      SplitAtNul(HandlerKey(g.handler), ConditionText(g), HandlerKey(h.handler), ConditionText(h));
      HandlerKeyInjective(g.handler, h.handler);
    }
  }

  /** The same hook with another handler and condition. */
  function With(h: Hook, handler: Handler, condition: string): Hook {
    h.(handler := handler, condition := Some(condition))
  }

  /** The text is `a` and `b` with a NUL between them. */
  lemma CutAtNul(text: string) returns (a: string, b: string)
    requires NUL in text
    ensures text == a + [NUL] + b && a != text
  {
    var n :| 0 <= n < |text| && text[n] == NUL;
    a, b := text[..n], text[n + 1..];
  }

  /** What comes before a handler's last text in its key. */
  function Head(h: Handler): string {
    match h
    case Command(_, shellText) => "cmd:" + shellText + [NUL]
    case Prompt(_) => "prompt:"
    case Http(_) => "http:"
    case Agent(_) => "agent:"
    case ClientCallback(_) => "client_callback:"
  }

  lemma KeyIsHeadAndTail(h: Hook)
    ensures KeyOf(h) == Head(h.handler) + (LastText(h.handler) + [NUL] + ConditionText(h))
  {
  }

  /** The same texts with the NULs between them grouped the other way. */
  lemma RegroupTexts(a: string, b: string, c: string)
    ensures a + [NUL] + (b + [NUL] + c) == a + [NUL] + b + [NUL] + c
  {
  }

  lemma SameHead(h: Handler, text: string)
    ensures Head(WithLast(h, text)) == Head(h) && LastText(WithLast(h, text)) == text
  {
  }

  /** A NUL in the condition: part of it can move into the handler's text. */
  lemma ConditionMoves(h: Hook) returns (g: Hook)
    requires Printed(h) && NUL in ConditionText(h)
    ensures Printed(g) && KeyOf(g) == KeyOf(h) && !SameAction(g, h)
  {
    var a, b := CutAtNul(ConditionText(h));
    var text := LastText(h.handler) + [NUL] + a;
    g := With(h, WithLast(h.handler, text), b);
    SameHead(h.handler, text);
    KeyIsHeadAndTail(g);
    KeyIsHeadAndTail(h);
    RegroupTexts(LastText(h.handler), a, b);
    assert |ConditionText(g)| != |ConditionText(h)|;
  }

  /** A NUL in the handler's text: part of it can move into the condition. */
  lemma HandlerTextMoves(h: Hook) returns (g: Hook)
    requires Printed(h) && NUL in LastText(h.handler)
    ensures Printed(g) && KeyOf(g) == KeyOf(h) && !SameAction(g, h)
  {
    var a, b := CutAtNul(LastText(h.handler));
    g := With(h, WithLast(h.handler, a), b + [NUL] + ConditionText(h));
    SameHead(h.handler, a);
    KeyIsHeadAndTail(g);
    KeyIsHeadAndTail(h);
    RegroupTexts(a, b, ConditionText(h));
  }

  lemma KeyStarts(h: Hook)
    ensures |KeyOf(h)| > 1 && |HandlerKey(h.handler)| > 1
    ensures KeyOf(h)[0] == HandlerKey(h.handler)[0] && KeyOf(h)[1] == HandlerKey(h.handler)[1]
  {
    HandlerKeyHead(h.handler);
  }

  /** The handlers are of one kind; their texts aside. */
  predicate SameKind(g: Handler, h: Handler) {
    match g
    case Command(_, _) => h.Command?
    case Prompt(_) => h.Prompt?
    case Http(_) => h.Http?
    case Agent(_) => h.Agent?
    case ClientCallback(_) => h.ClientCallback?
  }

  lemma SameKeySameKind(g: Hook, h: Hook)
    requires KeyOf(g) == KeyOf(h)
    ensures SameKind(g.handler, h.handler)
  {
    KeyStarts(g);
    KeyStarts(h);
    HandlerKeyHead(g.handler);
    HandlerKeyHead(h.handler);
  }

  lemma CommandKey(h: Hook)
    requires h.handler.Command?
    ensures KeyOf(h) == "cmd:" + (h.handler.shellText + [NUL] + (h.handler.command + [NUL] + ConditionText(h)))
  {
  }

  lemma SameKeySameShell(g: Hook, h: Hook)
    requires Printed(g) && Printed(h) && g.handler.Command? && h.handler.Command? && KeyOf(g) == KeyOf(h)
    ensures g.handler.shellText == h.handler.shellText
  {
    var s, t := g.handler.shellText, h.handler.shellText;
    var x, y := g.handler.command + [NUL] + ConditionText(g), h.handler.command + [NUL] + ConditionText(h);
    CommandKey(g);
    CommandKey(h);
    DropPrefix("cmd:", s + [NUL] + x, t + [NUL] + y);
    SplitAtNul(s, x, t, y);
  }

  lemma SameKeySameHead(g: Hook, h: Hook)
    requires Printed(g) && Printed(h) && KeyOf(g) == KeyOf(h)
    ensures Head(g.handler) == Head(h.handler) && WithLast(g.handler, "") == WithLast(h.handler, "")
  {
    SameKeySameKind(g, h);
    if g.handler.Command? {
      SameKeySameShell(g, h);
    }
  }

  /** A key without NULs in its texts can be read in one way only. */
  lemma NulFreeIsAlone(g: Hook, h: Hook)
    requires Printed(g) && NulFree(h) && KeyOf(g) == KeyOf(h)
    ensures SameAction(g, h)
  {
    SameKeySameHead(g, h);
    KeyIsHeadAndTail(g);
    KeyIsHeadAndTail(h);
    var x, y := LastText(g.handler) + [NUL] + ConditionText(g), LastText(h.handler) + [NUL] + ConditionText(h);
    DropPrefix(Head(h.handler), x, y);
    SplitAtNul(LastText(g.handler), ConditionText(g), LastText(h.handler), ConditionText(h));
    assert g.handler == WithLast(WithLast(g.handler, ""), LastText(g.handler));
    assert h.handler == WithLast(WithLast(h.handler, ""), LastText(h.handler));
  }

  /** A hook shares its key with no hook that does something else exactly when no text of it has a NUL. */
  lemma KeyIsAloneIff(h: Hook)
    requires Printed(h)
    ensures (forall g :: Printed(g) && KeyOf(g) == KeyOf(h) ==> SameAction(g, h)) <==> NulFree(h)
  {
    if NulFree(h) {
      forall g | Printed(g) && KeyOf(g) == KeyOf(h)
        ensures SameAction(g, h)
      {
        NulFreeIsAlone(g, h);
      }
    } else if NUL in ConditionText(h) {
      var g := ConditionMoves(h);
    } else {
      var g := HandlerTextMoves(h);
    }
  }

  /** A prompt with a NUL in it, and a shorter prompt with the rest as its condition. */
  lemma NulMakesTwoHooksOne(h: Hook)
    ensures var g := h.(handler := Prompt("x" + [NUL] + "y"), condition := None);
            var f := With(h, Prompt("x"), "y" + [NUL]);
            KeyOf(g) == KeyOf(f) && !SameAction(g, f)
  {
    var g := h.(handler := Prompt("x" + [NUL] + "y"), condition := None);
    var f := With(h, Prompt("x"), "y" + [NUL]);
    assert KeyOf(g) == "prompt:" + "x" + [NUL] + "y" + [NUL] + "";
    assert KeyOf(f) == "prompt:" + "x" + [NUL] + "y" + [NUL];
    assert |"x" + [NUL] + "y"| != |"x"|;
  }

  // ---------------------------------------------------------------- execution order

  /** Higher scope first, then lower priority first. */
  predicate Before(a: Hook, b: Hook) {
    ScopeRank(a.scope) > ScopeRank(b.scope) || (a.scope == b.scope && a.priority <= b.priority)
  }

  predicate SameClass(a: Hook, b: Hook) {
    a.scope == b.scope && a.priority == b.priority
  }

  ghost predicate Ordered(hooks: seq<Hook>) {
    forall i, j :: 0 <= i < j < |hooks| ==> Before(hooks[i], hooks[j])
  }

  /** The hooks of one scope and priority, in order. */
  function OfClass(hooks: seq<Hook>, c: Hook): seq<Hook> {
    if hooks == [] then []
    else OfClass(hooks[..|hooks| - 1], c) + (if SameClass(hooks[|hooks| - 1], c) then [hooks[|hooks| - 1]] else [])
  }

  ghost predicate SameClasses(s: seq<Hook>, t: seq<Hook>) {
    forall c :: OfClass(s, c) == OfClass(t, c)
  }

  /** `t` is `s` sorted stably: ordered, and nothing moved within a scope and priority. */
  ghost predicate IsStableSort(t: seq<Hook>, s: seq<Hook>) {
    Ordered(t) && SameClasses(t, s)
  }

  /** The scopes in the order in which their hooks run. */
  const RUN_ORDER: seq<Scope> := [Policy, Session, Local, Project, User, Plugin, Builtin]

  /** Of two hooks, the earlier one's scope runs no later, and within one scope its priority is no larger. */
  ghost predicate InRunOrder(hooks: seq<Hook>) {
    forall i, j, p, q ::
      0 <= i < j < |hooks| && 0 <= p < |RUN_ORDER| && 0 <= q < |RUN_ORDER|
      && hooks[i].scope == RUN_ORDER[p] && hooks[j].scope == RUN_ORDER[q] ==>
        p <= q && (p == q ==> hooks[i].priority <= hooks[j].priority)
  }

  lemma PlaceOfScope(s: Scope)
    ensures RUN_ORDER[6 - ScopeRank(s)] == s
  {
  }

  lemma RankAtPlace(p: nat)
    requires p < |RUN_ORDER|
    ensures ScopeRank(RUN_ORDER[p]) == 6 - p
  {
  }

  lemma OrderedIffInRunOrder(hooks: seq<Hook>)
    ensures Ordered(hooks) <==> InRunOrder(hooks)
  {
    if Ordered(hooks) {
      forall i, j, p, q | 0 <= i < j < |hooks| && 0 <= p < |RUN_ORDER| && 0 <= q < |RUN_ORDER|
                          && hooks[i].scope == RUN_ORDER[p] && hooks[j].scope == RUN_ORDER[q]
        ensures p <= q && (p == q ==> hooks[i].priority <= hooks[j].priority)
      {
        RankAtPlace(p);
        RankAtPlace(q);
        assert Before(hooks[i], hooks[j]);
      }
    }
    if InRunOrder(hooks) {
      forall i, j | 0 <= i < j < |hooks|
        ensures Before(hooks[i], hooks[j])
      {
        PlaceOfScope(hooks[i].scope);
        PlaceOfScope(hooks[j].scope);
      }
    }
  }

  function Insert(t: seq<Hook>, h: Hook): seq<Hook> {
    if t == [] || Before(t[|t| - 1], h) then t + [h]
    else Insert(t[..|t| - 1], h) + [t[|t| - 1]]
  }

  function StableSort(s: seq<Hook>): seq<Hook> {
    if s == [] then [] else Insert(StableSort(s[..|s| - 1]), s[|s| - 1])
  }

  lemma {:induction false} InsertMembers(t: seq<Hook>, h: Hook)
    ensures |Insert(t, h)| == |t| + 1
    ensures forall x :: x in Insert(t, h) ==> x in t || x == h
  {
    if t != [] && !Before(t[|t| - 1], h) {
      InsertMembers(t[..|t| - 1], h);
    }
  }

  lemma {:induction false} InsertOrdered(t: seq<Hook>, h: Hook)
    requires Ordered(t)
    ensures Ordered(Insert(t, h))
  {
    if t != [] && !Before(t[|t| - 1], h) {
      var last := t[|t| - 1];
      var front := t[..|t| - 1];
      InsertOrdered(front, h);
      InsertMembers(front, h);
      forall i | 0 <= i < |Insert(front, h)|
        ensures Before(Insert(front, h)[i], last)
      {
        assert Insert(front, h)[i] in Insert(front, h);
      }
    } else if t != [] {
      assert forall i :: 0 <= i < |t| - 1 ==> Before(t[i], t[|t| - 1]);
    }
  }

  lemma {:induction false} InsertStable(t: seq<Hook>, h: Hook, c: Hook)
    ensures OfClass(Insert(t, h), c) == OfClass(t + [h], c)
  {
    if t != [] && !Before(t[|t| - 1], h) {
      var last := t[|t| - 1];
      var front := t[..|t| - 1];
      InsertStable(front, h, c);
    }
  }

  lemma {:induction false} StableSortOrdered(s: seq<Hook>)
    ensures Ordered(StableSort(s))
  {
    if s != [] {
      StableSortOrdered(s[..|s| - 1]);
      InsertOrdered(StableSort(s[..|s| - 1]), s[|s| - 1]);
    }
  }

  lemma {:induction false} StableSortKeepsClasses(s: seq<Hook>, c: Hook)
    ensures OfClass(StableSort(s), c) == OfClass(s, c)
  {
    if s != [] {
      var n := |s| - 1;
      StableSortKeepsClasses(s[..n], c);
      InsertStable(StableSort(s[..n]), s[n], c);
    }
  }

  lemma StableSortIsStable(s: seq<Hook>)
    ensures IsStableSort(StableSort(s), s)
  {
    StableSortOrdered(s);
    forall c
      ensures OfClass(StableSort(s), c) == OfClass(s, c)
    {
      StableSortKeepsClasses(s, c);
    }
  }

  lemma {:induction false} OfClassMembers(s: seq<Hook>, c: Hook)
    ensures forall h :: h in OfClass(s, c) <==> h in s && SameClass(h, c)
  {
    if s != [] {
      OfClassMembers(s[..|s| - 1], c);
      assert s == s[..|s| - 1] + [s[|s| - 1]];
    }
  }

  lemma SameMembers(s: seq<Hook>, t: seq<Hook>, h: Hook)
    requires OfClass(s, h) == OfClass(t, h)
    ensures h in s <==> h in t
  {
    OfClassMembers(s, h);
    OfClassMembers(t, h);
  }

  lemma LastsAgree(s: seq<Hook>, t: seq<Hook>)
    requires Ordered(s) && Ordered(t) && SameClasses(s, t) && s != [] && t != []
    ensures s[|s| - 1] == t[|t| - 1]
  {
    var x, y := s[|s| - 1], t[|t| - 1];
    SameMembers(s, t, x);
    SameMembers(s, t, y);
    assert OfClass(s, x) == OfClass(t, x);
    LastEqual(OfClass(s[..|s| - 1], x), x, OfClass(t[..|t| - 1], x), y);
  }

  lemma LastEqual(a: seq<Hook>, x: Hook, b: seq<Hook>, y: Hook)
    requires a + [x] == b + [y]
    ensures a == b && x == y
  {
    assert |a| == |b| && (a + [x])[|a|] == (b + [y])[|b|];
    assert a == (a + [x])[..|a|] && b == (b + [y])[..|b|];
  }

  lemma FrontsAgree(s: seq<Hook>, t: seq<Hook>, h: Hook)
    requires SameClasses(s + [h], t + [h])
    ensures SameClasses(s, t)
  {
    forall c
      ensures OfClass(s, c) == OfClass(t, c)
    {
      assert OfClass(s + [h], c) == OfClass(t + [h], c);
      if SameClass(h, c) {
        LastEqual(OfClass(s, c), h, OfClass(t, c), h);
      } else {
        assert OfClass(s, c) + [] == OfClass(s, c) && OfClass(t, c) + [] == OfClass(t, c);
      }
    }
  }

  /** A stable sort is unique: no other answer is ordered and keeps each class in place. */
  lemma {:induction false} StableSortIsUnique(s: seq<Hook>, t: seq<Hook>)
    requires Ordered(s) && Ordered(t) && SameClasses(s, t)
    ensures s == t
    decreases |s|
  {
    if s != [] {
      SameMembers(s, t, s[0]);
    }
    if t != [] {
      SameMembers(s, t, t[0]);
    }
    if s != [] && t != [] {
      LastsAgree(s, t);
      assert s == s[..|s| - 1] + [s[|s| - 1]] && t == t[..|t| - 1] + [t[|t| - 1]];
      FrontsAgree(s[..|s| - 1], t[..|t| - 1], s[|s| - 1]);
      StableSortIsUnique(s[..|s| - 1], t[..|t| - 1]);
    }
  }
}
