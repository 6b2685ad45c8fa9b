/**
  In which order the task list hands tasks out, and what a hand-out does not know. Edits and claims of
  one task may overlap as they like; a claim decides by the record it read and writes that record back.
*/
module HandOutOrder {
  import opened Prelude
  import opened TaskList
  import opened HandOut

  // ---------------------------------------------------------------- hand-out order

  /** No edit reopens a task it found completed. */
  ghost predicate ReopensNothing(w: World, e: Event) {
    e.BeginEdit? && e.change.SetStatus? && e.id in w.tasks && w.tasks[e.id].status == Completed ==>
      e.change.status == Completed
  }

  ghost predicate AllReopenNothing(w: World, events: seq<Event>)
    decreases |events|
  {
    events == [] || (ReopensNothing(w, events[0]) && AllReopenNothing(Step(w, events[0]), events[1..]))
  }

  ghost predicate Exist(tasks: Tasks, ids: seq<Id>) {
    forall b :: b in ids ==> b in tasks
  }

  /** Blockers exist, in the files and in the records that pending writes hold. */
  ghost predicate Linked(w: World) {
    && (forall id :: id in w.tasks ==> Exist(w.tasks, w.tasks[id].blockedBy))
    && (forall k :: k in w.edits ==> EditLinked(w.tasks, w.edits[k]))
    && (w.claim.Some? ==> Exist(w.tasks, w.claim.value.stale.blockedBy))
  }

  ghost predicate EditLinked(tasks: Tasks, e: Edit) {
    Exist(tasks, e.stale.blockedBy) && (e.change.AddBlocker? ==> e.change.blocker in tasks)
  }

  /** Pending edits reopen nothing: those based on a record that a claim replaced find an open task there. */
  ghost predicate EditsMild(w: World) {
    forall k :: k in w.edits ==>
      var e := w.edits[k];
      && (e.change.SetStatus? && e.stale.status == Completed ==> e.change.status == Completed)
      && (e.overtaken ==> Open(w.tasks, e.id))
  }

  ghost predicate AllDone(tasks: Tasks, ids: seq<Id>) {
    forall b :: b in ids ==> b in tasks && tasks[b].status == Completed
  }

  /** The claimant has no unfinished task besides `id`. */
  ghost predicate FreeBut(tasks: Tasks, c: Name, id: Id) {
    forall j :: j in tasks && tasks[j].owner == Some(c) && Open(tasks, j) ==> j == id
  }

  /** Somebody owns the task and has not finished it. */
  predicate Holding(tasks: Tasks, id: Id) {
    Open(tasks, id) && tasks[id].owner.Some?
  }

  ghost predicate OneEach(tasks: Tasks) {
    forall i, j :: Holding(tasks, i) && Holding(tasks, j) && tasks[i].owner == tasks[j].owner ==> i == j
  }

  ghost predicate LogInOrder(w: World) {
    && (forall k :: 0 <= k < |w.log| ==> AllDone(w.tasks, w.log[k].blockers))
    && (forall k, l :: 0 <= k < l < |w.log| ==> w.log[l].id !in w.log[k].blockers)
  }

  /** The record a claim holds is open, its blockers are done, no earlier hand-out waited for it, and the
      claimant is free for it, whatever was written to the task meanwhile. */
  ghost predicate ClaimInOrder(w: World) {
    w.claim.Some? ==>
      var cl := w.claim.value;
      && cl.stale.status != Completed && AllDone(w.tasks, cl.stale.blockedBy) && FreeBut(w.tasks, cl.claimant, cl.id)
      && cl.id !in cl.stale.blockedBy
      && (forall k :: 0 <= k < |w.log| ==> cl.id !in w.log[k].blockers)
  }

  ghost predicate InOrder(w: World) {
    LogInOrder(w) && ClaimInOrder(w) && OneEach(w.tasks)
  }

  /** The new list frees or keeps owners, reopens nothing, and adds only unowned tasks. */
  ghost predicate Mild(before: Tasks, after: Tasks) {
    && (forall id :: id in before ==>
          && id in after && (after[id].owner == before[id].owner || after[id].owner == None)
          && (before[id].status == Completed ==> after[id].status == Completed))
    && (forall id :: id in after && id !in before ==> after[id].owner == None)
  }

  lemma MildKeepsOrder(w: World, w': World)
    requires InOrder(w) && Mild(w.tasks, w'.tasks) && w'.log == w.log && w'.claim == w.claim
    ensures InOrder(w')
  {}

  lemma WriteEditMild(w: World, k: nat)
    requires Sane(w) && EditsMild(w) && k in w.edits
    ensures Mild(w.tasks, WriteEdit(w, k).tasks)
  {
    assert EditTracked(w, w.edits[k]);
  }

  lemma WriteClaimKeepsOrder(w: World)
    requires Sane(w) && InOrder(w) && w.claim.Some?
    ensures InOrder(WriteClaim(w))
  {
    var w' := WriteClaim(w);
    var cl := w.claim.value;
    forall k | 0 <= k < |w'.log|
      ensures AllDone(w'.tasks, w'.log[k].blockers)
    {
      if k < |w.log| {
        assert AllDone(w.tasks, w.log[k].blockers) && cl.id !in w.log[k].blockers;
      }
    }
  }

  lemma BeginClaimKeepsOrder(w: World, c: Name, id: Id)
    requires InOrder(w) && Linked(w) && CanBeginClaim(w, c, id)
    ensures InOrder(Step(w, BeginClaim(c, id)))
  {
    assert forall j :: j in w.tasks && j != id && Open(w.tasks, j) ==> w.tasks[j].owner != Some(c);
    forall k | 0 <= k < |w.log|
      ensures id !in w.log[k].blockers
    {
      assert AllDone(w.tasks, w.log[k].blockers);
    }
  }

  lemma StepInOrder(w: World, e: Event)
    requires Sane(w) && Linked(w) && EditsMild(w) && InOrder(w)
    ensures InOrder(Step(w, e))
  {
    match e
    case FinishClaim => if w.claim.Some? { WriteClaimKeepsOrder(w); }
    case BeginClaim(c, id) => if CanBeginClaim(w, c, id) { BeginClaimKeepsOrder(w, c, id); }
    case FinishEdit(k) =>
      if k in w.edits {
        WriteEditMild(w, k);
        MildKeepsOrder(w, WriteEdit(w, k));
      }
    case _ => MildKeepsOrder(w, Step(w, e));
  }

  lemma StepLinked(w: World, e: Event)
    requires Sane(w) && Linked(w)
    ensures Linked(Step(w, e))
  {
    if e.FinishEdit? && e.editor in w.edits {
      assert EditTracked(w, w.edits[e.editor]) && EditLinked(w.tasks, w.edits[e.editor]);
    }
  }

  lemma StepMild(w: World, e: Event)
    requires Sane(w) && EditsMild(w) && InOrder(w) && OwnersLeftToClaims(e) && ReopensNothing(w, e)
    ensures EditsMild(Step(w, e))
  {
    if e.FinishEdit? && e.editor in w.edits {
      assert EditTracked(w, w.edits[e.editor]);
    }
  }

  lemma {:induction false} RunInOrder(w: World, events: seq<Event>)
    requires Sane(w) && Linked(w) && EditsMild(w) && InOrder(w)
    requires AllOwnersLeftToClaims(events) && AllReopenNothing(w, events)
    ensures InOrder(Run(w, events)) && EditsMild(Run(w, events))
    decreases |events|
  {
    if events != [] {
      StepSane(w, events[0]);
      StepLinked(w, events[0]);
      StepMild(w, events[0]);
      StepInOrder(w, events[0]);
      RunInOrder(Step(w, events[0]), events[1..]);
    }
  }

  /**
    In every interleaving in which only claims assign owners and no edit reopens a completed task,
    however edits and claims of one task overlap, the hand-out order is a linear extension of the
    blocker relation the claims read: each blocker read is completed at the hand-out and ever after,
    no later hand-out is a blocker of an earlier one, and no teammate ever holds two unfinished tasks.
  */
  lemma HandOutOrderRespectsBlockers(tasks: Tasks, nextId: Id, events: seq<Event>)
    requires Fresh(tasks, nextId) && AllOwnersLeftToClaims(events) && AllReopenNothing(Start(tasks, nextId), events)
    ensures var w := Run(Start(tasks, nextId), events);
            && (forall k, b :: 0 <= k < |w.log| && b in w.log[k].blockers ==>
                  b in w.tasks && w.tasks[b].status == Completed)
            && (forall k, l :: 0 <= k < l < |w.log| ==> w.log[l].id !in w.log[k].blockers)
            && (forall i, j :: Holding(w.tasks, i) && Holding(w.tasks, j) && w.tasks[i].owner == w.tasks[j].owner ==>
                  i == j)
  {
    RunInOrder(Start(tasks, nextId), events);
    var w := Run(Start(tasks, nextId), events);
    forall k, b | 0 <= k < |w.log| && b in w.log[k].blockers
      ensures b in w.tasks && w.tasks[b].status == Completed
    {
      assert AllDone(w.tasks, w.log[k].blockers);
    }
  }

  // ---------------------------------------------------------------- what the claim did not read

  /** Event `j` writes that change to the task. */
  ghost predicate WritesChange(w: World, events: seq<Event>, j: nat, id: Id, change: Change) {
    && j < |events| && events[j].FinishEdit?
    && var u := Run(w, events[..j]);
       && events[j].editor in u.edits
       && u.edits[events[j].editor].id == id && u.edits[events[j].editor].change == change
  }

  /** A claim has been under way all the time from before event `j` to after event `n - 1`. */
  ghost predicate ClaimOpenFrom(w: World, events: seq<Event>, j: nat, n: nat) {
    n <= |events| && forall m :: j <= m <= n ==> Run(w, events[..m]).claim.Some?
  }

  /** The change was written since the claim under way after `n` events read the task. */
  ghost predicate WrittenSince(w: World, events: seq<Event>, n: nat, id: Id, change: Change) {
    exists j :: 0 <= j < n && WritesChange(w, events, j, id, change) && ClaimOpenFrom(w, events, j, n)
  }

  lemma WrittenNext(w: World, events: seq<Event>, n: nat, id: Id, change: Change)
    requires n < |events| && Run(w, events[..n + 1]).claim.Some?
    ensures WrittenSince(w, events, n + 1, id, change) <==>
              Run(w, events[..n]).claim.Some?
              && (WrittenSince(w, events, n, id, change) || WritesChange(w, events, n, id, change))
  {
    if Run(w, events[..n]).claim.Some? {
      if WrittenSince(w, events, n, id, change) {
        var j :| 0 <= j < n && WritesChange(w, events, j, id, change) && ClaimOpenFrom(w, events, j, n);
        assert ClaimOpenFrom(w, events, j, n + 1);
      }
      if WritesChange(w, events, n, id, change) {
        assert ClaimOpenFrom(w, events, n, n + 1);
      }
      if WrittenSince(w, events, n + 1, id, change) {
        var j :| 0 <= j < n + 1 && WritesChange(w, events, j, id, change) && ClaimOpenFrom(w, events, j, n + 1);
        assert j < n ==> ClaimOpenFrom(w, events, j, n);
      }
    }
  }

  /** How the file of the task under claim differs from what the claim read. */
  ghost predicate ChangedBy(w: World, events: seq<Event>, n: nat, cl: Claim, t: Task) {
    && (forall b :: b in t.blockedBy <==> b in cl.stale.blockedBy || WrittenSince(w, events, n, cl.id, AddBlocker(b)))
    && (t.status == Completed <==> WrittenSince(w, events, n, cl.id, SetStatus(Completed)))
  }

  ghost predicate SinceRead(w: World, events: seq<Event>, n: nat)
    requires n <= |events|
  {
    var u := Run(w, events[..n]);
    u.claim.Some? && u.claim.value.id in u.tasks ==> ChangedBy(w, events, n, u.claim.value, u.tasks[u.claim.value.id])
  }

  /** While a claim is under way the task's file changes only by edits written in full. */
  lemma StepUnderClaim(u: World, e: Event)
    requires Sane(u) && EditsMild(u) && u.claim.Some? && Step(u, e).claim.Some?
    ensures Step(u, e).claim == u.claim
    ensures var id := u.claim.value.id;
            var t, t' := u.tasks[id], Step(u, e).tasks[id];
            if e.FinishEdit? && e.editor in u.edits && u.edits[e.editor].id == id
            then t' == Apply(u.edits[e.editor].change, t)
                 && !(u.edits[e.editor].change.SetStatus? && t.status == Completed && t'.status != Completed)
            else t' == t
  {
    if e.FinishEdit? && e.editor in u.edits {
      assert EditTracked(u, u.edits[e.editor]);
    }
  }

  lemma SinceReadNext(w: World, events: seq<Event>, n: nat)
    requires n < |events| && Sane(Run(w, events[..n])) && EditsMild(Run(w, events[..n])) && SinceRead(w, events, n)
    requires Run(w, events[..n]).claim.Some? && Run(w, events[..n + 1]).claim.Some?
    ensures SinceRead(w, events, n + 1)
  {
    RunNext(w, events, n);
    var u := Run(w, events[..n]);
    var cl := u.claim.value;
    StepUnderClaim(u, events[n]);
    WrittenNext(w, events, n, cl.id, SetStatus(Completed));
    var t, t' := u.tasks[cl.id], Run(w, events[..n + 1]).tasks[cl.id];
    forall b
      ensures b in t'.blockedBy <==> b in cl.stale.blockedBy || WrittenSince(w, events, n + 1, cl.id, AddBlocker(b))
    {
      WrittenNext(w, events, n, cl.id, AddBlocker(b));
    }
  }

  lemma SinceReadStarts(w: World, events: seq<Event>, n: nat)
    requires n < |events| && Run(w, events[..n]).claim.None?
    ensures SinceRead(w, events, n + 1)
  {
    RunNext(w, events, n);
    if Run(w, events[..n + 1]).claim.Some? {
      var id := Run(w, events[..n + 1]).claim.value.id;
      WrittenNext(w, events, n, id, SetStatus(Completed));
      forall b: Id
        ensures !WrittenSince(w, events, n + 1, id, AddBlocker(b))
      {
        WrittenNext(w, events, n, id, AddBlocker(b));
      }
    }
  }

  lemma {:induction false} PrefixReopensNothing(w: World, events: seq<Event>, n: nat)
    requires n <= |events| && AllReopenNothing(w, events)
    ensures AllReopenNothing(w, events[..n])
    decreases n
  {
    if n > 0 {
      PrefixReopensNothing(Step(w, events[0]), events[1..], n - 1);
      assert events[..n][1..] == events[1..][..n - 1];
    }
  }

  lemma {:induction false} SinceReadKept(w: World, events: seq<Event>, n: nat)
    requires Sane(w) && Linked(w) && EditsMild(w) && InOrder(w) && w.claim.None? && n <= |events|
    requires AllOwnersLeftToClaims(events) && AllReopenNothing(w, events)
    ensures SinceRead(w, events, n)
  {
    if n == 0 {
      assert events[..0] == [];
    } else {
      var m := n - 1;
      SinceReadKept(w, events, m);
      if Run(w, events[..m]).claim.None? {
        SinceReadStarts(w, events, m);
      } else if Run(w, events[..n]).claim.Some? {
        PrefixReopensNothing(w, events, m);
        RunSane(w, events[..m]);
        RunInOrder(w, events[..m]);
        SinceReadNext(w, events, m);
      }
    }
  }

  ghost predicate ListsOpenBlocker(tasks: Tasks, id: Id) {
    id in tasks && !Unblocked(tasks, tasks[id])
  }

  /** A blocker that is open now was added since the claim under way after all events read the task. */
  ghost predicate OpenBlockerAdded(w: World, events: seq<Event>, id: Id, tasks: Tasks) {
    exists b :: WrittenSince(w, events, |events|, id, AddBlocker(b)) && Open(tasks, b)
  }

  lemma OpenBlockerIsNew(w: World, events: seq<Event>, cl: Claim, tasks: Tasks)
    requires cl.id in tasks && ChangedBy(w, events, |events|, cl, tasks[cl.id]) && AllDone(tasks, cl.stale.blockedBy)
    ensures ListsOpenBlocker(tasks, cl.id) <==> OpenBlockerAdded(w, events, cl.id, tasks)
  {
  }

  /**
    What a hand-out does not know. When a claim is written, the task's file lists an open blocker exactly
    when an edit that added a still open blocker was written since the claim read the task, and is
    completed exactly when a completion was.
  */
  lemma HandedOutBlindIff(tasks: Tasks, nextId: Id, events: seq<Event>)
    requires Fresh(tasks, nextId) && AllOwnersLeftToClaims(events) && AllReopenNothing(Start(tasks, nextId), events)
    requires Run(Start(tasks, nextId), events).claim.Some?
    ensures var w0 := Start(tasks, nextId);
            var w := Run(w0, events);
            var id := w.claim.value.id;
            && (ListsOpenBlocker(w.tasks, id) <==> OpenBlockerAdded(w0, events, id, w.tasks))
            && id in w.tasks
            && (w.tasks[id].status == Completed <==> WrittenSince(w0, events, |events|, id, SetStatus(Completed)))
  {
    var w0 := Start(tasks, nextId);
    var w := Run(w0, events);
    RunSane(w0, events);
    RunInOrder(w0, events);
    SinceReadKept(w0, events, |events|);
    assert events[..|events|] == events;
    OpenBlockerIsNew(w0, events, w.claim.value, w.tasks);
  }

  /** The write takes such edits back: the file then says what the claim read, open and without open blockers. */
  lemma HandOutTakesBack(tasks: Tasks, nextId: Id, events: seq<Event>)
    requires Fresh(tasks, nextId) && AllOwnersLeftToClaims(events) && AllReopenNothing(Start(tasks, nextId), events)
    requires Run(Start(tasks, nextId), events).claim.Some?
    ensures var w := Run(Start(tasks, nextId), events);
            var cl := w.claim.value;
            var after := Step(w, FinishClaim).tasks;
            && cl.id in w.tasks && after[cl.id] == cl.stale.(owner := Some(cl.claimant))
            && Open(after, cl.id) && !ListsOpenBlocker(after, cl.id)
  {
    var w0 := Start(tasks, nextId);
    RunSane(w0, events);
    RunInOrder(w0, events);
    assert AllDone(Run(w0, events).tasks, Run(w0, events).claim.value.stale.blockedBy);
  }

  const TWO_TASKS: Tasks := map[1 := LONE_TASK, 2 := LONE_TASK]

  /** A change of task 1 written while a claim of it is under way. */
  lemma EditDuringClaim(change: Change) returns (events: seq<Event>)
    requires change == AddBlocker(2) || change == SetStatus(Completed)
    ensures AllOwnersLeftToClaims(events)
    ensures Run(Start(TWO_TASKS, 3), events) ==
            World(TWO_TASKS[1 := Apply(change, LONE_TASK)], 3, map[0 := map[1 := LONE_TASK]],
                  Some(Claim(0, 1, LONE_TASK)), map[], [])
  {
    var w := Start(TWO_TASKS, 3);
    var w1 := w.(scans := map[0 := map[]]);
    var w2 := w.(scans := map[0 := map[1 := LONE_TASK]]);
    var w3 := w2.(claim := Some(Claim(0, 1, LONE_TASK)));
    var w4 := w3.(edits := map[0 := Edit(1, LONE_TASK, change, false)]);
    var w5 := w3.(tasks := TWO_TASKS[1 := Apply(change, LONE_TASK)]);
    assert CanBeginClaim(w2, 0, 1) && CanBeginEdit(w3, 0, 1, change);
    events := Then(w, [], w, BeginScan(0), w1);
    events := Then(w, events, w1, ReadEntry(0, 1), w2);
    events := Then(w, events, w2, BeginClaim(0, 1), w3);
    events := Then(w, events, w3, BeginEdit(0, 1, change), w4);
    events := Then(w, events, w4, FinishEdit(0), w5);
  }

  /** A task is handed out while its file lists an open blocker, which the hand-out then erases. */
  lemma BlockerAddedDuringClaimIsIgnored() returns (events: seq<Event>)
    ensures AllOwnersLeftToClaims(events)
    ensures var w := Run(Start(TWO_TASKS, 3), events);
            && ListsOpenBlocker(w.tasks, 1)
            && Step(w, FinishClaim).log == [HandedOut(1, 0, [])]
            && Step(w, FinishClaim).tasks == TWO_TASKS[1 := LONE_TASK.(owner := Some(0))]
  {
    events := EditDuringClaim(AddBlocker(2));
    var w := Run(Start(TWO_TASKS, 3), events);
    assert 2 in w.tasks[1].blockedBy && Open(w.tasks, 2);
  }

  /** A completion written while the task is being claimed is taken back. */
  lemma CompletionDuringClaimIsReverted() returns (events: seq<Event>)
    ensures AllOwnersLeftToClaims(events)
    ensures var w := Run(Start(TWO_TASKS, 3), events);
            && 1 in w.tasks && w.tasks[1].status == Completed
            && Step(w, FinishClaim).tasks == TWO_TASKS[1 := LONE_TASK.(owner := Some(0))]
  {
    events := EditDuringClaim(SetStatus(Completed));
  }
}
