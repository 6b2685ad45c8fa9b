/**
  Any number of teammates scanning, claiming and editing one task list at the same time.

  A scan reads the task files one by one without a lock. A claim runs under the list's lock: it
  reads, checks, and later writes back the record it read. An edit (a status change, an added
  blocker, a new title, a release) runs under the edited task's own lock in the same two steps.
  Claims therefore exclude each other, and edits of one task exclude each other, but nothing
  stops a claim and an edit of the same task from overlapping.
*/
module HandOut {
  import opened Prelude
  import opened TaskList

  datatype Change =
    | SetStatus(status: Status)
    | AddBlocker(blocker: Id)
    | Retitle
    | SetOwner(owner: Name)
    | Release

  function Apply(change: Change, t: Task): Task {
    match change
    case SetStatus(status) => t.(status := status)
    case AddBlocker(b) => if b in t.blockedBy then t else t.(blockedBy := t.blockedBy + [b])
    case Retitle => t
    case SetOwner(owner) => t.(owner := Some(owner))
    case Release => t.(owner := None, status := Pending)
  }

  /** An edit between its read and its write. `overtaken` records that a claim changed the task's
      owner in the meantime. */
  datatype Edit = Edit(id: Id, stale: Task, change: Change, overtaken: bool)

  /** The claim that holds the list lock, between its read and its write. */
  datatype Claim = Claim(claimant: Name, id: Id, stale: Task)

  datatype HandedOut = HandedOut(id: Id, claimant: Name, blockers: seq<Id>)

  datatype World = World(
    tasks: Tasks,
    nextId: Id,
    scans: map<Name, Tasks>,
    claim: Option<Claim>,
    edits: map<nat, Edit>,
    log: seq<HandedOut>)

  datatype Event =
    | Create
    | BeginScan(scanner: Name)
    | ReadEntry(scanner: Name, id: Id)
    | BeginClaim(scanner: Name, id: Id)
    | FinishClaim
    | BeginEdit(editor: nat, id: Id, change: Change)
    | FinishEdit(editor: nat)

  predicate TaskLocked(w: World, id: Id) {
    exists k :: k in w.edits && w.edits[k].id == id
  }

  predicate CanBeginClaim(w: World, c: Name, id: Id) {
    w.claim == None && c in w.scans && Available(w.scans[c], id) && Claimable(w.tasks, id, c)
  }

  predicate CanBeginEdit(w: World, k: nat, id: Id, change: Change) {
    && k !in w.edits && id in w.tasks && !TaskLocked(w, id)
    && (change.AddBlocker? ==> change.blocker in w.tasks)
  }

  function Overtake(edits: map<nat, Edit>, id: Id): map<nat, Edit> {
    map k | k in edits :: if edits[k].id == id then edits[k].(overtaken := true) else edits[k]
  }

  /** Writes back the claimed record and hands the task to the claimant, whose scan ends there. */
  function WriteClaim(w: World): World
    requires w.claim.Some? && w.claim.value.id in w.tasks
  {
    var cl := w.claim.value;
    World(
      w.tasks[cl.id := cl.stale.(owner := Some(cl.claimant))],
      w.nextId,
      w.scans - {cl.claimant},
      None,
      if w.tasks[cl.id].owner == Some(cl.claimant) then w.edits else Overtake(w.edits, cl.id),
      w.log + [HandedOut(cl.id, cl.claimant, cl.stale.blockedBy)])
  }

  function WriteEdit(w: World, k: nat): World
    requires k in w.edits
  {
    var e := w.edits[k];
    w.(tasks := w.tasks[e.id := Apply(e.change, e.stale)], edits := w.edits - {k})
  }

  function Step(w: World, e: Event): World {
    match e
    case Create =>
      if w.claim.Some? || w.nextId in w.tasks then w
      else w.(tasks := w.tasks[w.nextId := Task(Pending, None, [])], nextId := w.nextId + 1)
    case BeginScan(c) =>
      if w.claim.Some? && w.claim.value.claimant == c then w else w.(scans := w.scans[c := map[]])
    case ReadEntry(c, id) =>
      if c !in w.scans || id !in w.tasks || id in w.scans[c] then w
      else w.(scans := w.scans[c := w.scans[c][id := w.tasks[id]]])
    case BeginClaim(c, id) =>
      if CanBeginClaim(w, c, id) then w.(claim := Some(Claim(c, id, w.tasks[id]))) else w
    case FinishClaim =>
      if w.claim.Some? && w.claim.value.id in w.tasks then WriteClaim(w) else w
    case BeginEdit(k, id, change) =>
      if CanBeginEdit(w, k, id, change) then w.(edits := w.edits[k := Edit(id, w.tasks[id], change, false)]) else w
    case FinishEdit(k) =>
      if k in w.edits then WriteEdit(w, k) else w
  }

  /** A list nobody has touched yet: no owners, and blockers that exist. */
  ghost predicate Fresh(tasks: Tasks, nextId: Id) {
    && (forall id :: id in tasks ==> tasks[id].owner == None && id < nextId)
    && (forall id, b :: id in tasks && b in tasks[id].blockedBy ==> b in tasks)
  }

  function Start(tasks: Tasks, nextId: Id): World {
    World(tasks, nextId, map[], None, map[], [])
  }

  function Run(w: World, events: seq<Event>): World
    decreases |events|
  {
    if events == [] then w else Run(Step(w, events[0]), events[1..])
  }

  // ---------------------------------------------------------------- conditions on runs

  /** Only claims assign owners: no edit takes a task away from its owner or gives it to another. */
  ghost predicate OwnersLeftToClaims(e: Event) {
    e.BeginEdit? ==> !e.change.SetOwner? && !e.change.Release?
  }

  ghost predicate AllOwnersLeftToClaims(events: seq<Event>) {
    forall i :: 0 <= i < |events| ==> OwnersLeftToClaims(events[i])
  }

  /** Event `i` writes an edit of the task although a claim has taken the task since the edit read it. */
  ghost predicate WritesLateEdit(w: World, events: seq<Event>, i: nat, id: Id) {
    && i < |events| && events[i].FinishEdit?
    && var u := Run(w, events[..i]);
       events[i].editor in u.edits && u.edits[events[i].editor].id == id && u.edits[events[i].editor].overtaken
  }

  /** Event `i` writes a claim of the task. */
  ghost predicate WritesClaim(w: World, events: seq<Event>, i: nat, id: Id) {
    && i < |events| && events[i].FinishClaim?
    && var u := Run(w, events[..i]);
       u.claim.Some? && u.claim.value.id == id
  }

  lemma {:induction false} RunExtends(w: World, events: seq<Event>, e: Event)
    ensures Run(w, events + [e]) == Step(Run(w, events), e)
    decreases |events|
  {
    if events == [] {
      assert [e][1..] == [];
    } else {
      assert (events + [e])[1..] == events[1..] + [e];
      RunExtends(Step(w, events[0]), events[1..], e);
    }
  }

  lemma RunNext(w: World, events: seq<Event>, n: nat)
    requires n < |events|
    ensures Run(w, events[..n + 1]) == Step(Run(w, events[..n]), events[n])
  {
    assert events[..n + 1] == events[..n] + [events[n]];
    RunExtends(w, events[..n], events[n]);
  }

  // ---------------------------------------------------------------- what every run keeps of the locks

  ghost predicate IdLogged(w: World, id: Id) {
    exists k :: 0 <= k < |w.log| && w.log[k].id == id
  }

  /** An edit that no claim has overtaken is based on the current record; one that was overtaken read
      the task while it was free, and the task was handed out since. */
  ghost predicate EditTracked(w: World, e: Edit) {
    && e.id in w.tasks && !e.change.SetOwner? && !e.change.Release?
    && (!e.overtaken ==> w.tasks[e.id] == e.stale)
    && (e.overtaken ==> e.stale.owner == None && w.tasks[e.id].owner != None && IdLogged(w, e.id))
  }

  ghost predicate EditsTracked(w: World) {
    && (forall k, l :: k in w.edits && l in w.edits && w.edits[k].id == w.edits[l].id ==> k == l)
    && (forall k :: k in w.edits ==> EditTracked(w, w.edits[k]))
  }

  /** Only free tasks are claimed, and they stay free until the claim is written. */
  ghost predicate ClaimIsFree(w: World) {
    w.claim.Some? ==>
      var cl := w.claim.value;
      && cl.id in w.tasks && cl.claimant in w.scans
      && w.tasks[cl.id].owner == None && cl.stale.owner == None
  }

  /** No scan mistakes a task its scanner owns for a free one. */
  ghost predicate ScansKnow(w: World) {
    forall c, id :: c in w.scans && id in w.scans[c] && id in w.tasks && w.scans[c][id].owner == None ==>
      w.tasks[id].owner != Some(c)
  }

  ghost predicate Sane(w: World) {
    EditsTracked(w) && ClaimIsFree(w) && ScansKnow(w)
  }

  lemma EditSurvives(w: World, w': World, e: Edit)
    requires EditTracked(w, e) && e.id in w'.tasks && w'.tasks[e.id] == w.tasks[e.id] && w.log <= w'.log
    ensures EditTracked(w', e)
  {
    if e.overtaken {
      var k :| 0 <= k < |w.log| && w.log[k].id == e.id;
      assert w'.log[k].id == e.id;
    }
  }

  lemma WriteClaimEdits(w: World)
    requires Sane(w) && w.claim.Some?
    ensures EditsTracked(WriteClaim(w))
  {
    var w' := WriteClaim(w);
    var cl := w.claim.value;
    assert w'.log[|w.log|].id == cl.id && IdLogged(w', cl.id);
    forall k | k in w'.edits
      ensures EditTracked(w', w'.edits[k])
    {
      assert EditTracked(w, w.edits[k]);
      if w.edits[k].id != cl.id {
        EditSurvives(w, w', w.edits[k]);
      }
    }
  }

  lemma WriteEditEdits(w: World, k: nat)
    requires Sane(w) && k in w.edits
    ensures EditsTracked(WriteEdit(w, k))
    ensures WriteEdit(w, k).tasks[w.edits[k].id].owner == w.edits[k].stale.owner
    ensures w.edits[k].overtaken ==> !(w.claim.Some? && w.claim.value.id == w.edits[k].id)
  {
    var w' := WriteEdit(w, k);
    assert EditTracked(w, w.edits[k]);
    forall l | l in w'.edits
      ensures EditTracked(w', w'.edits[l])
    {
      assert EditTracked(w, w.edits[l]);
      EditSurvives(w, w', w.edits[l]);
    }
  }

  lemma StepEdits(w: World, e: Event)
    requires Sane(w) && OwnersLeftToClaims(e)
    ensures EditsTracked(Step(w, e))
  {
    var w' := Step(w, e);
    match e
    case FinishClaim => if w.claim.Some? { WriteClaimEdits(w); }
    case FinishEdit(k) => if k in w.edits { WriteEditEdits(w, k); }
    case _ =>
      forall k | k in w.edits
        ensures EditTracked(w', w.edits[k])
      {
        EditSurvives(w, w', w.edits[k]);
      }
  }

  lemma StepSane(w: World, e: Event)
    requires Sane(w) && OwnersLeftToClaims(e)
    ensures Sane(Step(w, e))
  {
    StepEdits(w, e);
    if e.FinishEdit? && e.editor in w.edits {
      WriteEditEdits(w, e.editor);
      assert EditTracked(w, w.edits[e.editor]);
    }
  }

  lemma {:induction false} RunSane(w: World, events: seq<Event>)
    requires Sane(w) && AllOwnersLeftToClaims(events)
    ensures Sane(Run(w, events))
    decreases |events|
  {
    if events != [] {
      StepSane(w, events[0]);
      RunSane(Step(w, events[0]), events[1..]);
    }
  }

  /** Writing an edit loses the task's owner exactly when a claim changed the owner after the
      edit had read the task. */
  lemma EditLosesOwnerIffOvertaken(tasks: Tasks, nextId: Id, events: seq<Event>, k: nat)
    requires Fresh(tasks, nextId) && AllOwnersLeftToClaims(events)
    requires k in Run(Start(tasks, nextId), events).edits
    ensures var w := Run(Start(tasks, nextId), events);
            var id := w.edits[k].id;
            && id in w.tasks
            && (Step(w, FinishEdit(k)).tasks[id].owner != w.tasks[id].owner <==> w.edits[k].overtaken)
  {
    RunSane(Start(tasks, nextId), events);
    var w := Run(Start(tasks, nextId), events);
    assert EditTracked(w, w.edits[k]);
    WriteEditEdits(w, k);
  }

  // ---------------------------------------------------------------- when a task is handed out twice

  ghost predicate HandedOutTwice(log: seq<HandedOut>, id: Id) {
    exists i, j :: 0 <= i < j < |log| && log[i].id == id && log[j].id == id
  }

  /** The step writes an edit that changes the task's owner. */
  predicate ChangesOwner(u: World, e: Event, id: Id) {
    && e.FinishEdit? && e.editor in u.edits && u.edits[e.editor].id == id && id in u.tasks
    && Step(u, e).tasks[id].owner != u.tasks[id].owner
  }

  ghost predicate WritesOwnerChange(w: World, events: seq<Event>, i: nat, id: Id) {
    i < |events| && ChangesOwner(Run(w, events[..i]), events[i], id)
  }

  ghost predicate ClaimedBefore(w: World, events: seq<Event>, n: nat, id: Id) {
    exists i :: 0 <= i < n && WritesClaim(w, events, i, id)
  }

  /** Among the first `n` events, a claim of the task and later an edit that changes its owner are written. */
  ghost predicate MovedBefore(w: World, events: seq<Event>, n: nat, id: Id) {
    exists j :: 0 <= j < n && ClaimedBefore(w, events, j, id) && WritesOwnerChange(w, events, j, id)
  }

  /** And after those another claim of it. */
  ghost predicate ClaimedAgain(w: World, events: seq<Event>, n: nat, id: Id) {
    exists k :: 0 <= k < n && MovedBefore(w, events, k, id) && WritesClaim(w, events, k, id)
  }

  ghost predicate ClaimExists(w: World) {
    w.claim.Some? ==> w.claim.value.id in w.tasks
  }

  /** The task has an owner whose scan does not take it for free, and nobody is claiming it. */
  ghost predicate Settled(w: World, id: Id) {
    && id in w.tasks && w.tasks[id].owner.Some?
    && !(w.claim.Some? && w.claim.value.id == id)
    && var c := w.tasks[id].owner.value;
       c in w.scans && id in w.scans[c] ==> w.scans[c][id].owner != None
  }

  /** Nobody can claim a settled task: the owner's own scan would have to show it free. */
  lemma StepSettled(u: World, e: Event, id: Id)
    requires Settled(u, id) && ClaimExists(u) && !ChangesOwner(u, e, id)
    ensures Settled(Step(u, e), id)
  {
    if e.BeginClaim? && e.id == id {
      assert !CanBeginClaim(u, e.scanner, id);
    }
  }

  /** Once claimed a task is settled until an edit changes its owner. */
  ghost predicate History(w: World, events: seq<Event>, n: nat, id: Id)
    requires n <= |events|
  {
    var u := Run(w, events[..n]);
    && ClaimExists(u)
    && (IdLogged(u, id) <==> ClaimedBefore(w, events, n, id))
    && (IdLogged(u, id) && !MovedBefore(w, events, n, id) ==> Settled(u, id))
    && (HandedOutTwice(u.log, id) <==> ClaimedAgain(w, events, n, id))
  }

  lemma HistoryNext(w: World, events: seq<Event>, n: nat, id: Id)
    requires n < |events|
    ensures ClaimedBefore(w, events, n + 1, id) <==> ClaimedBefore(w, events, n, id) || WritesClaim(w, events, n, id)
    ensures MovedBefore(w, events, n + 1, id) <==>
              MovedBefore(w, events, n, id) || (ClaimedBefore(w, events, n, id) && WritesOwnerChange(w, events, n, id))
    ensures ClaimedAgain(w, events, n + 1, id) <==>
              ClaimedAgain(w, events, n, id) || (MovedBefore(w, events, n, id) && WritesClaim(w, events, n, id))
  {
  }

  lemma MovedWasClaimed(w: World, events: seq<Event>, n: nat, id: Id)
    requires MovedBefore(w, events, n, id)
    ensures ClaimedBefore(w, events, n, id)
  {
    var j :| 0 <= j < n && ClaimedBefore(w, events, j, id) && WritesOwnerChange(w, events, j, id);
    var i :| 0 <= i < j && WritesClaim(w, events, i, id);
  }

  lemma LogNext(u: World, u': World, id: Id, h: HandedOut)
    requires u'.log == u.log + [h]
    ensures IdLogged(u', id) <==> IdLogged(u, id) || h.id == id
    ensures HandedOutTwice(u'.log, id) <==> HandedOutTwice(u.log, id) || (IdLogged(u, id) && h.id == id)
  {
    forall k | 0 <= k < |u.log|
      ensures u'.log[k] == u.log[k]
    {}
    assert u'.log[|u.log|] == h;
  }

  /** A step logs the task exactly when it writes a claim of it, which settles it. */
  lemma StepLogs(u: World, e: Event, id: Id)
    requires ClaimExists(u)
    ensures var u' := Step(u, e);
            var claims := e.FinishClaim? && u.claim.Some? && u.claim.value.id == id;
            && ClaimExists(u')
            && (IdLogged(u', id) <==> IdLogged(u, id) || claims)
            && (HandedOutTwice(u'.log, id) <==> HandedOutTwice(u.log, id) || (IdLogged(u, id) && claims))
            && (claims ==> Settled(u', id))
  {
    var u' := Step(u, e);
    if e.FinishClaim? && u.claim.Some? {
      LogNext(u, u', id, u'.log[|u.log|]);
    } else {
      assert u'.log == u.log;
    }
  }

  lemma {:induction false} HistoryKept(w: World, events: seq<Event>, n: nat, id: Id)
    requires w.claim == None && w.log == [] && n <= |events|
    ensures History(w, events, n, id)
  {
    if n == 0 {
      assert events[..0] == [];
    } else {
      var m := n - 1;
      var u := Run(w, events[..m]);
      HistoryKept(w, events, m, id);
      RunNext(w, events, m);
      HistoryNext(w, events, m, id);
      StepLogs(u, events[m], id);
      if MovedBefore(w, events, m, id) {
        MovedWasClaimed(w, events, m, id);
      } else if IdLogged(u, id) && !ChangesOwner(u, events[m], id) {
        StepSettled(u, events[m], id);
      }
    }
  }

  /**
    Exactly when the code hands a task out twice, over every interleaving of scans, claims and edits from any
    list: when a claim of it is written, later an edit that changes its owner, and later another claim of it.
  */
  lemma HandedOutTwiceIff(tasks: Tasks, nextId: Id, events: seq<Event>, id: Id)
    ensures HandedOutTwice(Run(Start(tasks, nextId), events).log, id) <==>
              ClaimedAgain(Start(tasks, nextId), events, |events|, id)
  {
    HistoryKept(Start(tasks, nextId), events, |events|, id);
    assert events[..|events|] == events;
  }

  /** In particular, while no edit changes an owner no task is handed out twice: not to two claimants, and not
      twice to one. */
  lemma HandedOutAtMostOnce(tasks: Tasks, nextId: Id, events: seq<Event>)
    requires forall i, id :: 0 <= i < |events| ==> !WritesOwnerChange(Start(tasks, nextId), events, i, id)
    ensures var log := Run(Start(tasks, nextId), events).log;
            forall i, j :: 0 <= i < j < |log| ==> log[i].id != log[j].id
  {
    var log := Run(Start(tasks, nextId), events).log;
    forall i, j | 0 <= i < j < |log|
      ensures log[i].id != log[j].id
    {
      HandedOutTwiceIff(tasks, nextId, events, log[i].id);
    }
  }

  /** A late edit of the task, and later a claim of it, are written. */
  ghost predicate LateThenClaimed(w: World, events: seq<Event>, id: Id) {
    exists j, k :: 0 <= j < k && WritesLateEdit(w, events, j, id) && WritesClaim(w, events, k, id)
  }

  /** Where only claims assign owners, the edits that change one are exactly the late ones, and those come after
      a claim. */
  lemma LateChangesOwner(tasks: Tasks, nextId: Id, events: seq<Event>, i: nat, id: Id)
    requires Fresh(tasks, nextId) && AllOwnersLeftToClaims(events) && i < |events|
    ensures var w := Start(tasks, nextId);
            && (WritesOwnerChange(w, events, i, id) <==> WritesLateEdit(w, events, i, id))
            && (WritesLateEdit(w, events, i, id) ==> ClaimedBefore(w, events, i, id))
  {
    var w := Start(tasks, nextId);
    var u := Run(w, events[..i]);
    RunSane(w, events[..i]);
    HistoryKept(w, events, i, id);
    if events[i].FinishEdit? && events[i].editor in u.edits && u.edits[events[i].editor].id == id {
      EditLosesOwnerIffOvertaken(tasks, nextId, events[..i], events[i].editor);
      assert EditTracked(u, u.edits[events[i].editor]);
    }
  }

  /** There, a task is handed out twice exactly when an edit that a claim of it had overtaken is written back,
      and later another claim of it is. */
  lemma LateEditHandsOutTwiceIff(tasks: Tasks, nextId: Id, events: seq<Event>, id: Id)
    requires Fresh(tasks, nextId) && AllOwnersLeftToClaims(events)
    ensures HandedOutTwice(Run(Start(tasks, nextId), events).log, id) <==>
              LateThenClaimed(Start(tasks, nextId), events, id)
  {
    var w := Start(tasks, nextId);
    HandedOutTwiceIff(tasks, nextId, events, id);
    forall j: nat | j < |events|
      ensures WritesOwnerChange(w, events, j, id) <==> WritesLateEdit(w, events, j, id)
      ensures WritesLateEdit(w, events, j, id) ==> ClaimedBefore(w, events, j, id)
    {
      LateChangesOwner(tasks, nextId, events, j, id);
    }
    if j, k :| 0 <= j < k && WritesLateEdit(w, events, j, id) && WritesClaim(w, events, k, id) {
      assert MovedBefore(w, events, k, id);
    }
    if k :| 0 <= k < |events| && MovedBefore(w, events, k, id) && WritesClaim(w, events, k, id) {
      var j :| 0 <= j < k && ClaimedBefore(w, events, j, id) && WritesOwnerChange(w, events, j, id);
    }
  }

  const LONE_TASK := Task(Pending, None, [])

  lemma Then(w: World, events: seq<Event>, s: World, e: Event, s': World) returns (longer: seq<Event>)
    requires Run(w, events) == s && AllOwnersLeftToClaims(events) && OwnersLeftToClaims(e) && Step(s, e) == s'
    ensures longer == events + [e] && Run(w, longer) == s' && AllOwnersLeftToClaims(longer)
  {
    longer := events + [e];
    RunExtends(w, events, e);
  }

  /** Two teammates have read the one free task, and a title edit of it is under way. */
  lemma RaceBegins() returns (events: seq<Event>)
    ensures AllOwnersLeftToClaims(events)
    ensures Run(Start(map[1 := LONE_TASK], 2), events) ==
            World(map[1 := LONE_TASK], 2, map[0 := map[1 := LONE_TASK], 1 := map[1 := LONE_TASK]],
                  None, map[0 := Edit(1, LONE_TASK, Retitle, false)], [])
  {
    var w := Start(map[1 := LONE_TASK], 2);
    var w1 := w.(scans := map[0 := map[]]);
    var w2 := w.(scans := map[0 := map[1 := LONE_TASK]]);
    var w3 := w.(scans := map[0 := map[1 := LONE_TASK], 1 := map[]]);
    var w4 := w.(scans := map[0 := map[1 := LONE_TASK], 1 := map[1 := LONE_TASK]]);
    events := Then(w, [], w, BeginScan(0), w1);
    events := Then(w, events, w1, ReadEntry(0, 1), w2);
    events := Then(w, events, w2, BeginScan(1), w3);
    events := Then(w, events, w3, ReadEntry(1, 1), w4);
    events := Then(w, events, w4, BeginEdit(0, 1, Retitle), w4.(edits := map[0 := Edit(1, LONE_TASK, Retitle, false)]));
  }

  /** The first teammate's claim is written, and then the edit, which frees the task again. */
  lemma RaceGoesOn() returns (events: seq<Event>)
    ensures AllOwnersLeftToClaims(events)
    ensures Run(Start(map[1 := LONE_TASK], 2), events) ==
            World(map[1 := LONE_TASK], 2, map[1 := map[1 := LONE_TASK]], None, map[], [HandedOut(1, 0, [])])
  {
    var w := Start(map[1 := LONE_TASK], 2);
    events := RaceBegins();
    var w5 := Run(w, events);
    var w6 := w5.(claim := Some(Claim(0, 1, LONE_TASK)));
    var w7 := World(map[1 := LONE_TASK.(owner := Some(0))], 2, map[1 := map[1 := LONE_TASK]], None,
                    map[0 := Edit(1, LONE_TASK, Retitle, true)], [HandedOut(1, 0, [])]);
    assert CanBeginClaim(w5, 0, 1);
    events := Then(w, events, w5, BeginClaim(0, 1), w6);
    events := Then(w, events, w6, FinishClaim, w7);
    events := Then(w, events, w7, FinishEdit(0), w7.(tasks := map[1 := LONE_TASK], edits := map[]));
  }

  /** A title edit that overlaps a claim erases the new owner, and the same task is then handed to a
      second teammate. */
  lemma OverlappingEditHandsOutTwice() returns (events: seq<Event>)
    ensures AllOwnersLeftToClaims(events)
    ensures Run(Start(map[1 := LONE_TASK], 2), events).log == [HandedOut(1, 0, []), HandedOut(1, 1, [])]
  {
    var w := Start(map[1 := LONE_TASK], 2);
    events := RaceGoesOn();
    var w8 := Run(w, events);
    var w9 := w8.(claim := Some(Claim(1, 1, LONE_TASK)));
    assert CanBeginClaim(w8, 1, 1);
    events := Then(w, events, w8, BeginClaim(1, 1), w9);
    events := Then(w, events, w9, FinishClaim, Step(w9, FinishClaim));
  }

  // ---------------------------------------------------------------- undisturbed

  function ReadAll(c: Name, ids: seq<Id>): seq<Event> {
    seq(|ids|, i requires 0 <= i < |ids| => ReadEntry(c, ids[i]))
  }

  /** The scan's snapshot holds exactly what was read of the list. */
  ghost predicate HasRead(w: World, c: Name, read: set<Id>) {
    && c in w.scans && (forall id :: id in w.scans[c] <==> id in w.tasks && id in read)
    && forall id :: id in w.scans[c] ==> w.scans[c][id] == w.tasks[id]
  }

  lemma {:induction false} ReadsAll(w: World, c: Name, ids: seq<Id>, read: set<Id>)
    requires HasRead(w, c, read)
    ensures var u := Run(w, ReadAll(c, ids));
            u == w.(scans := u.scans) && HasRead(u, c, read + set id | id in ids)
    decreases |ids|
  {
    if ids == [] {
      assert read + (set id | id in ids) == read;
    } else {
      var w' := Step(w, ReadEntry(c, ids[0]));
      assert HasRead(w', c, read + {ids[0]});
      ReadsAll(w', c, ids[1..], read + {ids[0]});
      assert ReadAll(c, ids)[1..] == ReadAll(c, ids[1..]);
      assert read + {ids[0]} + (set id | id in ids[1..]) == read + set id | id in ids;
    }
  }

  /** A scan reads no entry twice: until the scan ends or is begun again, the entry is what it was when read. */
  lemma {:induction false} EntriesAreReadOnce(w: World, c: Name, id: Id, events: seq<Event>)
    requires c in w.scans && id in w.scans[c]
    requires forall i :: 0 <= i < |events| ==> events[i] != BeginScan(c)
    ensures var u := Run(w, events);
            c in u.scans ==> id in u.scans[c] && u.scans[c][id] == w.scans[c][id]
    decreases |events|
  {
    if events != [] {
      var w' := Step(w, events[0]);
      if c in w'.scans {
        EntriesAreReadOnce(w', c, id, events[1..]);
      } else {
        NoScanBegins(w', c, events[1..]);
      }
    }
  }

  lemma {:induction false} NoScanBegins(w: World, c: Name, events: seq<Event>)
    requires c !in w.scans && forall i :: 0 <= i < |events| ==> events[i] != BeginScan(c)
    ensures c !in Run(w, events).scans
    decreases |events|
  {
    if events != [] {
      NoScanBegins(Step(w, events[0]), c, events[1..]);
    }
  }

  /** A whole scan: every entry of the list, read in the order given. */
  function Scan(w: World, c: Name, ids: seq<Id>): World {
    Run(Step(w, BeginScan(c)), ReadAll(c, ids))
  }

  /** A whole claim, and a whole status change. */
  function ClaimNow(w: World, c: Name, id: Id): World {
    Step(Step(w, BeginClaim(c, id)), FinishClaim)
  }

  function EditNow(w: World, k: nat, id: Id, change: Change): World {
    Step(Step(w, BeginEdit(k, id, change)), FinishEdit(k))
  }

  lemma ScanMeaning(w: World, c: Name, ids: seq<Id>)
    requires w.claim == None && forall id :: id in w.tasks ==> id in ids
    ensures var u := Scan(w, c, ids);
            && u == w.(scans := u.scans) && c in u.scans
            && forall id :: Available(w.tasks, id) ==> Available(u.scans[c], id)
  {
    var begun := Step(w, BeginScan(c));
    ReadsAll(begun, c, ids, {});
  }

  /** With nothing in between, a scan, a claim of what it found and the status change that follows leave the
      list as the teammate's own loop does: the task is the claimant's and in progress, or nothing changes. */
  lemma UndisturbedScan(w: World, c: Name, k: nat, ids: seq<Id>, id: Id)
    requires w.claim == None && k !in w.edits && !TaskLocked(w, id)
    requires (forall i :: i in w.tasks ==> i in ids) && Available(w.tasks, id)
    ensures var scanned := Scan(w, c, ids);
            var claimed := ClaimNow(scanned, c, id);
            && scanned.tasks == w.tasks
            && claimed.tasks ==
               (if Claimable(w.tasks, id, c) then w.tasks[id := w.tasks[id].(owner := Some(c))] else w.tasks)
            && (Claimable(w.tasks, id, c) ==>
                  EditNow(claimed, k, id, SetStatus(InProgress)).tasks ==
                  w.tasks[id := w.tasks[id].(owner := Some(c), status := InProgress)])
  {
    ScanMeaning(w, c, ids);
    var scanned := Scan(w, c, ids);
    var claimed := ClaimNow(scanned, c, id);
    if Claimable(w.tasks, id, c) {
      assert CanBeginClaim(scanned, c, id);
      assert forall j :: j in claimed.edits ==> claimed.edits[j].id != id;
      UpdateTwice(w.tasks, id, claimed.tasks[id], claimed.tasks[id].(status := InProgress));
    }
  }

  /** What a change does to a task, field by field. */
  ghost predicate Changed(change: Change, before: Task, after: Task) {
    && after.status ==
       (if change.SetStatus? then change.status else if change.Release? then Pending else before.status)
    && after.owner ==
       (if change.SetOwner? then Some(change.owner) else if change.Release? then None else before.owner)
    && after.blockedBy ==
       before.blockedBy + (if change.AddBlocker? && change.blocker !in before.blockedBy then [change.blocker] else [])
  }

  /** With nothing in between, an edit does just that to its task, and nothing to anything else; a blocker that
      does not exist is not added. */
  lemma UndisturbedEdit(w: World, k: nat, id: Id, change: Change)
    requires k !in w.edits && id in w.tasks && !TaskLocked(w, id)
    ensures var u := EditNow(w, k, id, change);
            && u == w.(tasks := u.tasks) && u.tasks.Keys == w.tasks.Keys
            && (forall i :: i in w.tasks && i != id ==> u.tasks[i] == w.tasks[i])
            && if change.AddBlocker? && change.blocker !in w.tasks then u == w
               else Changed(change, w.tasks[id], u.tasks[id])
  {
    var u := EditNow(w, k, id, change);
    assert u.edits == w.edits;
    assert w.tasks[id].blockedBy + [] == w.tasks[id].blockedBy;
  }

  /** Unless a claim holds the list, a new task gets a new id and is pending, free and unblocked. */
  lemma CreatedTask(w: World)
    requires w.claim == None && forall id :: id in w.tasks ==> id < w.nextId
    ensures var u := Step(w, Create);
            && u == w.(tasks := u.tasks, nextId := w.nextId + 1)
            && u.tasks.Keys == w.tasks.Keys + {w.nextId} && w.nextId !in w.tasks
            && (forall i :: i in w.tasks ==> u.tasks[i] == w.tasks[i])
            && var t := u.tasks[w.nextId];
               t.status == Pending && t.owner == None && t.blockedBy == []
  {
  }
}
