/**
  The shared task list: its claim rule, the scan by which an idle teammate looks for work, and
  when repeated scanning finishes the list. Tasks are keyed by the numeric id the store assigns;
  the scan visits them in ascending id order.
*/
module TaskList {
  import opened Prelude

  /** Teammates; their names only ever serve to tell them apart. */
  type Name = nat

  type Id = int

  datatype Status = Pending | InProgress | Completed

  datatype Task = Task(status: Status, owner: Option<Name>, blockedBy: seq<Id>)

  type Tasks = map<Id, Task>

  predicate Open(tasks: Tasks, id: Id) {
    id in tasks && tasks[id].status != Completed
  }

  predicate Unblocked(tasks: Tasks, t: Task) {
    forall b :: b in t.blockedBy ==> !Open(tasks, b)
  }

  /** The claimant owns some other task that is not finished. */
  predicate BusyElsewhere(tasks: Tasks, id: Id, claimant: Name) {
    exists j :: j in tasks && j != id && Open(tasks, j) && tasks[j].owner == Some(claimant)
  }

  /** When a claim succeeds: the store's checks, all made under the list lock. */
  predicate Claimable(tasks: Tasks, id: Id, claimant: Name) {
    && Open(tasks, id)
    && (tasks[id].owner == None || tasks[id].owner == Some(claimant))
    && Unblocked(tasks, tasks[id])
    && !BusyElsewhere(tasks, id, claimant)
  }

  /** What the scan looks for in its snapshot before it tries to claim. */
  predicate Available(tasks: Tasks, id: Id) {
    id in tasks && tasks[id].status == Pending && tasks[id].owner == None && Unblocked(tasks, tasks[id])
  }

  /** What a claimant sees of a task: nobody else has it. */
  ghost predicate MineOrFree(tasks: Tasks, id: Id, claimant: Name) {
    id in tasks && (tasks[id].owner == None || tasks[id].owner == Some(claimant))
  }

  /** One of the blockers the task lists is a task that is pending or in progress. */
  ghost predicate HasUnfinishedBlocker(tasks: Tasks, id: Id)
    requires id in tasks
  {
    exists b :: b in tasks[id].blockedBy && b in tasks && tasks[b].status in {Pending, InProgress}
  }

  /** The claimant has another task that is pending or in progress. */
  ghost predicate HoldsAnother(tasks: Tasks, id: Id, claimant: Name) {
    exists j :: j in tasks && j != id && tasks[j].owner == Some(claimant) && tasks[j].status in {Pending, InProgress}
  }

  /** A task to hand out: pending, nobody's, and every blocker it lists is completed or gone. */
  ghost predicate UpForGrabs(tasks: Tasks, id: Id) {
    && id in tasks && tasks[id].status == Pending && tasks[id].owner == None
    && forall b :: b in tasks[id].blockedBy && b in tasks ==> tasks[b].status == Completed
  }

  datatype ClaimOutcome = Success | TaskNotFound | AlreadyClaimed | AlreadyResolved | Blocked | AgentBusy

  class TaskListStore {
    var tasks: Tasks

    constructor (tasks: Tasks)
      ensures this.tasks == tasks
    {
      this.tasks := tasks;
    }

    method ClaimTask(id: Id, claimant: Name) returns (outcome: ClaimOutcome)
      modifies this
      ensures outcome == Success <==> Claimable(old(tasks), id, claimant)
      ensures tasks == if outcome == Success
                       then old(tasks)[id := old(tasks)[id].(owner := Some(claimant))] else old(tasks)
      ensures outcome == TaskNotFound <==> id !in old(tasks)
      ensures outcome == AlreadyClaimed <==>
                id in old(tasks) && old(tasks)[id].owner.Some? && old(tasks)[id].owner != Some(claimant)
      ensures outcome == AlreadyResolved <==>
                MineOrFree(old(tasks), id, claimant) && old(tasks)[id].status == Completed
      ensures outcome == Blocked <==>
                && MineOrFree(old(tasks), id, claimant) && old(tasks)[id].status != Completed
                && HasUnfinishedBlocker(old(tasks), id)
      ensures outcome == AgentBusy <==>
                && MineOrFree(old(tasks), id, claimant) && old(tasks)[id].status != Completed
                && !HasUnfinishedBlocker(old(tasks), id) && HoldsAnother(old(tasks), id, claimant)
      ensures outcome == Success <==>
                && MineOrFree(old(tasks), id, claimant) && old(tasks)[id].status != Completed
                && !HasUnfinishedBlocker(old(tasks), id) && !HoldsAnother(old(tasks), id, claimant)
    {
      if id !in tasks {
        return TaskNotFound;
      }
      var task := tasks[id];
      if task.owner.Some? && task.owner.value != claimant {
        return AlreadyClaimed;
      }
      if task.status == Completed {
        return AlreadyResolved;
      }
      var i := 0;
      while i < |task.blockedBy|
        invariant 0 <= i <= |task.blockedBy|
        invariant forall k :: 0 <= k < i ==> !Open(tasks, task.blockedBy[k])
      {
        if Open(tasks, task.blockedBy[i]) {
          return Blocked;
        }
        i := i + 1;
      }
      var others := set j | j in tasks && tasks[j].status != Completed && tasks[j].owner == Some(claimant) && j != id;
      if others != {} {
        var j :| j in others;
        assert Open(tasks, j);
        return AgentBusy;
      }
      assert forall j :: j in tasks && Open(tasks, j) && tasks[j].owner == Some(claimant) && j != id ==> j in others;
      tasks := tasks[id := task.(owner := Some(claimant))];
      outcome := Success;
    }

    method UpdateStatus(id: Id, status: Status)
      modifies this
      ensures tasks == if id in old(tasks) then old(tasks)[id := old(tasks)[id].(status := status)] else old(tasks)
    {
      if id in tasks {
        tasks := tasks[id := tasks[id].(status := status)];
      }
    }

    /** Claims the task and, if that succeeds, starts it. */
    method ClaimAndStart(id: Id, claimant: Name) returns (ok: bool)
      modifies this
      ensures ok <==> Claimable(old(tasks), id, claimant)
      ensures tasks == if ok then old(tasks)[id := old(tasks)[id].(owner := Some(claimant), status := InProgress)]
                       else old(tasks)
    {
      ghost var before := tasks;
      var outcome := ClaimTask(id, claimant);
      ok := outcome == Success;
      if ok {
        UpdateStatus(id, InProgress);
        var taken := before[id].(owner := Some(claimant));
        UpdateTwice(before, id, taken, taken.(status := InProgress));
      }
    }

    /** The idle teammate's scan, undisturbed. */
    method ClaimFirstAvailableTask(claimant: Name) returns (claimed: Option<Id>)
      modifies this
      ensures claimed.Some? ==> IsFirstClaim(old(tasks), claimed.value, claimant)
      ensures claimed.Some? ==>
                tasks == old(tasks)[claimed.value :=
                                      old(tasks)[claimed.value].(owner := Some(claimant), status := InProgress)]
      ensures claimed.None? ==> tasks == old(tasks) && NothingToClaim(old(tasks), claimant)
    {
      var snapshot := tasks;
      var ids := Ascending(snapshot.Keys);
      var i := 0;
      while i < |ids|
        invariant 0 <= i <= |ids|
        invariant tasks == old(tasks) == snapshot
        invariant NothingClaimedBelow(snapshot, ids, i, claimant)
      {
        var id := ids[i];
        if Available(snapshot, id) {
          var ok := ClaimAndStart(id, claimant);
          if ok {
            FirstIsLeast(snapshot, ids, i, claimant);
            return Some(id);
          }
          assert BusyElsewhere(snapshot, id, claimant);
        }
        i := i + 1;
      }
      NothingWasThere(snapshot, ids, claimant);
      claimed := None;
    }
  }

  /** `id` is the lowest available task and the claimant is free to take it. */
  ghost predicate IsFirstClaim(tasks: Tasks, id: Id, claimant: Name) {
    && UpForGrabs(tasks, id) && !HoldsAnother(tasks, id, claimant)
    && forall j :: UpForGrabs(tasks, j) ==> id <= j
  }

  ghost predicate NothingToClaim(tasks: Tasks, claimant: Name) {
    forall j :: UpForGrabs(tasks, j) ==> HoldsAnother(tasks, j, claimant)
  }

  /** Whatever was available among the ids already visited, the claimant was too busy to take. */
  predicate NothingClaimedBelow(tasks: Tasks, ids: seq<Id>, upto: nat, claimant: Name) {
    forall k :: 0 <= k < upto && k < |ids| && Available(tasks, ids[k]) ==> BusyElsewhere(tasks, ids[k], claimant)
  }

  lemma FirstIsLeast(tasks: Tasks, ids: seq<Id>, i: nat, claimant: Name)
    requires i < |ids| && Available(tasks, ids[i]) && !BusyElsewhere(tasks, ids[i], claimant)
    requires forall k, l :: 0 <= k < l < |ids| ==> ids[k] < ids[l]
    requires forall j :: j in tasks ==> j in ids
    requires NothingClaimedBelow(tasks, ids, i, claimant)
    ensures IsFirstClaim(tasks, ids[i], claimant)
  {
    ScanLooksFor(tasks, ids[i], claimant);
    forall j | UpForGrabs(tasks, j)
      ensures ids[i] <= j
    {
      ScanLooksFor(tasks, j, claimant);
      var k :| 0 <= k < |ids| && ids[k] == j;
    }
  }

  lemma NothingWasThere(tasks: Tasks, ids: seq<Id>, claimant: Name)
    requires (forall j :: j in tasks ==> j in ids) && NothingClaimedBelow(tasks, ids, |ids|, claimant)
    ensures NothingToClaim(tasks, claimant)
  {
    forall j | UpForGrabs(tasks, j)
      ensures HoldsAnother(tasks, j, claimant)
    {
      ScanLooksFor(tasks, j, claimant);
      var k :| 0 <= k < |ids| && ids[k] == j;
    }
  }

  /** What the scan and the claim check, in terms of the tasks' states. */
  lemma ScanLooksFor(tasks: Tasks, id: Id, claimant: Name)
    ensures Available(tasks, id) <==> UpForGrabs(tasks, id)
    ensures BusyElsewhere(tasks, id, claimant) <==> HoldsAnother(tasks, id, claimant)
  {
  }

  // ---------------------------------------------------------------- working the list off

  ghost function OpenIds(tasks: Tasks): set<Id> {
    set id | id in tasks && Open(tasks, id)
  }

  /** Nobody is working: every open task is pending and unowned. */
  ghost predicate Ready(tasks: Tasks) {
    forall id :: id in tasks && Open(tasks, id) ==> tasks[id].status == Pending && tasks[id].owner == None
  }

  /** One round: somebody claims an available task and completes it. */
  ghost function Finish(tasks: Tasks, id: Id, worker: Name): Tasks
    requires id in tasks
  {
    tasks[id := tasks[id].(owner := Some(worker), status := Completed)]
  }

  ghost predicate IsWorkRun(tasks: Tasks, picks: seq<Id>, worker: Name)
    decreases |picks|
  {
    picks == [] || (Available(tasks, picks[0]) && IsWorkRun(Finish(tasks, picks[0], worker), picks[1..], worker))
  }

  ghost function After(tasks: Tasks, picks: seq<Id>, worker: Name): Tasks
    requires IsWorkRun(tasks, picks, worker)
    decreases |picks|
  {
    if picks == [] then tasks else After(Finish(tasks, picks[0], worker), picks[1..], worker)
  }

  /** A ring of open tasks, each blocked by the next. */
  ghost predicate IsCycle(tasks: Tasks, ring: seq<Id>) {
    && ring != []
    && (forall i :: 0 <= i < |ring| ==> Open(tasks, ring[i]))
    && (forall i :: 0 <= i < |ring| - 1 ==> ring[i + 1] in tasks[ring[i]].blockedBy)
    && ring[0] in tasks[ring[|ring| - 1]].blockedBy
  }

  ghost predicate Acyclic(tasks: Tasks) {
    forall ring :: !IsCycle(tasks, ring)
  }

  /** A member of a ring always has an open blocker, so the scan never offers it. */
  lemma CycleMemberUnavailable(tasks: Tasks, ring: seq<Id>, id: Id)
    requires IsCycle(tasks, ring) && id in ring
    ensures !Available(tasks, id)
  {
    var i :| 0 <= i < |ring| && ring[i] == id;
    if i < |ring| - 1 {
      assert Open(tasks, ring[i + 1]);
    } else {
      assert Open(tasks, ring[0]);
    }
  }

  lemma {:induction false} CycleSurvives(tasks: Tasks, picks: seq<Id>, worker: Name, ring: seq<Id>)
    requires IsWorkRun(tasks, picks, worker) && IsCycle(tasks, ring)
    ensures IsCycle(After(tasks, picks, worker), ring)
    decreases |picks|
  {
    if picks != [] {
      if picks[0] in ring {
        CycleMemberUnavailable(tasks, ring, picks[0]);
      }
      CycleSurvives(Finish(tasks, picks[0], worker), picks[1..], worker, ring);
    }
  }

  /** Some task of `ids` blocks `id`. */
  ghost predicate HeldBack(tasks: Tasks, ids: set<Id>, id: Id) {
    id in tasks && exists b :: b in ids && b in tasks[id].blockedBy
  }

  /** Every task of the set is open and waits for another of the set. */
  ghost predicate MutualWait(tasks: Tasks, ids: set<Id>) {
    forall x :: x in ids ==> Open(tasks, x) && HeldBack(tasks, ids, x)
  }

  ghost function BlockerIn(tasks: Tasks, ids: set<Id>, id: Id): (b: Id)
    requires HeldBack(tasks, ids, id)
    ensures b in ids && b in tasks[id].blockedBy
  {
    var b :| b in ids && b in tasks[id].blockedBy;
    b
  }

  /** Each task of the walk is open and blocked by the next. */
  ghost predicate IsWalk(tasks: Tasks, w: seq<Id>) {
    && (forall i :: 0 <= i < |w| ==> Open(tasks, w[i]))
    && (forall i :: 0 <= i < |w| - 1 ==> w[i + 1] in tasks[w[i]].blockedBy)
  }

  lemma {:induction false} WalkOn(tasks: Tasks, ids: set<Id>, id: Id, steps: nat) returns (w: seq<Id>)
    requires id in ids && MutualWait(tasks, ids)
    ensures |w| == steps + 1 && w[0] == id && IsWalk(tasks, w)
    ensures forall x :: x in w ==> x in ids
    decreases steps
  {
    w := [id];
    if steps > 0 {
      var rest := WalkOn(tasks, ids, BlockerIn(tasks, ids, id), steps - 1);
      w := [id] + rest;
      assert forall i :: 0 < i < |w| ==> w[i] == rest[i - 1];
    }
  }

  lemma MutualWaitIsACycle(tasks: Tasks, ids: set<Id>)
    requires ids != {} && MutualWait(tasks, ids)
    ensures !Acyclic(tasks)
  {
    var id := Member(ids);
    var w := WalkOn(tasks, ids, id, |ids|);
    if Distinct(w) {
      DistinctFits(w, ids);
      assert false;
    }
    var i, j := Repetition(w);
    ReturningWalkIsACycle(tasks, w, i, j);
  }

  lemma ReturningWalkIsACycle(tasks: Tasks, w: seq<Id>, i: nat, j: nat)
    requires i < j < |w| && w[i] == w[j] && IsWalk(tasks, w)
    ensures IsCycle(tasks, w[i..j])
  {
    var ring := w[i..j];
    forall k | 0 <= k < |ring| - 1
      ensures ring[k + 1] in tasks[ring[k]].blockedBy
    {
      assert ring[k] == w[i + k] && ring[k + 1] == w[(i + k) + 1];
    }
    assert w[(j - 1) + 1] in tasks[w[j - 1]].blockedBy;
  }

  lemma {:induction false} RunKeepsShape(tasks: Tasks, picks: seq<Id>, worker: Name)
    requires Ready(tasks) && IsWorkRun(tasks, picks, worker)
    ensures var last := After(tasks, picks, worker);
            && Ready(last) && last.Keys == tasks.Keys
            && (forall id :: id in tasks ==> last[id].blockedBy == tasks[id].blockedBy)
            && OpenIds(last) <= OpenIds(tasks)
            && |OpenIds(last)| == |OpenIds(tasks)| - |picks|
    decreases |picks|
  {
    if picks != [] {
      var next := Finish(tasks, picks[0], worker);
      assert OpenIds(next) == OpenIds(tasks) - {picks[0]} && picks[0] in OpenIds(tasks);
      RunKeepsShape(next, picks[1..], worker);
    }
  }

  /** If open tasks remain but the scan finds none, some of them wait for each other in a ring. */
  lemma StuckMeansCycle(tasks: Tasks)
    requires Ready(tasks) && OpenIds(tasks) != {} && (forall id :: !Available(tasks, id))
    ensures !Acyclic(tasks)
  {
    var ids := OpenIds(tasks);
    forall x | x in ids
      ensures HeldBack(tasks, ids, x)
    {
      assert !Available(tasks, x);
      var b :| b in tasks[x].blockedBy && Open(tasks, b);
    }
    MutualWaitIsACycle(tasks, ids);
  }

  /** The scan finds work as long as any is left, if nobody holds a task and the blockers are acyclic. */
  lemma ScanFindsWork(tasks: Tasks)
    requires Ready(tasks) && Acyclic(tasks) && OpenIds(tasks) != {}
    ensures exists id :: Available(tasks, id)
  {
    if forall id :: !Available(tasks, id) {
      StuckMeansCycle(tasks);
    }
  }

  /**
    Claim-and-complete, repeated until the scan finds nothing, finishes the whole list exactly
    when the open tasks' blockers are acyclic, and then takes one round per open task. It does not
    matter which available task each round picks.
  */
  lemma FinishesIffAcyclic(tasks: Tasks, picks: seq<Id>, worker: Name)
    requires Ready(tasks) && IsWorkRun(tasks, picks, worker)
    requires forall id :: !Available(After(tasks, picks, worker), id)
    ensures OpenIds(After(tasks, picks, worker)) == {} <==> Acyclic(tasks)
    ensures OpenIds(After(tasks, picks, worker)) == {} <==> |picks| == |OpenIds(tasks)|
  {
    var last := After(tasks, picks, worker);
    RunKeepsShape(tasks, picks, worker);
    if ring :| IsCycle(tasks, ring) {
      CycleSurvives(tasks, picks, worker, ring);
      assert ring[0] in OpenIds(last);
    } else if OpenIds(last) != {} {
      StuckMeansCycle(last);
      var ring :| IsCycle(last, ring);
      assert forall i :: 0 <= i < |ring| ==> ring[i] in OpenIds(last);
      assert IsCycle(tasks, ring);
    }
  }
}
