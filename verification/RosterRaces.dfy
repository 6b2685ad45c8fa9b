/**
  The roster with any number of callers at once. The team file has no lock: an operation reads the whole
  file, later writes the whole file back, and after that repeats its change in the leader's mirror. Leader
  tasks and teammate processes may act between those points. A read or a write may fail; the operation then
  ends there. What one operation makes of the file it read is its `Plan`.
*/
module RosterRaces {
  import opened Prelude
  import opened Roster
  import Names = TeammateNames

  // ---------------------------------------------------------------- what an operation does

  /** What is left to do in the mirror once the file is written. */
  datatype Mirroring = Nothing | Put(members: seq<Member>) | Drop(agentId: string) | Activate(mirror: Mirror)

  /** The operation ends at once, or goes on to write a file, if any, and to update the mirror. */
  datatype Plan = Ends | Goes(file: Option<TeamFile>, mirror: Mirroring)

  function FileKey(op: Op): string {
    Names.Sanitize(op.team)
  }

  function Lookup(disk: map<string, TeamFile>, key: string): Option<TeamFile> {
    if key in disk then Some(disk[key]) else None
  }

  function InitializePlan(op: Op, read: Option<TeamFile>): Plan
    requires op.Initialize?
  {
    var file := if read.Some? then read.value
                else LeaderFile(op.team, op.sessionId, op.agentType, op.model, op.cwd, op.now);
    Goes(if read.Some? then None else Some(file), if op.routeFails then Nothing else Activate(Mirror(op.team, file)))
  }

  function Reserved(op: Op, file: TeamFile): Member
    requires op.Reserve?
  {
    NewMember(NewName(file, op.request, op.fragment), op.team, op.request, op.now)
  }

  function EditPlan(file: TeamFile, key: Key, edit: Edit, mirrored: bool): Plan {
    var at := Find(file.members, key, 0);
    var members := EditFirst(file.members, key, edit);
    if at.None? || at.value >= |members| then Ends
    else Goes(Some(file.(members := members)), if mirrored then Put([members[at.value]]) else Nothing)
  }

  function RollbackPlan(read: Option<TeamFile>, agentId: string): Plan {
    if read.None? || Without(read.value.members, agentId) == read.value.members then Goes(None, Drop(agentId))
    else Goes(Some(read.value.(members := Without(read.value.members, agentId))), Drop(agentId))
  }

  /** What the operation makes of the file it read. */
  function PlanOf(op: Op, read: Option<TeamFile>): Plan {
    match op
    case Initialize(_, _, _, _, _, _, _) => InitializePlan(op, read)
    case Rollback(_, agentId) => RollbackPlan(read, agentId)
    case Reserve(_, _, _, _) =>
      if read.None? then Ends
      else
        var m := Reserved(op, read.value);
        Goes(Some(read.value.(members := read.value.members + [m])), Put([m]))
    case EditMember(_, key, edit) => if read.None? then Ends else EditPlan(read.value, key, edit, true)
    case SetModes(_, updates) =>
      if read.None? || Changed(read.value.members, updates) == [] then Ends
      else
        Goes(Some(read.value.(members := Batch(read.value.members, updates))),
             Put(Changed(read.value.members, updates)))
    case TeammateMode(_, memberName, mode) =>
      if read.None? then Ends else EditPlan(read.value, ByName(memberName), SetMode(mode), false)
  }

  function MirrorAfter(active: Option<Mirror>, todo: Mirroring): Option<Mirror> {
    match todo
    case Nothing => active
    case Put(members) => MirrorWith(active, UpsertAll(MirrorMembers(active), members))
    case Drop(agentId) => MirrorWith(active, Without(MirrorMembers(active), agentId))
    case Activate(mirror) => Some(mirror)
  }

  function DiskAfter(disk: map<string, TeamFile>, key: string, file: Option<TeamFile>): map<string, TeamFile> {
    if file.Some? then disk[key := file.value] else disk
  }

  /** The plan carried out in one go. */
  function Carry(r: Roster, key: string, plan: Plan): Roster {
    if plan.Ends? then r
    else Roster(DiskAfter(r.disk, key, plan.file), MirrorAfter(r.active, plan.mirror),
                r.writes + (if plan.file.Some? then 1 else 0))
  }

  lemma UpsertAllOne(members: seq<Member>, m: Member)
    ensures UpsertAll(members, [m]) == Upsert(members, m)
  {
    assert [m][..0] == [];
  }

  /** Read, written and mirrored with nothing in between, an operation is the single step of `Apply`. */
  lemma PlanIsApply(r: Roster, op: Op)
    requires op.Initialize? ==> r.active.None?
    ensures Apply(r, op, NO_FAULTS) == Carry(r, FileKey(op), PlanOf(op, Lookup(r.disk, FileKey(op))))
  {
    var key := FileKey(op);
    if key in r.disk {
      var file := r.disk[key];
      match op
      case Reserve(_, _, _, _) => UpsertAllOne(MirrorMembers(r.active), Reserved(op, file));
      case EditMember(_, who, edit) =>
        var at := Find(file.members, who, 0);
        FindMeaning(file.members, who, 0);
        if at.Some? {
          UpsertAllOne(MirrorMembers(r.active), EditFirst(file.members, who, edit)[at.value]);
        }
      case TeammateMode(_, memberName, mode) => FindMeaning(file.members, ByName(memberName), 0);
      case _ =>
    }
  }

  // ---------------------------------------------------------------- steps

  /** What a write did to the ids of its file. */
  datatype Change = Joined(agentId: string) | Left(agentId: string) | Same

  function ChangeOf(op: Op, read: Option<TeamFile>): Change {
    match op
    case Reserve(_, _, _, _) => if read.Some? then Joined(Reserved(op, read.value).agentId) else Same
    case Rollback(_, agentId) => Left(agentId)
    case _ => Same
  }

  /** An operation between its read and its write; `since` lists the writes of the same file in the meantime. */
  datatype Work = Work(op: Op, read: Option<TeamFile>, since: seq<Change>)

  /** `waiting` are the mirror updates still to be made, in the order of the writes; `log` the calls written. */
  datatype World = World(roster: Roster, working: map<nat, Work>, waiting: seq<Mirroring>, log: seq<Call>)

  datatype Event =
    | Read(caller: nat, op: Op, ok: bool)
    | Write(caller: nat, ok: bool)
    | UpdateMirror(i: nat)

  function Start(r: Roster): World {
    World(r, map[], [], [])
  }

  function Noted(working: map<nat, Work>, k: nat, key: string, change: Change): map<nat, Work> {
    map j | j in working && j != k ::
      if FileKey(working[j].op) == key then working[j].(since := working[j].since + [change]) else working[j]
  }

  function CutOut<T>(s: seq<T>, i: nat): seq<T>
    requires i < |s|
  {
    s[..i] + s[i + 1..]
  }

  /** The write, or for an operation that writes no file the point from which its mirror update may come. */
  function WriteOut(w: World, k: nat): World
    requires k in w.working
  {
    var op, read := w.working[k].op, w.working[k].read;
    var key, plan := FileKey(op), PlanOf(op, read);
    if plan.Ends? then w
    else
      World(
        w.roster.(disk := DiskAfter(w.roster.disk, key, plan.file),
                  writes := w.roster.writes + (if plan.file.Some? then 1 else 0)),
        if plan.file.Some? then Noted(w.working, k, key, ChangeOf(op, read)) else w.working - {k},
        if plan.mirror.Nothing? then w.waiting else w.waiting + [plan.mirror],
        w.log + [Call(op, NO_FAULTS)])
  }

  predicate WriteFails(w: World, k: nat, ok: bool)
    requires k in w.working
  {
    var plan := PlanOf(w.working[k].op, w.working[k].read);
    !ok && plan.Goes? && plan.file.Some?
  }

  function Step(w: World, e: Event): World {
    match e
    case Read(k, op, ok) =>
      var read := Lookup(w.roster.disk, FileKey(op));
      if !ok || k in w.working || (op.Initialize? && w.roster.active.Some?) || PlanOf(op, read).Ends? then w
      else w.(working := w.working[k := Work(op, read, [])])
    case Write(k, ok) =>
      if k !in w.working then w
      else if WriteFails(w, k, ok) then w.(working := w.working - {k})
      else WriteOut(w, k)
    case UpdateMirror(i) =>
      if i >= |w.waiting| then w
      else
        w.(roster := w.roster.(active := MirrorAfter(w.roster.active, w.waiting[i])),
           waiting := CutOut(w.waiting, i))
  }

  function Play(w: World, events: seq<Event>): World
    decreases |events|
  {
    if events == [] then w else Play(Step(w, events[0]), events[1..])
  }

  /** The three steps with nothing in between are the single step, failures included, and nothing is left under
      way. */
  lemma ThreeStepsAreOne(r: Roster, op: Op, readOk: bool, writeOk: bool)
    ensures var done := Step(Step(Step(Start(r), Read(0, op, readOk)), Write(0, writeOk)), UpdateMirror(0));
            && done.roster == Apply(r, op, Faults(!readOk, !writeOk))
            && done.working == map[] && done.waiting == []
  {
    var w := Start(r);
    var plan := PlanOf(op, Lookup(r.disk, FileKey(op)));
    if readOk && !(op.Initialize? && r.active.Some?) && !plan.Ends? {
      PlanIsApply(r, op);
      var began := Step(w, Read(0, op, true));
      assert began.working[0] == Work(op, Lookup(r.disk, FileKey(op)), []);
      FailedWrite(r, op);
    } else {
      StopsAtRead(r, op, readOk, writeOk);
    }
  }

  lemma FailedWrite(r: Roster, op: Op)
    requires !(op.Initialize? && r.active.Some?)
    ensures var plan := PlanOf(op, Lookup(r.disk, FileKey(op)));
            plan.Goes? ==>
              Apply(r, op, Faults(false, true)) == if plan.file.Some? then r else Apply(r, op, NO_FAULTS)
  {
    var key := FileKey(op);
    if key in r.disk {
      match op
      case Initialize(_, _, _, _, _, _, _) =>
      case _ =>
    }
  }

  lemma StopsAtRead(r: Roster, op: Op, readOk: bool, writeOk: bool)
    requires !readOk || (op.Initialize? && r.active.Some?) || PlanOf(op, Lookup(r.disk, FileKey(op))).Ends?
    ensures Apply(r, op, Faults(!readOk, !writeOk)) == r
  {
    var key := FileKey(op);
    if key in r.disk {
      match op
      case EditMember(_, who, _) => FindMeaning(r.disk[key].members, who, 0);
      case TeammateMode(_, memberName, _) => FindMeaning(r.disk[key].members, ByName(memberName), 0);
      case _ =>
    }
  }

  // ---------------------------------------------------------------- runs without overlap that matters

  /** The mirror once all waiting updates were made in order. */
  function MirrorAfterAll(active: Option<Mirror>, todo: seq<Mirroring>): Option<Mirror>
    decreases |todo|
  {
    if todo == [] then active else MirrorAfterAll(MirrorAfter(active, todo[0]), todo[1..])
  }

  ghost predicate NoneActivates(todo: seq<Mirroring>) {
    forall i :: 0 <= i < |todo| ==> !todo[i].Activate?
  }

  /** The step overtakes nothing: the file it writes is as it read it, a team is not made active twice, and
      mirror updates come in the order of the writes. */
  ghost predicate Timely(w: World, e: Event) {
    match e
    case Read(_, _, _) => true
    case Write(k, ok) =>
      k in w.working && !WriteFails(w, k, ok) ==>
        && w.working[k].since == []
        && (w.working[k].op.Initialize? ==> w.roster.active.None? && NoneActivates(w.waiting))
    case UpdateMirror(i) => i == 0
  }

  ghost predicate AllTimely(w: World, events: seq<Event>)
    decreases |events|
  {
    events == [] || (Timely(w, events[0]) && AllTimely(Step(w, events[0]), events[1..]))
  }

  /** What is under way goes on, and if no write of its file came between, the file is as it was read. */
  ghost predicate Tracked(w: World) {
    forall k :: k in w.working ==>
      && PlanOf(w.working[k].op, w.working[k].read).Goes?
      && (w.working[k].since == [] ==> Lookup(w.roster.disk, FileKey(w.working[k].op)) == w.working[k].read)
  }

  /** The calls written so far, one after the other, lead to the roster there will be once the mirror has caught up. */
  ghost predicate Serial(r: Roster, w: World) {
    Run(r, w.log) == w.roster.(active := MirrorAfterAll(w.roster.active, w.waiting))
  }

  lemma {:induction false} RunAppend(r: Roster, calls: seq<Call>, c: Call)
    ensures Run(r, calls + [c]) == Apply(Run(r, calls), c.op, c.faults)
    decreases |calls|
  {
    if calls == [] {
      assert (calls + [c])[1..] == [];
    } else {
      assert (calls + [c])[1..] == calls[1..] + [c];
      RunAppend(Apply(r, calls[0].op, calls[0].faults), calls[1..], c);
    }
  }

  lemma {:induction false} MirrorAfterOneMore(active: Option<Mirror>, todo: seq<Mirroring>, last: Mirroring)
    ensures MirrorAfterAll(active, todo + [last]) == MirrorAfter(MirrorAfterAll(active, todo), last)
    decreases |todo|
  {
    if todo == [] {
      assert (todo + [last])[1..] == [];
    } else {
      assert (todo + [last])[1..] == todo[1..] + [last];
      MirrorAfterOneMore(MirrorAfter(active, todo[0]), todo[1..], last);
    }
  }

  lemma {:induction false} StaysInactive(todo: seq<Mirroring>)
    requires NoneActivates(todo)
    ensures MirrorAfterAll(None, todo) == None
    decreases |todo|
  {
    if todo != [] {
      StaysInactive(todo[1..]);
    }
  }

  lemma StepTracks(w: World, e: Event)
    requires Tracked(w)
    ensures Tracked(Step(w, e))
  {
    var w' := Step(w, e);
    forall k | k in w'.working
      ensures PlanOf(w'.working[k].op, w'.working[k].read).Goes?
      ensures w'.working[k].since == [] ==>
                Lookup(w'.roster.disk, FileKey(w'.working[k].op)) == w'.working[k].read
    {
      if k in w.working {
        assert w'.working[k].op == w.working[k].op && w'.working[k].read == w.working[k].read;
      }
    }
  }

  lemma WriteIsSerial(r: Roster, w: World, k: nat)
    requires Tracked(w) && Serial(r, w) && k in w.working && Timely(w, Write(k, true))
    ensures Serial(r, WriteOut(w, k))
  {
    var op, read := w.working[k].op, w.working[k].read;
    var plan := PlanOf(op, read);
    var now := Run(r, w.log);
    RunAppend(r, w.log, Call(op, NO_FAULTS));
    if op.Initialize? {
      StaysInactive(w.waiting);
    }
    PlanIsApply(now, op);
    MirrorAfterOneMore(w.roster.active, w.waiting, plan.mirror);
  }

  lemma StepIsSerial(r: Roster, w: World, e: Event)
    requires Tracked(w) && Serial(r, w) && Timely(w, e)
    ensures Serial(r, Step(w, e))
  {
    match e
    case Read(_, _, _) =>
    case Write(k, ok) =>
      if k in w.working && !WriteFails(w, k, ok) {
        WriteIsSerial(r, w, k);
      }
    case UpdateMirror(i) =>
      if i < |w.waiting| {
        assert CutOut(w.waiting, 0) == w.waiting[1..];
      }
  }

  lemma {:induction false} PlayIsSerial(r: Roster, w: World, events: seq<Event>)
    requires Tracked(w) && Serial(r, w) && AllTimely(w, events)
    ensures Tracked(Play(w, events)) && Serial(r, Play(w, events))
    decreases |events|
  {
    if events != [] {
      StepTracks(w, events[0]);
      StepIsSerial(r, w, events[0]);
      PlayIsSerial(r, Step(w, events[0]), events[1..]);
    }
  }

  /**
    However any number of callers interleave their reads, writes and mirror updates, and whatever fails: if no
    write is overtaken, no team is made active twice and the mirror updates come in the order of the writes,
    the disk is at every point what the calls written so far would have made of it one after the other, and so
    is the whole roster once no mirror update is waiting.
  */
  lemma TimelyRunsAreSerial(r: Roster, events: seq<Event>)
    requires AllTimely(Start(r), events)
    ensures var w := Play(Start(r), events);
            && w.roster.disk == Run(r, w.log).disk && w.roster.writes == Run(r, w.log).writes
            && (w.waiting == [] ==> w.roster == Run(r, w.log))
  {
    PlayIsSerial(r, Start(r), events);
  }

  /** So names stay unique and ids follow them in every such run. */
  lemma NamesStayUniqueInTimelyRuns(r: Roster, events: seq<Event>)
    requires AllTimely(Start(r), events) && GoodDisk(r) && AllProper(r, Play(Start(r), events).log)
    ensures GoodDisk(Play(Start(r), events).roster)
  {
    TimelyRunsAreSerial(r, events);
    NamesStayUnique(r, Play(Start(r), events).log);
  }

  /** And the mirror is the disk whenever it has caught up. */
  lemma MirrorIsTheDiskInTimelyRuns(r: Roster, events: seq<Event>)
    requires AllTimely(Start(r), events) && GoodDisk(r) && r.active.None?
    requires var log := Play(Start(r), events).log; AllProper(r, log) && AllOnActiveTeam(r, log)
    ensures var w := Play(Start(r), events);
            w.waiting == [] && w.roster.active.Some? ==>
              var key := Names.Sanitize(w.roster.active.value.teamName);
              && key in w.roster.disk
              && Agree(false, w.roster.active.value.file.members, w.roster.disk[key].members)
              && (LeaderOnly(w.log) ==> w.roster.active.value.file == w.roster.disk[key])
  {
    TimelyRunsAreSerial(r, events);
    MirrorIsTheDisk(r, Play(Start(r), events).log);
  }

  // ---------------------------------------------------------------- what an overtaken write does

  function Ids(members: seq<Member>): set<string> {
    set i | 0 <= i < |members| :: members[i].agentId
  }

  /** Whether the id is in the file after the changes. */
  predicate Present(ids: set<string>, changes: seq<Change>, id: string) {
    if changes == [] then id in ids
    else
      var last := changes[|changes| - 1];
      match last
      case Joined(x) => x == id || Present(ids, changes[..|changes| - 1], id)
      case Left(x) => x != id && Present(ids, changes[..|changes| - 1], id)
      case Same => Present(ids, changes[..|changes| - 1], id)
  }

  /** `yes` occurs, and `no` does not occur after it. */
  ghost predicate Stands<T>(s: seq<T>, yes: T, no: T) {
    exists i :: StandsAt(s, yes, no, i)
  }

  ghost predicate StandsAt<T>(s: seq<T>, yes: T, no: T, i: int) {
    0 <= i < |s| && s[i] == yes && no !in s[i + 1..]
  }

  lemma StandsNext<T>(s: seq<T>, last: T, yes: T, no: T)
    requires yes != no
    ensures Stands(s + [last], yes, no) <==> last == yes || (last != no && Stands(s, yes, no))
  {
    var t := s + [last];
    if i :| StandsAt(s, yes, no, i) {
      assert t[i] == s[i] && t[i + 1..] == s[i + 1..] + [last];
      assert last != no ==> StandsAt(t, yes, no, i);
    }
    if last == yes {
      assert t[|s|] == last && t[|s| + 1..] == [] && StandsAt(t, yes, no, |s|);
    }
    if i :| StandsAt(t, yes, no, i) && last != yes {
      assert t[i] == s[i] && t[i + 1..] == s[i + 1..] + [last];
      assert last in t[i + 1..] && StandsAt(s, yes, no, i);
    }
  }

  /** The id was reserved and not rolled back after that. */
  ghost predicate JoinedSince(changes: seq<Change>, id: string) {
    Stands(changes, Joined(id), Left(id))
  }

  /** The id was rolled back and not reserved after that. */
  ghost predicate LeftSince(changes: seq<Change>, id: string) {
    Stands(changes, Left(id), Joined(id))
  }

  lemma {:induction false} PresentIff(ids: set<string>, changes: seq<Change>, id: string)
    ensures Present(ids, changes, id) <==> JoinedSince(changes, id) || (id in ids && !LeftSince(changes, id))
    ensures !(JoinedSince(changes, id) && LeftSince(changes, id))
  {
    if changes != [] {
      var before, last := changes[..|changes| - 1], changes[|changes| - 1];
      PresentIff(ids, before, id);
      assert changes == before + [last];
      StandsNext(before, last, Joined(id), Left(id));
      StandsNext(before, last, Left(id), Joined(id));
    }
  }

  /** Every write so far found its file as it had read it. */
  ghost predicate AllCurrent(w: World, events: seq<Event>)
    decreases |events|
  {
    events == [] || (Current(w, events[0]) && AllCurrent(Step(w, events[0]), events[1..]))
  }

  ghost predicate Current(w: World, e: Event) {
    e.Write? && e.caller in w.working && !WriteFails(w, e.caller, e.ok) ==> w.working[e.caller].since == []
  }

  lemma SameIds(a: seq<Member>, b: seq<Member>)
    requires |a| == |b| && forall i :: 0 <= i < |a| ==> a[i].agentId == b[i].agentId
    ensures Ids(a) == Ids(b)
  {
    forall id
      ensures id in Ids(a) <==> id in Ids(b)
    {
      if id in Ids(a) {
        var i :| 0 <= i < |a| && a[i].agentId == id;
        assert b[i].agentId == id;
      }
      if id in Ids(b) {
        var i :| 0 <= i < |b| && b[i].agentId == id;
        assert a[i].agentId == id;
      }
    }
  }

  lemma IdsAppend(a: seq<Member>, m: Member)
    ensures Ids(a + [m]) == Ids(a) + {m.agentId}
  {
    assert (a + [m])[|a|] == m;
    assert forall i :: 0 <= i < |a| ==> (a + [m])[i] == a[i];
  }

  lemma IdsWithout(a: seq<Member>, agentId: string)
    ensures Ids(Without(a, agentId)) == Ids(a) - {agentId}
  {
    WithoutMeaning(a, agentId);
    var b := Without(a, agentId);
    forall id
      ensures id in Ids(b) <==> id in Ids(a) && id != agentId
    {
      if id in Ids(b) {
        var i :| 0 <= i < |b| && b[i].agentId == id;
        assert b[i] in a;
      }
      if id in Ids(a) && id != agentId {
        var i :| 0 <= i < |a| && a[i].agentId == id;
        assert a[i] in b;
      }
    }
  }

  lemma EditedIds(members: seq<Member>, key: Key, edit: Edit)
    ensures Ids(EditFirst(members, key, edit)) == Ids(members)
  {
    FindMeaning(members, key, 0);
    SameIds(members, EditFirst(members, key, edit));
  }

  /** What an operation writes has the ids it read, but for the one it reserves or rolls back. */
  lemma WrittenIds(op: Op, file: TeamFile, id: string)
    ensures var plan := PlanOf(op, Some(file));
            plan.Goes? && plan.file.Some? ==>
              (id in Ids(plan.file.value.members) <==> Present(Ids(file.members), [ChangeOf(op, Some(file))], id))
  {
    assert [ChangeOf(op, Some(file))][..0] == [];
    match op
    case Reserve(_, _, _, _) => IdsAppend(file.members, Reserved(op, file));
    case Rollback(_, agentId) => IdsWithout(file.members, agentId);
    case EditMember(_, key, edit) => EditedIds(file.members, key, edit);
    case SetModes(_, updates) => SameIds(file.members, Batch(file.members, updates));
    case TeammateMode(_, memberName, mode) => EditedIds(file.members, ByName(memberName), SetMode(mode));
    case Initialize(_, _, _, _, _, _, _) =>
  }

  /** The ids in the file now are those it was read with, as changed since. */
  ghost predicate Followed(w: World, k: nat)
    requires k in w.working
  {
    var work := w.working[k];
    work.read.Some? ==>
      && FileKey(work.op) in w.roster.disk
      && forall id :: id in Ids(w.roster.disk[FileKey(work.op)].members) <==>
           Present(Ids(work.read.value.members), work.since, id)
  }

  ghost predicate AllFollowed(w: World) {
    forall k :: k in w.working ==> Followed(w, k)
  }

  lemma WriteFollowed(w: World, j: nat, k: nat)
    requires Tracked(w) && j in w.working && w.working[j].since == [] && k in w.working && k != j && Followed(w, k)
    ensures k in WriteOut(w, j).working && Followed(WriteOut(w, j), k)
  {
    var w' := WriteOut(w, j);
    var work, other := w.working[k], w.working[j];
    var key := FileKey(work.op);
    var plan := PlanOf(other.op, other.read);
    if work.read.Some? && FileKey(other.op) == key && plan.file.Some? {
      var since := work.since + [ChangeOf(other.op, other.read)];
      assert w'.working[k] == work.(since := since) && since[..|work.since|] == work.since;
      assert w'.roster.disk[key] == plan.file.value && other.read == Some(w.roster.disk[key]);
      forall id
        ensures id in Ids(w'.roster.disk[key].members) <==> Present(Ids(work.read.value.members), since, id)
      {
        WrittenIds(other.op, other.read.value, id);
        assert [ChangeOf(other.op, other.read)][..0] == [];
      }
    }
  }

  lemma StepFollowed(w: World, e: Event)
    requires Tracked(w) && AllFollowed(w) && Current(w, e)
    ensures AllFollowed(Step(w, e))
  {
    var w' := Step(w, e);
    forall k | k in w'.working
      ensures Followed(w', k)
    {
      if k in w.working {
        assert Followed(w, k);
        if e.Write? && e.caller in w.working && !WriteFails(w, e.caller, e.ok) {
          WriteFollowed(w, e.caller, k);
        }
      }
    }
  }

  lemma {:induction false} PlayFollowed(w: World, events: seq<Event>)
    requires Tracked(w) && AllFollowed(w) && AllCurrent(w, events)
    ensures AllFollowed(Play(w, events))
    decreases |events|
  {
    if events != [] {
      StepTracks(w, events[0]);
      StepFollowed(w, events[0]);
      PlayFollowed(Step(w, events[0]), events[1..]);
    }
  }

  /** The id an operation reserves or rolls back itself. */
  predicate IsOwn(op: Op, file: TeamFile, id: string) {
    var change := ChangeOf(op, Some(file));
    !change.Same? && change.agentId == id
  }

  /**
    Exactly what the first overtaken write of a run does to the file. Apart from the id the operation itself
    reserves or rolls back, it erases an id if and only if that was reserved since its read and not rolled back
    again, and it brings an id back if and only if that was rolled back since and not reserved again.
  */
  lemma OvertakenWriteIff(r: Roster, events: seq<Event>, k: nat, id: string)
    requires AllCurrent(Start(r), events) && k in Play(Start(r), events).working
    requires var work := Play(Start(r), events).working[k];
             && work.read.Some? && PlanOf(work.op, work.read).Goes? && PlanOf(work.op, work.read).file.Some?
             && !IsOwn(work.op, work.read.value, id)
    ensures var w := Play(Start(r), events);
            var work := w.working[k];
            var key := FileKey(work.op);
            var was, now := Ids(work.read.value.members), Ids(WriteOut(w, k).roster.disk[key].members);
            && key in w.roster.disk
            && (id in Ids(w.roster.disk[key].members) && id !in now <==> id !in was && JoinedSince(work.since, id))
            && (id !in Ids(w.roster.disk[key].members) && id in now <==> id in was && LeftSince(work.since, id))
  {
    PlayFollowed(Start(r), events);
    var w := Play(Start(r), events);
    var work := w.working[k];
    assert Followed(w, k);
    WrittenIds(work.op, work.read.value, id);
    assert [ChangeOf(work.op, work.read)][..0] == [];
    PresentIff(Ids(work.read.value.members), work.since, id);
  }

  /** A reservation under way whose name was new when it read the file: somebody has its id by now exactly
      when another reservation of the same name was written since, and not rolled back. */
  lemma ReservedTwiceIff(r: Roster, events: seq<Event>, k: nat)
    requires AllCurrent(Start(r), events) && k in Play(Start(r), events).working
    requires var work := Play(Start(r), events).working[k];
             && work.op.Reserve? && work.read.Some?
             && Reserved(work.op, work.read.value).agentId !in Ids(work.read.value.members)
    ensures var w := Play(Start(r), events);
            var work := w.working[k];
            var id := Reserved(work.op, work.read.value).agentId;
            && FileKey(work.op) in w.roster.disk
            && (id in Ids(w.roster.disk[FileKey(work.op)].members) <==> JoinedSince(work.since, id))
  {
    PlayFollowed(Start(r), events);
    var w := Play(Start(r), events);
    var work := w.working[k];
    assert Followed(w, k);
    PresentIff(Ids(work.read.value.members), work.since, Reserved(work.op, work.read.value).agentId);
  }

  // ---------------------------------------------------------------- two callers at once

  /** Caller 0's operation read, written and mirrored between caller 1's read and write. */
  function Overtaken(r: Roster, first: Op, late: Op): World {
    var w := Step(Step(Start(r), Read(1, late, true)), Read(0, first, true));
    Step(Step(Step(w, Write(0, true)), UpdateMirror(0)), Write(1, true))
  }

  /** The late write replaces the file by what it makes of the old one; the mirror keeps the first change. */
  lemma LateWriteWins(r: Roster, first: Op, late: Op)
    requires FileKey(first) == FileKey(late) && FileKey(first) in r.disk && !first.Initialize? && !late.Initialize?
    requires var file := Some(r.disk[FileKey(first)]);
             && PlanOf(first, file).Goes? && PlanOf(first, file).file.Some? && !PlanOf(first, file).mirror.Nothing?
             && PlanOf(late, file).Goes? && PlanOf(late, file).file.Some?
    ensures var file := Some(r.disk[FileKey(first)]);
            var after := Overtaken(r, first, late).roster;
            && after.disk == r.disk[FileKey(first) := PlanOf(late, file).file.value]
            && after.active == MirrorAfter(r.active, PlanOf(first, file).mirror)
            && after.writes == r.writes + 2
  {
    var key := FileKey(first);
    var file := Some(r.disk[key]);
    var a, b := PlanOf(first, file), PlanOf(late, file);
    var w2 := Step(Step(Start(r), Read(1, late, true)), Read(0, first, true));
    assert w2.working[0] == Work(first, file, []) && w2.working[1] == Work(late, file, []);
    var w3 := Step(w2, Write(0, true));
    assert w3.working[1].op == late && w3.working[1].read == file && w3.waiting == [a.mirror];
    var w4 := Step(w3, UpdateMirror(0));
    assert w4.working == w3.working;
    UpdateTwice(r.disk, key, a.file.value, b.file.value);
  }

  /** For every reservation on the active team: a teammate's mode write that read the file before it erases the
      new member from the disk, while the mirror keeps it. */
  lemma TeammateWriteErasesReservation(r: Roster, op: Op, late: Op)
    requires op.Reserve? && late.TeammateMode? && FileKey(op) == FileKey(late) && FileKey(op) in r.disk
    requires GoodDisk(r) && Proper(r, op) && Mirrored(true, r) && r.active.Some? && OnActiveTeam(r, op)
    requires Find(r.disk[FileKey(op)].members, ByName(late.memberName), 0).Some?
    ensures var after := Overtaken(r, op, late).roster;
            var m := Reserved(op, r.disk[FileKey(op)]);
            && FileKey(op) in after.disk && m.agentId !in Ids(after.disk[FileKey(op)].members)
            && m in MirrorMembers(after.active) && !Mirrored(false, after)
  {
    var key := FileKey(op);
    var file := r.disk[key];
    var m := Reserved(op, file);
    var before := MirrorMembers(r.active);
    FindMeaning(file.members, ByName(late.memberName), 0);
    LateWriteWins(r, op, late);
    EditedIds(file.members, ByName(late.memberName), SetMode(late.mode));
    NewIdIsNew(r, op);
    StrictlyAgree(before, file.members);
    UpsertAllOne(before, m);
    FindMeaning(before, ById(m.agentId), 0);
    assert Upsert(before, m) == before + [m] && (before + [m])[|before|] == m;
  }

  lemma NewIdIsNew(r: Roster, op: Op)
    requires op.Reserve? && FileKey(op) in r.disk && GoodDisk(r) && Proper(r, op)
    ensures Reserved(op, r.disk[FileKey(op)]).agentId !in Ids(r.disk[FileKey(op)].members)
    ensures NoneHas(r.disk[FileKey(op)].members, Reserved(op, r.disk[FileKey(op)]).agentId)
  {
    var file := r.disk[FileKey(op)];
    var m := Reserved(op, file);
    ProperIsNew(r, op);
    forall i | 0 <= i < |file.members|
      ensures file.members[i].agentId != m.agentId
    {
      assert NamesOf(file.members)[i] == file.members[i].name;
      if file.members[i].agentId == m.agentId {
        SameIdSameName(file.members[i], m, op.team);
      }
    }
  }

  /** Two reservations of one name that overlap both succeed with the same name and id, and only the later of
      the two members is stored. */
  lemma OverlappingReservationsShareAName(r: Roster, a: Op, b: Op)
    requires a.Reserve? && b.Reserve? && a.team == b.team && FileKey(a) in r.disk
    requires Names.Sanitize(a.request.desiredName) == Names.Sanitize(b.request.desiredName)
    requires |r.disk[FileKey(a)].members| < 99 || a.fragment == b.fragment
    ensures var file := r.disk[FileKey(a)];
            var after := Overtaken(r, a, b).roster;
            && Reserved(a, file).name == Reserved(b, file).name
            && Reserved(a, file).agentId == Reserved(b, file).agentId
            && after.writes == r.writes + 2
            && FileKey(a) in after.disk && after.disk[FileKey(a)].members == file.members + [Reserved(b, file)]
  {
    var file := r.disk[FileKey(a)];
    LateWriteWins(r, a, b);
    if |file.members| < 99 {
      Names.FallbackNeedsAFullTeam(Names.Sanitize(a.request.desiredName), NamesOf(file.members));
    }
  }

  /** Two operations one after the other, but the second is first in the mirror. */
  function MirroredBackwards(r: Roster, first: Op, second: Op): World {
    var w := Step(Step(Start(r), Read(0, first, true)), Write(0, true));
    Step(Step(Step(Step(w, Read(1, second, true)), Write(1, true)), UpdateMirror(1)), UpdateMirror(0))
  }

  lemma BackwardsMeaning(r: Roster, first: Op, second: Op)
    requires FileKey(first) == FileKey(second) && FileKey(first) in r.disk && !first.Initialize? && !second.Initialize?
    requires var plan := PlanOf(first, Some(r.disk[FileKey(first)]));
             && plan.Goes? && plan.file.Some? && !plan.mirror.Nothing?
             && PlanOf(second, plan.file).Goes? && PlanOf(second, plan.file).file.Some?
             && !PlanOf(second, plan.file).mirror.Nothing?
    ensures var plan := PlanOf(first, Some(r.disk[FileKey(first)]));
            var plan' := PlanOf(second, plan.file);
            var after := MirroredBackwards(r, first, second).roster;
            && after.disk == r.disk[FileKey(first) := plan'.file.value]
            && after.active == MirrorAfter(MirrorAfter(r.active, plan'.mirror), plan.mirror)
  {
    var key := FileKey(first);
    var plan := PlanOf(first, Some(r.disk[key]));
    var plan' := PlanOf(second, plan.file);
    var w1 := Step(Start(r), Read(0, first, true));
    assert w1.working[0] == Work(first, Some(r.disk[key]), []);
    var w2 := Step(w1, Write(0, true));
    assert w2.waiting == [plan.mirror] && w2.working == map[];
    var w3 := Step(w2, Read(1, second, true));
    assert w3.working[1] == Work(second, plan.file, []);
    var w4 := Step(w3, Write(1, true));
    assert w4.waiting == [plan.mirror, plan'.mirror];
    assert CutOut(w4.waiting, 1) == [plan.mirror];
    UpdateTwice(r.disk, key, plan.file.value, plan'.file.value);
  }

  function Coloured(m: Member, color: string): Member {
    m.(color := Some(color))
  }

  lemma ColourPlan(file: TeamFile, team: string, i: nat, color: string)
    requires DistinctIds(file.members) && i < |file.members|
    ensures var m := Coloured(file.members[i], color);
            && PlanOf(EditMember(team, ById(m.agentId), SetColor(color)), Some(file)) ==
               Goes(Some(file.(members := file.members[i := m])), Put([m]))
            && DistinctIds(file.members[i := m])
  {
    FindById(true, file.members, file.members, i);
  }

  lemma PutAt(members: seq<Member>, i: nat, m: Member)
    requires DistinctIds(members) && i < |members| && m.agentId == members[i].agentId
    ensures UpsertAll(members, [m]) == members[i := m] && DistinctIds(members[i := m])
  {
    UpsertAgrees(true, members, members, i, m);
    UpsertAllOne(members, m);
  }

  /** The order of the mirror updates matters by itself: two colours given one after the other to a member of
      the active team, mirrored the other way round, leave the first colour in the mirror and the second on disk. */
  lemma SwappedMirrorUpdatesDiffer(r: Roster, team: string, i: nat, red: string, blue: string)
    requires GoodDisk(r) && Mirrored(true, r) && r.active.Some? && Names.Sanitize(team) in r.disk
    requires Names.Sanitize(team) == Names.Sanitize(r.active.value.teamName)
    requires i < |r.disk[Names.Sanitize(team)].members|
    ensures var key := Names.Sanitize(team);
            var members := r.disk[key].members;
            var who := ById(members[i].agentId);
            var after := MirroredBackwards(r, EditMember(team, who, SetColor(red)),
                                           EditMember(team, who, SetColor(blue))).roster;
            && key in after.disk && after.disk[key].members == members[i := Coloured(members[i], blue)]
            && MirrorMembers(after.active) == members[i := Coloured(members[i], red)]
  {
    var key := Names.Sanitize(team);
    var file := r.disk[key];
    var members := file.members;
    var who := ById(members[i].agentId);
    var m, m' := Coloured(members[i], red), Coloured(members[i], blue);
    GoodIdsDiffer(members, file.name);
    StrictlyAgree(MirrorMembers(r.active), members);
    ColourPlan(file, team, i, red);
    ColourPlan(file.(members := members[i := m]), team, i, blue);
    PutAt(members, i, m');
    PutAt(members[i := m'], i, m);
    BackwardsMeaning(r, EditMember(team, who, SetColor(red)), EditMember(team, who, SetColor(blue)));
    assert members[i := m][i := m'] == members[i := m'] && members[i := m'][i := m] == members[i := m];
  }
}
