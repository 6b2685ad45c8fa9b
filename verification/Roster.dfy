/**
  The team roster: one file per team on disk, and the leader's in-memory mirror of the active
  team. Every store operation reads the team's file, edits the member list, writes the file back
  and then repeats the change in the mirror by agent id, without asking whether the request was
  for the active team. A read or a write may fail; the store then reports an error and stops.
  Files are found by the sanitized team name.
*/
module Roster {
  import opened Prelude
  import Names = TeammateNames

  const TEAM_LEAD_NAME := "team-lead"

  datatype Backend = Tmux | Iterm2 | InProcess

  datatype Member = Member(
    agentId: string,
    name: string,
    agentType: Option<string>,
    model: Option<string>,
    prompt: Option<string>,
    color: Option<string>,
    planModeRequired: bool,
    joinedAt: int,
    paneId: string,
    cwd: string,
    worktreePath: Option<string>,
    sessionId: Option<string>,
    backend: Option<Backend>,
    isActive: bool,
    mode: Option<PermissionMode>)

  datatype TeamFile = TeamFile(
    name: string,
    createdAt: int,
    leadAgentId: string,
    leadSessionId: Option<string>,
    members: seq<Member>)

  datatype Mirror = Mirror(teamName: string, file: TeamFile)

  /** The disk by sanitized team name, the leader's mirror, and how many files were written. */
  datatype Roster = Roster(disk: map<string, TeamFile>, active: Option<Mirror>, writes: nat)

  datatype Faults = Faults(readFails: bool, writeFails: bool)

  // ---------------------------------------------------------------- member lists

  /** The two ways the store looks a member up. */
  datatype Key = ById(agentId: string) | ByName(name: string)

  predicate Matches(key: Key, m: Member) {
    match key
    case ById(id) => m.agentId == id
    case ByName(name) => m.name == name
  }

  /** Index of the first matching member at or after `i`. */
  function Find(members: seq<Member>, key: Key, i: nat): Option<nat>
    decreases |members| - i
  {
    if i >= |members| then None
    else if Matches(key, members[i]) then Some(i)
    else Find(members, key, i + 1)
  }

  lemma {:induction false} FindMeaning(members: seq<Member>, key: Key, i: nat)
    ensures Find(members, key, i).Some? ==>
              var k := Find(members, key, i).value;
              i <= k < |members| && Matches(key, members[k]) && forall j :: i <= j < k ==> !Matches(key, members[j])
    ensures Find(members, key, i).None? ==> forall j :: i <= j < |members| ==> !Matches(key, members[j])
    decreases |members| - i
  {
    if i < |members| {
      FindMeaning(members, key, i + 1);
    }
  }

  function Upsert(members: seq<Member>, m: Member): seq<Member> {
    match Find(members, ById(m.agentId), 0)
    case Some(i) => if i < |members| then members[i := m] else members
    case None => members + [m]
  }

  function UpsertAll(members: seq<Member>, ms: seq<Member>): seq<Member> {
    if ms == [] then members else Upsert(UpsertAll(members, ms[..|ms| - 1]), ms[|ms| - 1])
  }

  function Without(members: seq<Member>, agentId: string): seq<Member> {
    if members == [] then []
    else
      var n := |members| - 1;
      Without(members[..n], agentId) + (if members[n].agentId == agentId then [] else [members[n]])
  }

  datatype Edit =
    | Commit(backend: Backend, paneId: Option<string>, sessionId: Option<string>)
    | SetColor(color: string)
    | SetActive(isActive: bool)
    | SetMode(mode: PermissionMode)

  function ApplyEdit(e: Edit, m: Member): Member {
    match e
    case Commit(backend, paneId, sessionId) =>
      m.(isActive := true, backend := Some(backend), sessionId := sessionId,
         paneId := if paneId.Some? then paneId.value else "")
    case SetColor(color) => m.(color := Some(color))
    case SetActive(isActive) => m.(isActive := isActive)
    case SetMode(mode) => m.(mode := Some(mode))
  }

  function EditFirst(members: seq<Member>, key: Key, e: Edit): seq<Member> {
    match Find(members, key, 0)
    case Some(i) => if i < |members| then members[i := ApplyEdit(e, members[i])] else members
    case None => members
  }

  type ModeUpdate = (string, PermissionMode)

  /** The mode the batch asks for; when a name is repeated the last update wins. */
  function Wanted(updates: seq<ModeUpdate>, name: string): Option<PermissionMode> {
    if updates == [] then None
    else if updates[|updates| - 1].0 == name then Some(updates[|updates| - 1].1)
    else Wanted(updates[..|updates| - 1], name)
  }

  predicate Changes(updates: seq<ModeUpdate>, m: Member) {
    Wanted(updates, m.name).Some? && m.mode != Wanted(updates, m.name)
  }

  function WithMode(updates: seq<ModeUpdate>, m: Member): Member {
    if Changes(updates, m) then m.(mode := Wanted(updates, m.name)) else m
  }

  function Batch(members: seq<Member>, updates: seq<ModeUpdate>): seq<Member> {
    seq(|members|, i requires 0 <= i < |members| => WithMode(updates, members[i]))
  }

  /** The members among the first `n` that the batch changes, in roster order and in their new form. */
  function ChangedUpTo(members: seq<Member>, n: nat, updates: seq<ModeUpdate>): seq<Member>
    requires n <= |members|
  {
    if n == 0 then []
    else
      ChangedUpTo(members, n - 1, updates)
      + (if Changes(updates, members[n - 1]) then [WithMode(updates, members[n - 1])] else [])
  }

  function Changed(members: seq<Member>, updates: seq<ModeUpdate>): seq<Member> {
    ChangedUpTo(members, |members|, updates)
  }

  // ---------------------------------------------------------------- operations

  datatype SpawnRequest = SpawnRequest(
    desiredName: string,
    agentType: Option<string>,
    model: Option<string>,
    prompt: string,
    color: Option<string>,
    planModeRequired: bool,
    cwd: string,
    worktreePath: Option<string>,
    mode: Option<PermissionMode>)

  datatype Op =
    | Initialize(team: string, sessionId: string, agentType: Option<string>, model: Option<string>, cwd: string,
                 now: int, routeFails: bool)
    | Reserve(team: string, request: SpawnRequest, now: int, fragment: string)
    | EditMember(team: string, key: Key, edit: Edit)
    | SetModes(team: string, updates: seq<ModeUpdate>)
    | Rollback(team: string, agentId: string)
    | TeammateMode(team: string, memberName: string, mode: PermissionMode)

  function NamesOf(members: seq<Member>): seq<string> {
    seq(|members|, i requires 0 <= i < |members| => members[i].name)
  }

  function AgentId(name: string, team: string): string {
    name + "@" + team
  }

  function NewName(file: TeamFile, request: SpawnRequest, fragment: string): string {
    Names.UniqueName(Names.Sanitize(request.desiredName), NamesOf(file.members), fragment)
  }

  function NewMember(name: string, team: string, request: SpawnRequest, now: int): Member {
    Member(AgentId(name, team), name, request.agentType, request.model, Some(request.prompt), request.color,
           request.planModeRequired, now, "", request.cwd, request.worktreePath, None, None, false, request.mode)
  }

  function LeaderFile(team: string, sessionId: string, agentType: Option<string>, model: Option<string>,
                      cwd: string, now: int): TeamFile {
    TeamFile(team, now, AgentId(TEAM_LEAD_NAME, team), Some(sessionId),
             [Member(AgentId(TEAM_LEAD_NAME, team), TEAM_LEAD_NAME,
                     Some(if agentType.Some? then agentType.value else "team-lead"), model, None, None, false, now,
                     "", cwd, None, None, Some(InProcess), true, None)])
  }

  function MirrorWith(active: Option<Mirror>, members: seq<Member>): Option<Mirror> {
    match active
    case None => None
    case Some(mirror) => Some(mirror.(file := mirror.file.(members := members)))
  }

  function MirrorMembers(active: Option<Mirror>): seq<Member> {
    if active.Some? then active.value.file.members else []
  }

  function WriteFile(r: Roster, key: string, members: seq<Member>): Roster
    requires key in r.disk
  {
    r.(disk := r.disk[key := r.disk[key].(members := members)], writes := r.writes + 1)
  }

  function Apply(r: Roster, op: Op, f: Faults): Roster {
    var key := Names.Sanitize(op.team);
    match op
    case Initialize(team, sessionId, agentType, model, cwd, now, routeFails) =>
      if r.active.Some? || f.readFails then r
      else if key in r.disk then
        (if routeFails then r else r.(active := Some(Mirror(team, r.disk[key]))))
      else if f.writeFails then r
      else
        var file := LeaderFile(team, sessionId, agentType, model, cwd, now);
        Roster(r.disk[key := file], if routeFails then None else Some(Mirror(team, file)), r.writes + 1)
    case Reserve(team, request, now, fragment) =>
      if f.readFails || key !in r.disk || f.writeFails then r
      else
        var m := NewMember(NewName(r.disk[key], request, fragment), team, request, now);
        WriteFile(r, key, r.disk[key].members + [m]).(
          active := MirrorWith(r.active, Upsert(MirrorMembers(r.active), m)))
    case EditMember(team, who, edit) =>
      if f.readFails || key !in r.disk || f.writeFails then r
      else
        var at := Find(r.disk[key].members, who, 0);
        var members := EditFirst(r.disk[key].members, who, edit);
        if at.None? || at.value >= |members| then r
        else
          WriteFile(r, key, members).(
            active := MirrorWith(r.active, Upsert(MirrorMembers(r.active), members[at.value])))
    case SetModes(team, updates) =>
      if f.readFails || key !in r.disk || f.writeFails || Changed(r.disk[key].members, updates) == [] then r
      else
        WriteFile(r, key, Batch(r.disk[key].members, updates)).(
          active := MirrorWith(r.active, UpsertAll(MirrorMembers(r.active), Changed(r.disk[key].members, updates))))
    case Rollback(team, agentId) =>
      if f.readFails then r
      else
        var mirrored := MirrorWith(r.active, Without(MirrorMembers(r.active), agentId));
        if key !in r.disk || Without(r.disk[key].members, agentId) == r.disk[key].members then r.(active := mirrored)
        else if f.writeFails then r
        else WriteFile(r, key, Without(r.disk[key].members, agentId)).(active := mirrored)
    case TeammateMode(team, memberName, mode) =>
      if f.readFails || key !in r.disk || f.writeFails || Find(r.disk[key].members, ByName(memberName), 0).None? then r
      else WriteFile(r, key, EditFirst(r.disk[key].members, ByName(memberName), SetMode(mode)))
  }

  datatype Call = Call(op: Op, faults: Faults)

  function Run(r: Roster, calls: seq<Call>): Roster
    decreases |calls|
  {
    if calls == [] then r else Run(Apply(r, calls[0].op, calls[0].faults), calls[1..])
  }

  // ---------------------------------------------------------------- names and ids

  ghost predicate DistinctNames(members: seq<Member>) {
    forall i, j :: 0 <= i < j < |members| ==> members[i].name != members[j].name
  }

  ghost predicate IdsFollowNames(members: seq<Member>, team: string) {
    forall i :: 0 <= i < |members| ==> members[i].agentId == AgentId(members[i].name, team)
  }

  ghost predicate GoodMembers(members: seq<Member>, team: string) {
    DistinctNames(members) && IdsFollowNames(members, team)
  }

  ghost predicate GoodDisk(r: Roster) {
    forall key :: key in r.disk ==>
      Names.Sanitize(r.disk[key].name) == key && GoodMembers(r.disk[key].members, r.disk[key].name)
  }

  /** One of the names that would be tried is free, or the one with the random fragment is. */
  ghost predicate NameLeft(members: seq<Member>, desiredName: string, fragment: string) {
    var base := Names.Sanitize(desiredName);
    || (exists i :: 0 <= i < |Names.Candidates(base)| && Names.Candidates(base)[i] !in NamesOf(members))
    || Names.Fallback(base, fragment) !in NamesOf(members)
  }

  /** A reservation names the team the way its file does, and the team is small or has a name left. */
  ghost predicate Proper(r: Roster, op: Op) {
    op.Reserve? && Names.Sanitize(op.team) in r.disk ==>
      var file := r.disk[Names.Sanitize(op.team)];
      file.name == op.team && (|file.members| < 99 || NameLeft(file.members, op.request.desiredName, op.fragment))
  }

  ghost predicate AllProper(r: Roster, calls: seq<Call>)
    decreases |calls|
  {
    calls == [] || (Proper(r, calls[0].op) && AllProper(Apply(r, calls[0].op, calls[0].faults), calls[1..]))
  }

  lemma SameIdSameName(a: Member, b: Member, team: string)
    requires a.agentId == AgentId(a.name, team) && b.agentId == AgentId(b.name, team) && a.agentId == b.agentId
    ensures a.name == b.name
  {
    assert a.name == a.agentId[..|a.agentId| - |team| - 1] && b.name == b.agentId[..|b.agentId| - |team| - 1];
  }

  ghost predicate NoneHas(members: seq<Member>, agentId: string) {
    forall i :: 0 <= i < |members| ==> members[i].agentId != agentId
  }

  lemma {:induction false} WithoutMembers(members: seq<Member>, agentId: string)
    ensures forall m :: m in Without(members, agentId) <==> m in members && m.agentId != agentId
  {
    if members != [] {
      WithoutMembers(members[..|members| - 1], agentId);
      assert members == members[..|members| - 1] + [members[|members| - 1]];
    }
  }

  lemma NoneHasNext(front: seq<Member>, m: Member, agentId: string)
    ensures NoneHas(front + [m], agentId) <==> NoneHas(front, agentId) && m.agentId != agentId
  {
    assert (front + [m])[|front|] == m;
    assert forall i :: 0 <= i < |front| ==> (front + [m])[i] == front[i];
  }

  lemma WithoutNext(front: seq<Member>, m: Member, agentId: string)
    ensures Without(front + [m], agentId) == Without(front, agentId) + (if m.agentId == agentId then [] else [m])
  {
    assert (front + [m])[..|front|] == front;
  }

  lemma {:induction false} WithoutLength(members: seq<Member>, agentId: string)
    ensures |Without(members, agentId)| <= |members|
    ensures |Without(members, agentId)| == |members| <==> NoneHas(members, agentId)
    ensures NoneHas(members, agentId) ==> Without(members, agentId) == members
  {
    if members != [] {
      var front, m := members[..|members| - 1], members[|members| - 1];
      WithoutLength(front, agentId);
      NoneHasNext(front, m, agentId);
      WithoutNext(front, m, agentId);
      assert members == front + [m];
    }
  }

  lemma WithoutMeaning(members: seq<Member>, agentId: string)
    ensures forall m :: m in Without(members, agentId) <==> m in members && m.agentId != agentId
    ensures |Without(members, agentId)| <= |members|
    ensures Without(members, agentId) == members <==> NoneHas(members, agentId)
    ensures |Without(members, agentId)| == |members| <==> Without(members, agentId) == members
  {
    WithoutMembers(members, agentId);
    WithoutLength(members, agentId);
  }

  lemma AppendKeepsGood(members: seq<Member>, m: Member, team: string)
    requires GoodMembers(members, team) && m.name !in NamesOf(members) && m.agentId == AgentId(m.name, team)
    ensures GoodMembers(members + [m], team)
  {
    forall i | 0 <= i < |members|
      ensures members[i].name != m.name
    {
      assert NamesOf(members)[i] == members[i].name;
    }
  }

  lemma WithoutNamesNew(members: seq<Member>, agentId: string, name: string)
    requires forall i :: 0 <= i < |members| ==> members[i].name != name
    ensures name !in NamesOf(Without(members, agentId))
  {
    WithoutMeaning(members, agentId);
    forall i | 0 <= i < |Without(members, agentId)|
      ensures NamesOf(Without(members, agentId))[i] != name
    {
      assert Without(members, agentId)[i] in members;
    }
  }

  lemma {:induction false} WithoutKeepsGood(members: seq<Member>, agentId: string, team: string)
    requires GoodMembers(members, team)
    ensures GoodMembers(Without(members, agentId), team)
  {
    if members != [] {
      var n := |members| - 1;
      var kept := Without(members[..n], agentId);
      WithoutKeepsGood(members[..n], agentId, team);
      if members[n].agentId == agentId {
        assert Without(members, agentId) == kept;
      } else {
        WithoutNamesNew(members[..n], agentId, members[n].name);
        AppendKeepsGood(kept, members[n], team);
        assert Without(members, agentId) == kept + [members[n]];
      }
    }
  }

  lemma EditKeepsGood(members: seq<Member>, key: Key, e: Edit, team: string)
    requires GoodMembers(members, team)
    ensures GoodMembers(EditFirst(members, key, e), team)
  {
    FindMeaning(members, key, 0);
  }

  /** The generated name is new exactly when there is one left. */
  lemma NewNameIff(file: TeamFile, request: SpawnRequest, fragment: string)
    ensures NewName(file, request, fragment) !in NamesOf(file.members) <==>
              NameLeft(file.members, request.desiredName, fragment)
  {
    Names.UniqueNameIsNewIff(Names.Sanitize(request.desiredName), NamesOf(file.members), fragment);
  }

  lemma ProperIsNew(r: Roster, op: Op)
    requires op.Reserve? && Proper(r, op) && Names.Sanitize(op.team) in r.disk
    ensures var file := r.disk[Names.Sanitize(op.team)];
            NewName(file, op.request, op.fragment) !in NamesOf(file.members)
  {
    var file := r.disk[Names.Sanitize(op.team)];
    NewNameIff(file, op.request, op.fragment);
    if |file.members| < 99 {
      var base := Names.Sanitize(op.request.desiredName);
      Names.FallbackNeedsAFullTeam(base, NamesOf(file.members));
      Names.FirstFreeMeaning(Names.Candidates(base), NamesOf(file.members), 0);
    }
  }

  lemma ApplyKeepsGood(r: Roster, op: Op, f: Faults)
    requires GoodDisk(r) && Proper(r, op)
    ensures GoodDisk(Apply(r, op, f))
  {
    var key := Names.Sanitize(op.team);
    if key in r.disk {
      var file := r.disk[key];
      match op
      case Reserve(team, request, now, fragment) =>
        ProperIsNew(r, op);
        AppendKeepsGood(file.members, NewMember(NewName(file, request, fragment), team, request, now), team);
      case EditMember(team, who, edit) => EditKeepsGood(file.members, who, edit, file.name);
      case SetModes(team, updates) =>
      case Rollback(team, agentId) => WithoutKeepsGood(file.members, agentId, file.name);
      case TeammateMode(team, memberName, mode) =>
        EditKeepsGood(file.members, ByName(memberName), SetMode(mode), file.name);
      case Initialize(_, _, _, _, _, _, _) =>
    }
  }

  /** Under any sequence of store operations, on any teams and with any failures, member names stay
      pairwise distinct and every agent id is name@team. */
  lemma {:induction false} NamesStayUnique(r: Roster, calls: seq<Call>)
    requires GoodDisk(r) && AllProper(r, calls)
    ensures GoodDisk(Run(r, calls))
    decreases |calls|
  {
    if calls != [] {
      ApplyKeepsGood(r, calls[0].op, calls[0].faults);
      NamesStayUnique(Apply(r, calls[0].op, calls[0].faults), calls[1..]);
    }
  }

  /** A reservation keeps the team's roster good exactly when it names the team as the file does and
      there is a name left for it: some candidate is free, or the random fallback is. */
  lemma ReserveKeepsGoodIff(r: Roster, op: Op, f: Faults)
    requires op.Reserve? && GoodDisk(r) && Names.Sanitize(op.team) in r.disk && !f.readFails && !f.writeFails
    ensures GoodDisk(Apply(r, op, f)) <==>
              var file := r.disk[Names.Sanitize(op.team)];
              op.team == file.name && NameLeft(file.members, op.request.desiredName, op.fragment)
  {
    NewNameIff(r.disk[Names.Sanitize(op.team)], op.request, op.fragment);
    var key := Names.Sanitize(op.team);
    var file := r.disk[key];
    var name := NewName(file, op.request, op.fragment);
    var after := Apply(r, op, f).disk[key];
    var n := |file.members|;
    assert after.members[n] == NewMember(name, op.team, op.request, op.now);
    if GoodDisk(Apply(r, op, f)) {
      assert GoodMembers(after.members, file.name);
      assert AgentId(name, op.team) == AgentId(name, file.name);
      assert op.team == AgentId(name, op.team)[|name| + 1..];
      assert file.name == AgentId(name, file.name)[|name| + 1..];
      forall i | 0 <= i < n
        ensures NamesOf(file.members)[i] != name
      {
        assert after.members[i].name != after.members[n].name;
      }
    } else if op.team == file.name && name !in NamesOf(file.members) {
      ApplyKeepsGood(r, op, f);
    }
  }

  // ---------------------------------------------------------------- write-through

  /** Teammates write their own mode to disk only, so a loose mirror may differ in modes. */
  function Forget(strict: bool, m: Member): Member {
    if strict then m else m.(mode := None)
  }

  ghost predicate Agree(strict: bool, a: seq<Member>, b: seq<Member>) {
    |a| == |b| && forall i :: 0 <= i < |a| ==> Forget(strict, a[i]) == Forget(strict, b[i])
  }

  /** The mirror shows the active team's file. */
  ghost predicate Mirrored(strict: bool, r: Roster) {
    r.active.Some? ==>
      var mirror := r.active.value;
      var key := Names.Sanitize(mirror.teamName);
      && key in r.disk
      && mirror.file.(members := []) == r.disk[key].(members := [])
      && Agree(strict, mirror.file.members, r.disk[key].members)
  }

  ghost predicate OnActiveTeam(r: Roster, op: Op) {
    r.active.Some? ==> Names.Sanitize(op.team) == Names.Sanitize(r.active.value.teamName)
  }

  ghost predicate AllOnActiveTeam(r: Roster, calls: seq<Call>)
    decreases |calls|
  {
    calls == [] || (OnActiveTeam(r, calls[0].op) && AllOnActiveTeam(Apply(r, calls[0].op, calls[0].faults), calls[1..]))
  }

  ghost predicate LeaderOnly(calls: seq<Call>) {
    forall i :: 0 <= i < |calls| ==> !calls[i].op.TeammateMode?
  }

  ghost predicate DistinctIds(members: seq<Member>) {
    forall i, j :: 0 <= i < j < |members| ==> members[i].agentId != members[j].agentId
  }

  lemma GoodIdsDiffer(members: seq<Member>, team: string)
    requires GoodMembers(members, team)
    ensures DistinctIds(members)
  {
    forall i, j | 0 <= i < j < |members|
      ensures members[i].agentId != members[j].agentId
    {
      if members[i].agentId == members[j].agentId {
        SameIdSameName(members[i], members[j], team);
      }
    }
  }

  lemma FindById(strict: bool, a: seq<Member>, b: seq<Member>, k: nat)
    requires Agree(strict, a, b) && DistinctIds(b) && k < |b|
    ensures Find(a, ById(b[k].agentId), 0) == Some(k)
  {
    FindMeaning(a, ById(b[k].agentId), 0);
    forall i | 0 <= i < |a|
      ensures a[i].agentId == b[i].agentId
    {
      assert Forget(strict, a[i]) == Forget(strict, b[i]);
    }
  }

  lemma UpsertAgrees(strict: bool, a: seq<Member>, b: seq<Member>, k: nat, m: Member)
    requires Agree(strict, a, b) && DistinctIds(b) && k < |b| && m.agentId == b[k].agentId
    ensures Upsert(a, m) == a[k := m]
    ensures Agree(strict, Upsert(a, m), b[k := m])
  {
    FindById(strict, a, b, k);
  }

  lemma UpsertNewAgrees(strict: bool, a: seq<Member>, b: seq<Member>, m: Member, team: string)
    requires Agree(strict, a, b) && GoodMembers(b, team)
    requires m.agentId == AgentId(m.name, team) && m.name !in NamesOf(b)
    ensures Agree(strict, Upsert(a, m), b + [m])
  {
    FindMeaning(a, ById(m.agentId), 0);
    forall i | 0 <= i < |b|
      ensures a[i].agentId != m.agentId
    {
      assert Forget(strict, a[i]) == Forget(strict, b[i]);
      assert NamesOf(b)[i] == b[i].name;
      if a[i].agentId == m.agentId {
        SameIdSameName(b[i], m, team);
      }
    }
  }

  lemma StrictlyAgree(a: seq<Member>, b: seq<Member>)
    ensures Agree(true, a, b) <==> a == b
  {
    if Agree(true, a, b) {
      forall i | 0 <= i < |a|
        ensures a[i] == b[i]
      {
        assert Forget(true, a[i]) == Forget(true, b[i]);
      }
    }
  }

  lemma AgreeConcat(strict: bool, a: seq<Member>, b: seq<Member>, c: seq<Member>, d: seq<Member>)
    requires Agree(strict, a, b) && Agree(strict, c, d)
    ensures Agree(strict, a + c, b + d)
  {
  }

  function Kept(m: Member, agentId: string): seq<Member> {
    if m.agentId == agentId then [] else [m]
  }

  lemma {:induction false} WithoutAgrees(strict: bool, a: seq<Member>, b: seq<Member>, agentId: string)
    requires Agree(strict, a, b)
    ensures Agree(strict, Without(a, agentId), Without(b, agentId))
  {
    if a != [] {
      var n := |a| - 1;
      WithoutAgrees(strict, a[..n], b[..n], agentId);
      assert Forget(strict, a[n]) == Forget(strict, b[n]);
      AgreeConcat(strict, Without(a[..n], agentId), Without(b[..n], agentId), Kept(a[n], agentId), Kept(b[n], agentId));
    }
  }

  /** The batch applied to the first `n` members. */
  ghost function BatchUpTo(members: seq<Member>, n: nat, updates: seq<ModeUpdate>): seq<Member> {
    seq(|members|, i requires 0 <= i < |members| => if i < n then WithMode(updates, members[i]) else members[i])
  }

  lemma BatchUpToNext(members: seq<Member>, n: nat, updates: seq<ModeUpdate>)
    requires n < |members| && DistinctIds(members)
    ensures DistinctIds(BatchUpTo(members, n, updates))
    ensures BatchUpTo(members, n + 1, updates) == BatchUpTo(members, n, updates)[n := WithMode(updates, members[n])]
    ensures BatchUpTo(members, n, updates)[n] == members[n]
  {
  }

  /** The mirror once the changed members among the first `n` were put in. */
  ghost function MirrorUpTo(a: seq<Member>, b: seq<Member>, n: nat, updates: seq<ModeUpdate>): seq<Member>
    requires n <= |b|
  {
    if n == 0 then a
    else if Changes(updates, b[n - 1]) then Upsert(MirrorUpTo(a, b, n - 1, updates), WithMode(updates, b[n - 1]))
    else MirrorUpTo(a, b, n - 1, updates)
  }

  lemma {:induction false} MirrorUpToIsUpsertAll(a: seq<Member>, b: seq<Member>, n: nat, updates: seq<ModeUpdate>)
    requires n <= |b|
    ensures UpsertAll(a, ChangedUpTo(b, n, updates)) == MirrorUpTo(a, b, n, updates)
  {
    if n > 0 {
      MirrorUpToIsUpsertAll(a, b, n - 1, updates);
      var now := ChangedUpTo(b, n, updates);
      if Changes(updates, b[n - 1]) {
        assert now[..|now| - 1] == ChangedUpTo(b, n - 1, updates);
      } else {
        assert now == ChangedUpTo(b, n - 1, updates);
      }
    }
  }

  lemma BatchStep(strict: bool, a: seq<Member>, b: seq<Member>, n: nat, updates: seq<ModeUpdate>)
    requires 0 < n <= |b| && DistinctIds(b)
    requires Agree(strict, MirrorUpTo(a, b, n - 1, updates), BatchUpTo(b, n - 1, updates))
    ensures Agree(strict, MirrorUpTo(a, b, n, updates), BatchUpTo(b, n, updates))
  {
    var mirror := MirrorUpTo(a, b, n - 1, updates);
    BatchUpToNext(b, n - 1, updates);
    if Changes(updates, b[n - 1]) {
      UpsertAgrees(strict, mirror, BatchUpTo(b, n - 1, updates), n - 1, WithMode(updates, b[n - 1]));
    } else {
      assert BatchUpTo(b, n, updates) == BatchUpTo(b, n - 1, updates);
    }
  }

  lemma {:induction false} BatchPrefix(strict: bool, a: seq<Member>, b: seq<Member>, n: nat, updates: seq<ModeUpdate>)
    requires Agree(strict, a, b) && DistinctIds(b) && n <= |b|
    ensures Agree(strict, MirrorUpTo(a, b, n, updates), BatchUpTo(b, n, updates))
  {
    if n == 0 {
      assert BatchUpTo(b, 0, updates) == b;
    } else {
      BatchPrefix(strict, a, b, n - 1, updates);
      BatchStep(strict, a, b, n, updates);
    }
  }

  lemma BatchAgrees(strict: bool, a: seq<Member>, b: seq<Member>, updates: seq<ModeUpdate>)
    requires Agree(strict, a, b) && DistinctIds(b)
    ensures Agree(strict, UpsertAll(a, Changed(b, updates)), Batch(b, updates))
  {
    BatchPrefix(strict, a, b, |b|, updates);
    MirrorUpToIsUpsertAll(a, b, |b|, updates);
    assert Batch(b, updates) == BatchUpTo(b, |b|, updates);
  }

  lemma ReserveMirrors(strict: bool, r: Roster, op: Op, f: Faults)
    requires op.Reserve? && GoodDisk(r) && Proper(r, op) && Mirrored(strict, r) && OnActiveTeam(r, op)
    ensures Mirrored(strict, Apply(r, op, f))
  {
    var key := Names.Sanitize(op.team);
    if r.active.Some? && key in r.disk {
      var file := r.disk[key];
      ProperIsNew(r, op);
      UpsertNewAgrees(strict, MirrorMembers(r.active), file.members,
                      NewMember(NewName(file, op.request, op.fragment), op.team, op.request, op.now), op.team);
    }
  }

  lemma EditMirrors(strict: bool, r: Roster, op: Op, f: Faults)
    requires op.EditMember? && GoodDisk(r) && Mirrored(strict, r) && OnActiveTeam(r, op)
    ensures Mirrored(strict, Apply(r, op, f))
  {
    var key := Names.Sanitize(op.team);
    if r.active.Some? && key in r.disk {
      var members := r.disk[key].members;
      FindMeaning(members, op.key, 0);
      var at := Find(members, op.key, 0);
      if at.Some? {
        GoodIdsDiffer(members, r.disk[key].name);
        UpsertAgrees(strict, MirrorMembers(r.active), members, at.value, ApplyEdit(op.edit, members[at.value]));
      }
    }
  }

  lemma RollbackMirrors(strict: bool, r: Roster, op: Op, f: Faults)
    requires op.Rollback? && Mirrored(strict, r) && OnActiveTeam(r, op)
    ensures Mirrored(strict, Apply(r, op, f))
  {
    var key := Names.Sanitize(op.team);
    if r.active.Some? {
      WithoutAgrees(strict, MirrorMembers(r.active), r.disk[key].members, op.agentId);
    }
  }

  lemma ApplyMirrors(strict: bool, r: Roster, op: Op, f: Faults)
    requires GoodDisk(r) && Proper(r, op) && Mirrored(strict, r) && OnActiveTeam(r, op)
    requires strict ==> !op.TeammateMode?
    ensures Mirrored(strict, Apply(r, op, f))
  {
    match op
    case Initialize(_, _, _, _, _, _, _) =>
    case Reserve(_, _, _, _) => ReserveMirrors(strict, r, op, f);
    case EditMember(_, _, _) => EditMirrors(strict, r, op, f);
    case SetModes(team, updates) =>
      var key := Names.Sanitize(team);
      if r.active.Some? && key in r.disk {
        GoodIdsDiffer(r.disk[key].members, r.disk[key].name);
        BatchAgrees(strict, MirrorMembers(r.active), r.disk[key].members, updates);
      }
    case Rollback(_, _) => RollbackMirrors(strict, r, op, f);
    case TeammateMode(_, _, _) =>
  }

  lemma {:induction false} WriteThroughRun(strict: bool, r: Roster, calls: seq<Call>)
    requires GoodDisk(r) && AllProper(r, calls) && Mirrored(strict, r) && AllOnActiveTeam(r, calls)
    requires strict ==> LeaderOnly(calls)
    ensures Mirrored(strict, Run(r, calls))
    decreases |calls|
  {
    if calls != [] {
      ApplyKeepsGood(r, calls[0].op, calls[0].faults);
      ApplyMirrors(strict, r, calls[0].op, calls[0].faults);
      WriteThroughRun(strict, Apply(r, calls[0].op, calls[0].faults), calls[1..]);
    }
  }

  /** After any run of leader operations on the active team, with any read and write failures, the
      mirror's file is exactly the file on disk; teammates' own mode writes can only make modes differ. */
  lemma MirrorIsTheDisk(r: Roster, calls: seq<Call>)
    requires GoodDisk(r) && AllProper(r, calls) && r.active.None? && AllOnActiveTeam(r, calls)
    ensures var after := Run(r, calls);
            after.active.Some? ==>
              var key := Names.Sanitize(after.active.value.teamName);
              && key in after.disk
              && Agree(false, after.active.value.file.members, after.disk[key].members)
              && (LeaderOnly(calls) ==> after.active.value.file == after.disk[key])
  {
    WriteThroughRun(false, r, calls);
    if LeaderOnly(calls) {
      WriteThroughRun(true, r, calls);
      var after := Run(r, calls);
      if after.active.Some? {
        var file := after.active.value.file;
        var disk := after.disk[Names.Sanitize(after.active.value.teamName)];
        StrictlyAgree(file.members, disk.members);
        assert file == file.(members := []).(members := file.members);
        assert disk == disk.(members := []).(members := disk.members);
      }
    }
  }

  // ---------------------------------------------------------------- one batch, many single writes

  const NO_FAULTS := Faults(false, false)

  /** The mode updates made one call at a time. */
  function OneByOne(team: string, updates: seq<ModeUpdate>): seq<Call> {
    seq(|updates|, i requires 0 <= i < |updates| =>
      Call(EditMember(team, ByName(updates[i].0), SetMode(updates[i].1)), NO_FAULTS))
  }

  ghost function Fold(members: seq<Member>, updates: seq<ModeUpdate>): seq<Member>
    decreases |updates|
  {
    if updates == [] then members
    else Fold(EditFirst(members, ByName(updates[0].0), SetMode(updates[0].1)), updates[1..])
  }

  lemma {:induction false} WantedFront(updates: seq<ModeUpdate>, name: string)
    requires updates != []
    ensures Wanted(updates, name) ==
            if Wanted(updates[1..], name).Some? then Wanted(updates[1..], name)
            else if updates[0].0 == name then Some(updates[0].1) else None
    decreases |updates|
  {
    var n := |updates| - 1;
    if n > 0 {
      assert updates[1..][..n - 1] == updates[..n][1..];
      assert updates[1..][n - 1] == updates[n];
      WantedFront(updates[..n], name);
    }
  }

  /** With distinct names, setting one member's mode by name changes exactly the members so named. */
  lemma EditByName(members: seq<Member>, u: ModeUpdate, i: nat)
    requires DistinctNames(members) && i < |members|
    ensures |EditFirst(members, ByName(u.0), SetMode(u.1))| == |members|
    ensures EditFirst(members, ByName(u.0), SetMode(u.1))[i] ==
            if members[i].name == u.0 then members[i].(mode := Some(u.1)) else members[i]
  {
    FindMeaning(members, ByName(u.0), 0);
  }

  lemma {:induction false} FoldIsBatch(members: seq<Member>, updates: seq<ModeUpdate>)
    requires DistinctNames(members)
    ensures Fold(members, updates) == Batch(members, updates)
    decreases |updates|
  {
    if updates == [] {
      assert Batch(members, updates) == members;
    } else {
      var first := EditFirst(members, ByName(updates[0].0), SetMode(updates[0].1));
      forall i | 0 <= i < |members|
        ensures |first| == |members| && first[i].name == members[i].name
        ensures WithMode(updates[1..], first[i]) == WithMode(updates, members[i])
      {
        EditByName(members, updates[0], i);
        WantedFront(updates, members[i].name);
      }
      FindMeaning(members, ByName(updates[0].0), 0);
      FoldIsBatch(first, updates[1..]);
      assert Batch(first, updates[1..]) == Batch(members, updates);
    }
  }

  lemma {:induction false} OneByOneOnDisk(r: Roster, team: string, updates: seq<ModeUpdate>)
    ensures var key := Names.Sanitize(team);
            Run(r, OneByOne(team, updates)).disk ==
            if key in r.disk then r.disk[key := r.disk[key].(members := Fold(r.disk[key].members, updates))] else r.disk
    decreases |updates|
  {
    var key := Names.Sanitize(team);
    if updates == [] {
      assert key in r.disk ==> r.disk[key := r.disk[key].(members := r.disk[key].members)] == r.disk;
    } else {
      var next := Apply(r, OneByOne(team, updates)[0].op, NO_FAULTS);
      assert OneByOne(team, updates)[1..] == OneByOne(team, updates[1..]);
      OneByOneOnDisk(next, team, updates[1..]);
      if key in r.disk {
        UpdateTwice(r.disk, key, next.disk[key], Run(next, OneByOne(team, updates[1..])).disk[key]);
      }
    }
  }

  /** One batch leaves the disk as the single updates in order would, and writes the file at most
      once: exactly once when some member's mode really changes. */
  lemma BatchIsOneByOne(r: Roster, team: string, updates: seq<ModeUpdate>)
    requires GoodDisk(r)
    ensures var batch := Apply(r, SetModes(team, updates), NO_FAULTS);
            && batch.disk == Run(r, OneByOne(team, updates)).disk
            && batch.writes == r.writes + (if batch.disk != r.disk then 1 else 0)
  {
    var key := Names.Sanitize(team);
    OneByOneOnDisk(r, team, updates);
    if key in r.disk {
      var members := r.disk[key].members;
      FoldIsBatch(members, updates);
      ChangedMeaning(members, |members|, updates);
      if Changed(members, updates) == [] {
        assert Batch(members, updates) == members;
        assert r.disk[key := r.disk[key].(members := members)] == r.disk;
      } else {
        assert Batch(members, updates) != members;
      }
    }
  }

  lemma {:induction false} ChangedMeaning(members: seq<Member>, n: nat, updates: seq<ModeUpdate>)
    requires n <= |members|
    ensures ChangedUpTo(members, n, updates) == [] ==>
              forall i :: 0 <= i < n ==> WithMode(updates, members[i]) == members[i]
    ensures ChangedUpTo(members, n, updates) != [] ==>
              exists i :: 0 <= i < n && WithMode(updates, members[i]) != members[i]
  {
    if n > 0 {
      ChangedMeaning(members, n - 1, updates);
    }
  }

  // ---------------------------------------------------------------- undo

  lemma {:induction false} WithoutConcat(a: seq<Member>, b: seq<Member>, agentId: string)
    ensures Without(a + b, agentId) == Without(a, agentId) + Without(b, agentId)
    decreases |b|
  {
    if b == [] {
      assert a + b == a;
    } else {
      var n := |b| - 1;
      assert (a + b)[..|a| + n] == a + b[..n];
      WithoutConcat(a, b[..n], agentId);
    }
  }

  lemma WithoutNone(members: seq<Member>, agentId: string)
    requires NoneHas(members, agentId)
    ensures Without(members, agentId) == members
  {
    WithoutMeaning(members, agentId);
  }

  lemma WithoutMiddle(a: seq<Member>, m: Member, b: seq<Member>)
    requires NoneHas(a, m.agentId) && NoneHas(b, m.agentId)
    ensures Without(a + [m] + b, m.agentId) == a + b
  {
    WithoutConcat(a + [m], b, m.agentId);
    WithoutConcat(a, [m], m.agentId);
    WithoutNone(a, m.agentId);
    WithoutNone(b, m.agentId);
    assert Without([m], m.agentId) == [];
  }

  lemma OthersLackTheId(a: seq<Member>, m: Member, b: seq<Member>)
    requires DistinctIds(a + [m] + b)
    ensures NoneHas(a, m.agentId) && NoneHas(b, m.agentId)
  {
    var all := a + [m] + b;
    assert all[|a|] == m;
    forall i | 0 <= i < |a|
      ensures a[i].agentId != m.agentId
    {
      assert all[i] == a[i];
    }
    forall i | 0 <= i < |b|
      ensures b[i].agentId != m.agentId
    {
      assert all[|a| + 1 + i] == b[i];
    }
  }

  /** Removing an id takes out exactly its one holder and keeps the others in order. */
  lemma WithoutOne(a: seq<Member>, m: Member, b: seq<Member>)
    requires DistinctIds(a + [m] + b)
    ensures Without(a + [m] + b, m.agentId) == a + b
  {
    OthersLackTheId(a, m, b);
    WithoutMiddle(a, m, b);
  }

  /** Whenever it comes, a rollback takes exactly the one member out of its team's file. */
  lemma RollbackRemovesOnly(r: Roster, team: string, a: seq<Member>, m: Member, b: seq<Member>)
    requires GoodDisk(r) && Names.Sanitize(team) in r.disk
    requires r.disk[Names.Sanitize(team)].members == a + [m] + b
    ensures var key := Names.Sanitize(team);
            Apply(r, Rollback(team, m.agentId), NO_FAULTS).disk == r.disk[key := r.disk[key].(members := a + b)]
  {
    var file := r.disk[Names.Sanitize(team)];
    GoodIdsDiffer(file.members, file.name);
    WithoutOne(a, m, b);
    assert |a + [m] + b| != |a + b|;
  }

  /** Rolling a reservation back restores the disk and the mirror as they were. */
  lemma RollbackUndoesReserve(r: Roster, op: Op)
    requires op.Reserve? && GoodDisk(r) && Proper(r, op) && Mirrored(true, r) && OnActiveTeam(r, op)
    requires Names.Sanitize(op.team) in r.disk
    ensures var name := NewName(r.disk[Names.Sanitize(op.team)], op.request, op.fragment);
            Run(r, [Call(op, NO_FAULTS), Call(Rollback(op.team, AgentId(name, op.team)), NO_FAULTS)]) ==
            r.(writes := r.writes + 2)
  {
    var key := Names.Sanitize(op.team);
    var file := r.disk[key];
    var m := NewMember(NewName(file, op.request, op.fragment), op.team, op.request, op.now);
    ProperIsNew(r, op);
    forall i | 0 <= i < |file.members|
      ensures file.members[i].agentId != m.agentId
    {
      assert NamesOf(file.members)[i] == file.members[i].name;
      if file.members[i].agentId == m.agentId {
        SameIdSameName(file.members[i], m, op.team);
      }
    }
    var reserved := Apply(r, op, NO_FAULTS);
    var undo := Rollback(op.team, m.agentId);
    ReserveUndone(r, op, m);
    var calls := [Call(op, NO_FAULTS), Call(undo, NO_FAULTS)];
    assert calls[1..] == [Call(undo, NO_FAULTS)] && calls[1..][1..] == [];
    assert Run(r, calls) == Run(reserved, calls[1..]) == Run(Apply(reserved, undo, NO_FAULTS), []);
  }

  lemma ReserveUndone(r: Roster, op: Op, m: Member)
    requires op.Reserve? && Mirrored(true, r) && OnActiveTeam(r, op) && Names.Sanitize(op.team) in r.disk
    requires var file := r.disk[Names.Sanitize(op.team)];
             && m == NewMember(NewName(file, op.request, op.fragment), op.team, op.request, op.now)
             && NoneHas(file.members, m.agentId)
    ensures Apply(Apply(r, op, NO_FAULTS), Rollback(op.team, m.agentId), NO_FAULTS) == r.(writes := r.writes + 2)
  {
    var key := Names.Sanitize(op.team);
    var file := r.disk[key];
    var reserved := Apply(r, op, NO_FAULTS);
    WithoutMiddle(file.members, m, []);
    assert file.members + [m] + [] == file.members + [m] && file.members + [] == file.members;
    assert reserved.disk[key].members == file.members + [m];
    UpdateTwice(r.disk, key, reserved.disk[key], file);
    assert r.disk[key := file] == r.disk;
    if r.active.Some? {
      StrictlyAgree(MirrorMembers(r.active), file.members);
      FindMeaning(file.members, ById(m.agentId), 0);
      assert MirrorMembers(reserved.active) == file.members + [m];
    }
  }

  // ---------------------------------------------------------------- the wrong team

  /** The operation ends before it touches anything. */
  predicate Stops(r: Roster, op: Op, f: Faults) {
    f.readFails || f.writeFails || Names.Sanitize(op.team) !in r.disk
  }

  lemma UpsertHas(members: seq<Member>, m: Member)
    ensures m in Upsert(members, m)
  {
    FindMeaning(members, ById(m.agentId), 0);
    match Find(members, ById(m.agentId), 0)
    case Some(i) => assert Upsert(members, m)[i] == m;
    case None => assert Upsert(members, m)[|members|] == m;
  }

  lemma SameIdSameTeam(name: string, team: string, other: string)
    requires AgentId(name, team) == AgentId(name, other)
    ensures team == other
  {
    assert AgentId(name, team)[|name| + 1..] == team && AgentId(name, other)[|name| + 1..] == other;
  }

  /** Nobody is a member of two teams. */
  lemma StrayMember(members: seq<Member>, m: Member, team: string, other: string)
    requires IdsFollowNames(members, team) && m.agentId == AgentId(m.name, other) && team != other
    ensures m !in members
  {
    if m in members {
      SameIdSameTeam(m.name, team, other);
    }
  }

  /** An operation for another team leaves the active team's file alone, so the mirror must stay as it is. */
  lemma OffTeam(r: Roster, op: Op, f: Faults)
    requires GoodDisk(r) && Mirrored(true, r) && r.active.Some? && !OnActiveTeam(r, op)
    ensures Mirrored(true, Apply(r, op, f)) <==> MirrorMembers(Apply(r, op, f).active) == MirrorMembers(r.active)
  {
    var key := Names.Sanitize(r.active.value.teamName);
    var after := Apply(r, op, f);
    assert after.disk[key] == r.disk[key];
    StrictlyAgree(MirrorMembers(r.active), r.disk[key].members);
    StrictlyAgree(MirrorMembers(after.active), r.disk[key].members);
  }

  /** Putting a member of another team's file into the mirror changes it. */
  lemma StrayChanges(r: Roster, op: Op, m: Member, members: seq<Member>)
    requires GoodDisk(r) && Mirrored(true, r) && r.active.Some? && !OnActiveTeam(r, op)
    requires m in members
    requires exists other: string ::
               Names.Sanitize(other) == Names.Sanitize(op.team) && m.agentId == AgentId(m.name, other)
    ensures members != MirrorMembers(r.active)
  {
    var key := Names.Sanitize(r.active.value.teamName);
    var other: string :| Names.Sanitize(other) == Names.Sanitize(op.team) && m.agentId == AgentId(m.name, other);
    StrictlyAgree(MirrorMembers(r.active), r.disk[key].members);
    StrayMember(MirrorMembers(r.active), m, r.disk[key].name, other);
  }

  /** The store does not ask which team a request is for: a reservation keeps mirror and disk in step
      exactly when it fails or is for the active team. */
  lemma ReserveMirrorsIff(r: Roster, op: Op, f: Faults)
    requires op.Reserve? && GoodDisk(r) && Proper(r, op) && Mirrored(true, r) && r.active.Some?
    ensures Mirrored(true, Apply(r, op, f)) <==> Stops(r, op, f) || OnActiveTeam(r, op)
  {
    if OnActiveTeam(r, op) {
      ReserveMirrors(true, r, op, f);
    } else if !Stops(r, op, f) {
      var file := r.disk[Names.Sanitize(op.team)];
      var m := NewMember(NewName(file, op.request, op.fragment), op.team, op.request, op.now);
      OffTeam(r, op, f);
      UpsertHas(MirrorMembers(r.active), m);
      StrayChanges(r, op, m, Upsert(MirrorMembers(r.active), m));
    }
  }

  /** An edit of one member keeps them in step exactly when it fails, is for the active team, or finds nobody. */
  lemma EditMirrorsIff(r: Roster, op: Op, f: Faults)
    requires op.EditMember? && GoodDisk(r) && Mirrored(true, r) && r.active.Some?
    ensures Mirrored(true, Apply(r, op, f)) <==>
              || Stops(r, op, f) || OnActiveTeam(r, op)
              || forall m :: m in r.disk[Names.Sanitize(op.team)].members ==> !Matches(op.key, m)
  {
    if OnActiveTeam(r, op) {
      EditMirrors(true, r, op, f);
    } else if !Stops(r, op, f) {
      var file := r.disk[Names.Sanitize(op.team)];
      OffTeam(r, op, f);
      FindMeaning(file.members, op.key, 0);
      match Find(file.members, op.key, 0)
      case Some(i) =>
        var m := ApplyEdit(op.edit, file.members[i]);
        UpsertHas(MirrorMembers(r.active), m);
        StrayChanges(r, op, m, Upsert(MirrorMembers(r.active), m));
      case None =>
    }
  }

  lemma {:induction false} ChangedAreGood(members: seq<Member>, n: nat, updates: seq<ModeUpdate>, team: string)
    requires n <= |members| && IdsFollowNames(members, team)
    ensures IdsFollowNames(ChangedUpTo(members, n, updates), team)
  {
    if n > 0 {
      ChangedAreGood(members, n - 1, updates, team);
    }
  }

  /** The batch keeps them in step exactly when it fails, is for the active team, or changes nobody. */
  lemma ModesMirrorIff(r: Roster, op: Op, f: Faults)
    requires op.SetModes? && GoodDisk(r) && Mirrored(true, r) && r.active.Some?
    ensures Mirrored(true, Apply(r, op, f)) <==>
              || Stops(r, op, f) || OnActiveTeam(r, op)
              || forall m :: m in r.disk[Names.Sanitize(op.team)].members ==> !Changes(op.updates, m)
  {
    if OnActiveTeam(r, op) {
      ApplyMirrors(true, r, op, f);
    } else if !Stops(r, op, f) {
      var file := r.disk[Names.Sanitize(op.team)];
      var changed := Changed(file.members, op.updates);
      OffTeam(r, op, f);
      ChangedMeaning(file.members, |file.members|, op.updates);
      if changed != [] {
        var m := changed[|changed| - 1];
        ChangedAreGood(file.members, |file.members|, op.updates, file.name);
        UpsertHas(UpsertAll(MirrorMembers(r.active), changed[..|changed| - 1]), m);
        StrayChanges(r, op, m, UpsertAll(MirrorMembers(r.active), changed));
      }
    }
  }

  lemma WithoutSameIff(members: seq<Member>, agentId: string)
    ensures Without(members, agentId) == members <==> NoneHas(members, agentId)
  {
    WithoutMeaning(members, agentId);
  }

  /** The rollback ends before it touches anything. */
  ghost predicate RollbackStops(r: Roster, op: Op, f: Faults)
    requires op.Rollback?
  {
    var key := Names.Sanitize(op.team);
    f.readFails || (f.writeFails && key in r.disk && !NoneHas(r.disk[key].members, op.agentId))
  }

  lemma RollbackMirror(r: Roster, op: Op, f: Faults)
    requires op.Rollback? && r.active.Some?
    ensures MirrorMembers(Apply(r, op, f).active) ==
            if RollbackStops(r, op, f) then MirrorMembers(r.active) else Without(MirrorMembers(r.active), op.agentId)
  {
    var key := Names.Sanitize(op.team);
    if key in r.disk {
      WithoutSameIff(r.disk[key].members, op.agentId);
    }
  }

  /** A rollback keeps them in step exactly when it fails, is for the active team, or names an id the mirror
      does not have. It edits the mirror even when the team has no file. */
  lemma RollbackMirrorsIff(r: Roster, op: Op, f: Faults)
    requires op.Rollback? && GoodDisk(r) && Mirrored(true, r) && r.active.Some?
    ensures Mirrored(true, Apply(r, op, f)) <==>
              RollbackStops(r, op, f) || OnActiveTeam(r, op) || NoneHas(MirrorMembers(r.active), op.agentId)
  {
    if OnActiveTeam(r, op) {
      RollbackMirrors(true, r, op, f);
    } else {
      OffTeam(r, op, f);
      RollbackMirror(r, op, f);
      WithoutSameIff(MirrorMembers(r.active), op.agentId);
    }
  }

  /** A teammate's own mode write reaches the disk only: it keeps them in step exactly when it fails, is for
      another team, finds nobody, or asks for the mode that is already there. */
  lemma TeammateModeMirrorsIff(r: Roster, op: Op, f: Faults)
    requires op.TeammateMode? && GoodDisk(r) && Mirrored(true, r) && r.active.Some?
    ensures Mirrored(true, Apply(r, op, f)) <==>
              || Stops(r, op, f) || !OnActiveTeam(r, op)
              || forall m :: m in r.disk[Names.Sanitize(op.team)].members ==>
                   m.name == op.memberName ==> m.mode == Some(op.mode)
  {
    if !OnActiveTeam(r, op) {
      OffTeam(r, op, f);
    } else if !Stops(r, op, f) {
      var members := r.disk[Names.Sanitize(op.team)].members;
      var after := EditFirst(members, ByName(op.memberName), SetMode(op.mode));
      StrictlyAgree(MirrorMembers(r.active), members);
      StrictlyAgree(MirrorMembers(r.active), after);
      FindMeaning(members, ByName(op.memberName), 0);
      match Find(members, ByName(op.memberName), 0)
      case Some(i) =>
        assert after[i] == members[i].(mode := Some(op.mode));
      case None =>
    }
  }
}
