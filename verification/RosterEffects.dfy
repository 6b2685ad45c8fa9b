/**
  What every roster operation leaves behind, field by field: which file it changes, which member of it, and
  what that member says afterwards. Everything not named is as it was.
*/
module RosterEffects {
  import opened Prelude
  import opened Roster
  import Names = TeammateNames

  /** Only the team's own file may change, and of that only the member list. */
  ghost predicate OnlyMembersOf(r: Roster, after: Roster, key: string) {
    && after.disk.Keys == r.disk.Keys && key in r.disk
    && (forall other :: other in r.disk && other != key ==> after.disk[other] == r.disk[other])
    && after.disk[key].name == r.disk[key].name && after.disk[key].createdAt == r.disk[key].createdAt
    && after.disk[key].leadAgentId == r.disk[key].leadAgentId
    && after.disk[key].leadSessionId == r.disk[key].leadSessionId
  }

  /** A mirror that showed the team's file shows it again. */
  ghost predicate StaysMirrored(r: Roster, after: Roster, key: string) {
    GoodDisk(r) && Mirrored(true, r) && r.active.Some? && Names.Sanitize(r.active.value.teamName) == key ==>
      key in after.disk && after.active.Some? && after.active.value.file == after.disk[key]
  }

  // ---------------------------------------------------------------- editing one member

  /** Who a member is, where it works and how it was spawned; no edit touches these. */
  ghost predicate SamePerson(m: Member, m': Member) {
    && m'.agentId == m.agentId && m'.name == m.name && m'.agentType == m.agentType && m'.model == m.model
    && m'.prompt == m.prompt && m'.planModeRequired == m.planModeRequired && m'.joinedAt == m.joinedAt
    && m'.cwd == m.cwd && m'.worktreePath == m.worktreePath
  }

  ghost predicate SameProcess(m: Member, m': Member) {
    m'.backend == m.backend && m'.sessionId == m.sessionId && m'.paneId == m.paneId
  }

  /** What the edit makes of the member. */
  ghost predicate Edited(edit: Edit, m: Member, m': Member) {
    SamePerson(m, m') &&
    match edit
    case Commit(backend, paneId, sessionId) =>
      && m'.isActive && m'.backend == Some(backend) && m'.sessionId == sessionId
      && (paneId.Some? ==> m'.paneId == paneId.value) && (paneId.None? ==> m'.paneId == "")
      && m'.color == m.color && m'.mode == m.mode
    case SetColor(color) =>
      m'.color == Some(color) && SameProcess(m, m') && m'.isActive == m.isActive && m'.mode == m.mode
    case SetActive(isActive) =>
      m'.isActive == isActive && SameProcess(m, m') && m'.color == m.color && m'.mode == m.mode
    case SetMode(mode) =>
      m'.mode == Some(mode) && SameProcess(m, m') && m'.color == m.color && m'.isActive == m.isActive
  }

  ghost predicate IsFirst(members: seq<Member>, key: Key, i: nat) {
    && i < |members|
    && (key.ById? ==> members[i].agentId == key.agentId && forall j :: 0 <= j < i ==> members[j].agentId != key.agentId)
    && (key.ByName? ==> members[i].name == key.name && forall j :: 0 <= j < i ==> members[j].name != key.name)
  }

  /** The first member found is edited, in its place; the others are as before. */
  ghost predicate EditedAt(r: Roster, after: Roster, key: string, edit: Edit, i: nat) {
    && OnlyMembersOf(r, after, key)
    && var members, members' := r.disk[key].members, after.disk[key].members;
    && |members'| == |members| && i < |members| && Edited(edit, members[i], members'[i])
    && forall j :: 0 <= j < |members| && j != i ==> members'[j] == members[j]
  }

  lemma FirstIsFound(members: seq<Member>, key: Key, i: nat)
    requires IsFirst(members, key, i)
    ensures Find(members, key, 0) == Some(i)
  {
    FindMeaning(members, key, 0);
  }

  lemma MirrorShows(r: Roster, after: Roster, key: string)
    requires GoodDisk(r) && Mirrored(true, r) && r.active.Some? && Names.Sanitize(r.active.value.teamName) == key ==>
               Mirrored(true, after) && after.active.Some? && Names.Sanitize(after.active.value.teamName) == key
    ensures StaysMirrored(r, after, key)
  {
    if GoodDisk(r) && Mirrored(true, r) && r.active.Some? && Names.Sanitize(r.active.value.teamName) == key {
      var file, disk := after.active.value.file, after.disk[key];
      StrictlyAgree(file.members, disk.members);
      assert file == file.(members := []).(members := file.members);
      assert disk == disk.(members := []).(members := disk.members);
    }
  }

  lemma EditIsEdited(edit: Edit, m: Member)
    ensures Edited(edit, m, ApplyEdit(edit, m))
  {
  }

  lemma EditedInPlace(r: Roster, key: string, edit: Edit, i: nat, after: Roster)
    requires key in r.disk && i < |r.disk[key].members|
    requires var members := r.disk[key].members;
             after.disk == r.disk[key := r.disk[key].(members := members[i := ApplyEdit(edit, members[i])])]
    ensures EditedAt(r, after, key, edit, i)
  {
    EditIsEdited(edit, r.disk[key].members[i]);
  }

  lemma EditStaysMirrored(r: Roster, op: Op, f: Faults)
    requires op.EditMember?
    ensures StaysMirrored(r, Apply(r, op, f), Names.Sanitize(op.team))
  {
    var key := Names.Sanitize(op.team);
    if GoodDisk(r) && Mirrored(true, r) && r.active.Some? && Names.Sanitize(r.active.value.teamName) == key {
      EditMirrors(true, r, op, f);
    }
    MirrorShows(r, Apply(r, op, f), key);
  }

  /** A commit, a colour, an activity or a mode for one member, by id or by name. */
  lemma EditLeaves(r: Roster, op: Op, f: Faults, i: nat)
    requires op.EditMember? && !Stops(r, op, f) && IsFirst(r.disk[Names.Sanitize(op.team)].members, op.key, i)
    ensures EditedAt(r, Apply(r, op, f), Names.Sanitize(op.team), op.edit, i)
    ensures Apply(r, op, f).writes == r.writes + 1
    ensures StaysMirrored(r, Apply(r, op, f), Names.Sanitize(op.team))
  {
    var key := Names.Sanitize(op.team);
    FirstIsFound(r.disk[key].members, op.key, i);
    EditedInPlace(r, key, op.edit, i, Apply(r, op, f));
    EditStaysMirrored(r, op, f);
  }

  /** Nobody so named or with that id: nothing happens. */
  lemma EditOfNobody(r: Roster, op: Op, f: Faults)
    requires op.EditMember? && Names.Sanitize(op.team) in r.disk
    requires forall i: nat :: !IsFirst(r.disk[Names.Sanitize(op.team)].members, op.key, i)
    ensures Apply(r, op, f) == r
  {
    var members := r.disk[Names.Sanitize(op.team)].members;
    FindMeaning(members, op.key, 0);
    if Find(members, op.key, 0).Some? {
      assert IsFirst(members, op.key, Find(members, op.key, 0).value);
    }
  }

  /** A teammate's own mode write: the same on disk, and the mirror is left alone. */
  lemma TeammateModeLeaves(r: Roster, op: Op, f: Faults, i: nat)
    requires op.TeammateMode? && !Stops(r, op, f)
    requires IsFirst(r.disk[Names.Sanitize(op.team)].members, ByName(op.memberName), i)
    ensures EditedAt(r, Apply(r, op, f), Names.Sanitize(op.team), SetMode(op.mode), i)
    ensures Apply(r, op, f).active == r.active && Apply(r, op, f).writes == r.writes + 1
  {
    var key := Names.Sanitize(op.team);
    FirstIsFound(r.disk[key].members, ByName(op.memberName), i);
    EditedInPlace(r, key, SetMode(op.mode), i, Apply(r, op, f));
  }

  // ---------------------------------------------------------------- the batch

  /** `k` is the last update for the name. */
  ghost predicate IsLastFor(updates: seq<ModeUpdate>, name: string, k: nat) {
    k < |updates| && updates[k].0 == name && forall j :: k < j < |updates| ==> updates[j].0 != name
  }

  ghost predicate Unnamed(updates: seq<ModeUpdate>, name: string) {
    forall j :: 0 <= j < |updates| ==> updates[j].0 != name
  }

  lemma {:induction false} WantedIsLast(updates: seq<ModeUpdate>, name: string)
    ensures Wanted(updates, name).None? <==> Unnamed(updates, name)
    ensures forall k: nat :: IsLastFor(updates, name, k) ==> Wanted(updates, name) == Some(updates[k].1)
  {
    if updates != [] {
      var n := |updates| - 1;
      WantedIsLast(updates[..n], name);
      if updates[n].0 != name {
        assert forall k: nat :: IsLastFor(updates, name, k) ==> IsLastFor(updates[..n], name, k);
        assert Unnamed(updates, name) <==> Unnamed(updates[..n], name);
      }
    }
  }

  /** Every member has the mode its last update asks for and is as before otherwise. */
  ghost predicate ModesSet(updates: seq<ModeUpdate>, m: Member, m': Member) {
    && SamePerson(m, m') && SameProcess(m, m') && m'.color == m.color && m'.isActive == m.isActive
    && (Unnamed(updates, m.name) ==> m'.mode == m.mode)
    && (forall k: nat :: IsLastFor(updates, m.name, k) ==> m'.mode == Some(updates[k].1))
  }

  lemma ModeIsSet(updates: seq<ModeUpdate>, m: Member)
    ensures ModesSet(updates, m, WithMode(updates, m))
  {
    WantedIsLast(updates, m.name);
  }

  lemma ModesStayMirrored(r: Roster, op: Op, f: Faults)
    requires op.SetModes?
    ensures StaysMirrored(r, Apply(r, op, f), Names.Sanitize(op.team))
  {
    var key := Names.Sanitize(op.team);
    if GoodDisk(r) && Mirrored(true, r) && r.active.Some? && Names.Sanitize(r.active.value.teamName) == key {
      ApplyMirrors(true, r, op, f);
    }
    MirrorShows(r, Apply(r, op, f), key);
  }

  lemma ModesLeave(r: Roster, op: Op, f: Faults)
    requires op.SetModes? && !Stops(r, op, f)
    ensures var key := Names.Sanitize(op.team);
            var after := Apply(r, op, f);
            && OnlyMembersOf(r, after, key) && |after.disk[key].members| == |r.disk[key].members|
            && (forall j :: 0 <= j < |r.disk[key].members| ==>
                  ModesSet(op.updates, r.disk[key].members[j], after.disk[key].members[j]))
            && StaysMirrored(r, after, key)
            && (if after.disk == r.disk then after == r else after.writes == r.writes + 1)
  {
    var members := r.disk[Names.Sanitize(op.team)].members;
    ChangedMeaning(members, |members|, op.updates);
    forall j | 0 <= j < |members|
      ensures ModesSet(op.updates, members[j], WithMode(op.updates, members[j]))
    {
      ModeIsSet(op.updates, members[j]);
    }
    ModesStayMirrored(r, op, f);
  }

  // ---------------------------------------------------------------- reserving and initializing

  /** The reserved member as the request asks for it: not yet active, with no process of its own. */
  ghost predicate IsReserved(m: Member, team: string, request: SpawnRequest, now: int) {
    && m.agentId == m.name + "@" + team
    && m.agentType == request.agentType && m.model == request.model && m.prompt == Some(request.prompt)
    && m.color == request.color && m.planModeRequired == request.planModeRequired && m.joinedAt == now
    && m.cwd == request.cwd && m.worktreePath == request.worktreePath && m.mode == request.mode
    && !m.isActive && m.paneId == "" && m.sessionId == None && m.backend == None
  }

  lemma ReserveLeaves(r: Roster, op: Op, f: Faults)
    requires op.Reserve? && !Stops(r, op, f)
    ensures var key := Names.Sanitize(op.team);
            var after := Apply(r, op, f);
            && OnlyMembersOf(r, after, key) && after.writes == r.writes + 1
            && exists m ::
                 && after.disk[key].members == r.disk[key].members + [m]
                 && m.name == NewName(r.disk[key], op.request, op.fragment)
                 && IsReserved(m, op.team, op.request, op.now)
    ensures Proper(r, op) ==> StaysMirrored(r, Apply(r, op, f), Names.Sanitize(op.team))
  {
    var key := Names.Sanitize(op.team);
    var m := NewMember(NewName(r.disk[key], op.request, op.fragment), op.team, op.request, op.now);
    assert IsReserved(m, op.team, op.request, op.now);
    if Proper(r, op) {
      if GoodDisk(r) && Mirrored(true, r) && r.active.Some? && Names.Sanitize(r.active.value.teamName) == key {
        ReserveMirrors(true, r, op, f);
      }
      MirrorShows(r, Apply(r, op, f), key);
    }
  }

  /** A team of its leader alone: active, in this process, under the team's own name. */
  ghost predicate IsNewTeam(file: TeamFile, op: Op)
    requires op.Initialize?
  {
    && file.name == op.team && file.createdAt == op.now && file.leadSessionId == Some(op.sessionId)
    && file.leadAgentId == "team-lead@" + op.team && |file.members| == 1
    && var m := file.members[0];
    && m.agentId == file.leadAgentId && m.name == "team-lead" && m.model == op.model && m.cwd == op.cwd
    && m.joinedAt == op.now && m.isActive && m.backend == Some(InProcess) && !m.planModeRequired && m.paneId == ""
    && (op.agentType.Some? ==> m.agentType == op.agentType) && (op.agentType.None? ==> m.agentType == Some("team-lead"))
    && m.prompt.None? && m.color.None? && m.worktreePath.None? && m.sessionId.None? && m.mode.None?
  }

  /** An active team stays; a team on disk is taken over as it is; only a missing one is created. */
  lemma InitializeLeaves(r: Roster, op: Op, f: Faults)
    requires op.Initialize?
    ensures var key := Names.Sanitize(op.team);
            var after := Apply(r, op, f);
            && (r.active.Some? || f.readFails ==> after == r)
            && (r.active.None? && !f.readFails && key in r.disk ==>
                  && after.disk == r.disk && after.writes == r.writes
                  && after.active == if op.routeFails then None else Some(Mirror(op.team, r.disk[key])))
            && (r.active.None? && !f.readFails && key !in r.disk && f.writeFails ==> after == r)
            && (r.active.None? && !f.readFails && key !in r.disk && !f.writeFails ==>
                  && after.disk.Keys == r.disk.Keys + {key} && after.writes == r.writes + 1
                  && (forall other :: other in r.disk ==> after.disk[other] == r.disk[other])
                  && IsNewTeam(after.disk[key], op)
                  && after.active == if op.routeFails then None else Some(Mirror(op.team, after.disk[key])))
  {
    assert AgentId(TEAM_LEAD_NAME, op.team) == "team-lead@" + op.team;
  }

  // ---------------------------------------------------------------- rolling back

  lemma {:induction false} WithoutIsFilter(members: seq<Member>, agentId: string, other: Member -> bool)
    requires forall m :: other(m) <==> m.agentId != agentId
    ensures Without(members, agentId) == Filter(members, other)
  {
    if members != [] {
      WithoutIsFilter(members[..|members| - 1], agentId, other);
    }
  }

  ghost predicate Enrolled(r: Roster, key: string, agentId: string) {
    key in r.disk && exists i :: 0 <= i < |r.disk[key].members| && r.disk[key].members[i].agentId == agentId
  }

  /** The mirror keeps everything but the members that are not `other`. */
  ghost predicate MirrorKeeps(before: Option<Mirror>, after: Option<Mirror>, other: Member -> bool) {
    if before.None? then after.None?
    else
      && after.Some? && after.value.teamName == before.value.teamName
      && after.value.file ==
         before.value.file.(members := Filter(before.value.file.members, other))
  }

  /** A rollback takes the id out of the team's file and out of the mirror, and leaves the others in order. A
      member whose removal cannot be written stays in both. */
  lemma RollbackLeaves(r: Roster, team: string, agentId: string, f: Faults, other: Member -> bool)
    requires !f.readFails && forall m :: other(m) <==> m.agentId != agentId
    ensures var key, after := Names.Sanitize(team), Apply(r, Rollback(team, agentId), f);
            && (Enrolled(r, key, agentId) && f.writeFails ==> after == r)
            && (Enrolled(r, key, agentId) && !f.writeFails ==>
                  && OnlyMembersOf(r, after, key) && after.writes == r.writes + 1
                  && after.disk[key].members == Filter(r.disk[key].members, other))
            && (!Enrolled(r, key, agentId) ==> after.disk == r.disk && after.writes == r.writes)
            && (!(Enrolled(r, key, agentId) && f.writeFails) ==> MirrorKeeps(r.active, after.active, other))
  {
    var key := Names.Sanitize(team);
    WithoutIsFilter(MirrorMembers(r.active), agentId, other);
    if key in r.disk {
      WithoutMeaning(r.disk[key].members, agentId);
      WithoutIsFilter(r.disk[key].members, agentId, other);
    }
  }

  // ---------------------------------------------------------------- failures

  /** A call whose read fails changes nothing, and one whose write fails leaves the disk alone. */
  lemma FailuresLeave(r: Roster, op: Op, f: Faults)
    ensures f.readFails ==> Apply(r, op, f) == r
    ensures f.writeFails ==> Apply(r, op, f).disk == r.disk && Apply(r, op, f).writes == r.writes
    ensures f.writeFails && !op.Initialize? && !op.Rollback? ==> Apply(r, op, f) == r
    ensures Names.Sanitize(op.team) !in r.disk && !op.Initialize? && !op.Rollback? ==> Apply(r, op, f) == r
  {
  }
}
