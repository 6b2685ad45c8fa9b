/**
  The store that owns the roster, in the form the program has it: a mutable manager for the active
  team and methods that read the file, edit it, write it back and then update the manager. Each
  method is shown to make exactly the step `Roster.Apply` says, and to report exactly the errors
  it should.
*/
module RosterStore {
  import opened Prelude
  import opened R = Roster
  import Names = TeammateNames

  datatype StoreError = ReadFailed | NoSuchTeam | MemberNotFound | WriteFailed | RouteFailed

  datatype Initialized = Created | AlreadyExists | AlreadyActive

  /** Position of the first matching member. */
  method FindMember(members: seq<Member>, key: Key) returns (at: Option<nat>)
    ensures at == Find(members, key, 0)
    ensures at.Some? ==> at.value < |members|
  {
    var i := 0;
    while i < |members|
      invariant 0 <= i <= |members|
      invariant Find(members, key, 0) == Find(members, key, i)
    {
      if Matches(key, members[i]) {
        return Some(i);
      }
      i := i + 1;
    }
    return None;
  }

  /** Some member of the team's file has this name. */
  ghost predicate Named(disk: map<string, TeamFile>, team: string, name: string) {
    var key := Names.Sanitize(team);
    key in disk && exists i :: 0 <= i < |disk[key].members| && disk[key].members[i].name == name
  }

  /** Some member of the team's file has this id. */
  ghost predicate Enrolled(disk: map<string, TeamFile>, team: string, agentId: string) {
    Names.Sanitize(team) in disk && !NoneHas(disk[Names.Sanitize(team)].members, agentId)
  }

  /** The live side of the active team. */
  class TeamManager {
    const teamName: string
    var file: TeamFile

    constructor (teamName: string, file: TeamFile)
      ensures this.teamName == teamName && this.file == file
    {
      this.teamName := teamName;
      this.file := file;
    }

    method UpsertMember(m: Member)
      modifies this
      ensures file == old(file).(members := Upsert(old(file).members, m))
    {
      var at := FindMember(file.members, ById(m.agentId));
      if at.Some? {
        file := file.(members := file.members[at.value := m]);
      } else {
        file := file.(members := file.members + [m]);
      }
    }

    method RemoveMember(agentId: string) returns (removed: bool)
      modifies this
      ensures file == old(file).(members := Without(old(file).members, agentId))
      ensures removed == !NoneHas(old(file).members, agentId)
    {
      var members := file.members;
      var kept := Retain(members, agentId);
      removed := |kept| < |members|;
      file := file.(members := kept);
    }
  }

  /** `Vec::retain` for one agent id. */
  method Retain(members: seq<Member>, agentId: string) returns (kept: seq<Member>)
    ensures kept == Without(members, agentId)
    ensures kept == members <==> NoneHas(members, agentId)
    ensures |kept| < |members| <==> !NoneHas(members, agentId)
  {
    kept := [];
    for i := 0 to |members|
      invariant kept == Without(members[..i], agentId)
    {
      assert members[..i + 1][..i] == members[..i];
      if members[i].agentId != agentId {
        kept := kept + [members[i]];
      }
    }
    assert members[..|members|] == members;
    WithoutMeaning(members, agentId);
  }

  class TeamRosterStore {
    var disk: map<string, TeamFile>
    var writes: nat
    var active: TeamManager?

    constructor ()
      ensures disk == map[] && writes == 0 && active == null
    {
      disk, writes, active := map[], 0, null;
    }

    ghost function Value(): Roster
      reads this, active
    {
      Roster(disk, if active == null then None else Some(Mirror(active.teamName, active.file)), writes)
    }

    method ReadTeamFile(team: string, faults: Faults) returns (r: Result<Option<TeamFile>, StoreError>)
      ensures faults.readFails ==> r == Err(ReadFailed)
      ensures !faults.readFails ==>
                var key := Names.Sanitize(team);
                r == Ok(if key in disk then Some(disk[key]) else None)
    {
      if faults.readFails {
        return Err(ReadFailed);
      }
      var key := Names.Sanitize(team);
      return Ok(if key in disk then Some(disk[key]) else None);
    }

    method WriteTeamFile(team: string, file: TeamFile, faults: Faults) returns (ok: bool)
      modifies this`disk, this`writes
      ensures ok <==> !faults.writeFails
      ensures ok ==> disk == old(disk)[Names.Sanitize(team) := file] && writes == old(writes) + 1
      ensures !ok ==> disk == old(disk) && writes == old(writes)
    {
      ok := !faults.writeFails;
      if ok {
        disk := disk[Names.Sanitize(team) := file];
        writes := writes + 1;
      }
    }

    method MirrorUpsert(m: Member)
      modifies active
      ensures var before := old(Value());
              Value() == before.(active := MirrorWith(before.active, Upsert(MirrorMembers(before.active), m)))
    {
      if active != null {
        active.UpsertMember(m);
      }
    }

    method InitializeSessionTeam(team: string, sessionId: string, agentType: Option<string>, model: Option<string>,
                                 cwd: string, now: int, routeFails: bool, faults: Faults)
      returns (r: Result<Initialized, StoreError>)
      modifies this, active
      ensures Value() ==
              Apply(old(Value()), Initialize(team, sessionId, agentType, model, cwd, now, routeFails), faults)
      ensures old(active) != null ==> r == Ok(AlreadyActive) && Value() == old(Value())
      ensures old(active) == null ==>
                r == if faults.readFails then Err(ReadFailed)
                     else if Names.Sanitize(team) !in old(disk) && faults.writeFails then Err(WriteFailed)
                     else if routeFails then Err(RouteFailed)
                     else Ok(if Names.Sanitize(team) in old(disk) then AlreadyExists else Created)
    {
      if active != null {
        return Ok(AlreadyActive);
      }
      var read := ReadTeamFile(team, faults);
      if read.Err? {
        return Err(read.error);
      }
      var file: TeamFile;
      var existed := read.value.Some?;
      if existed {
        file := read.value.value;
      } else {
        file := LeaderFile(team, sessionId, agentType, model, cwd, now);
        var written := WriteTeamFile(team, file, faults);
        if !written {
          return Err(WriteFailed);
        }
      }
      if routeFails {
        return Err(RouteFailed);
      }
      active := new TeamManager(team, file);
      return Ok(if existed then AlreadyExists else Created);
    }

    method ReserveMember(team: string, request: SpawnRequest, now: int, fragment: string, faults: Faults)
      returns (r: Result<(string, string), StoreError>)
      modifies this, active
      ensures Value() == Apply(old(Value()), Reserve(team, request, now, fragment), faults)
      ensures var key := Names.Sanitize(team);
              r == if faults.readFails then Err(ReadFailed)
                   else if key !in old(disk) then Err(NoSuchTeam)
                   else if faults.writeFails then Err(WriteFailed)
                   else
                     var name := NewName(old(disk)[key], request, fragment);
                     Ok((name, AgentId(name, team)))
    {
      var read := ReadTeamFile(team, faults);
      if read.Err? {
        return Err(read.error);
      }
      if read.value.None? {
        return Err(NoSuchTeam);
      }
      var file := read.value.value;
      var base := Names.Sanitize(request.desiredName);
      var name := Names.GenerateUniqueTeammateName(base, NamesOf(file.members), fragment);
      var m := NewMember(name, team, request, now);
      var written := WriteTeamFile(team, file.(members := file.members + [m]), faults);
      if !written {
        return Err(WriteFailed);
      }
      MirrorUpsert(m);
      return Ok((name, m.agentId));
    }

    /** The shared path of commit, color, active and mode updates. */
    method EditAndMirror(team: string, file: TeamFile, key: Key, edit: Edit, faults: Faults)
      returns (r: Result<Member, StoreError>)
      requires Names.Sanitize(team) in disk && file == disk[Names.Sanitize(team)] && !faults.readFails
      modifies this, active
      ensures Value() == Apply(old(Value()), EditMember(team, key, edit), faults)
      ensures var at := Find(file.members, key, 0);
              r == if at.None? || at.value >= |file.members| then Err(MemberNotFound)
                   else if faults.writeFails then Err(WriteFailed)
                   else Ok(ApplyEdit(edit, file.members[at.value]))
      ensures r == Err(MemberNotFound) <==> forall i :: 0 <= i < |file.members| ==> !Matches(key, file.members[i])
    {
      FindMeaning(file.members, key, 0);
      var at := FindMember(file.members, key);
      if at.None? {
        return Err(MemberNotFound);
      }
      var m := ApplyEdit(edit, file.members[at.value]);
      var written := WriteTeamFile(team, file.(members := file.members[at.value := m]), faults);
      if !written {
        return Err(WriteFailed);
      }
      MirrorUpsert(m);
      return Ok(m);
    }

    method CommitMember(team: string, agentId: string, backend: Backend, paneId: Option<string>,
                        sessionId: Option<string>, faults: Faults) returns (r: Result<Member, StoreError>)
      modifies this, active
      ensures Value() ==
              Apply(old(Value()), EditMember(team, ById(agentId), Commit(backend, paneId, sessionId)), faults)
      ensures r.Ok? ==> r.value.agentId == agentId && r.value.isActive && r.value.backend == Some(backend)
      ensures r.Ok? <==> !faults.readFails && Enrolled(old(disk), team, agentId) && !faults.writeFails
      ensures r == Err(ReadFailed) <==> faults.readFails
      ensures r == Err(NoSuchTeam) <==> !faults.readFails && Names.Sanitize(team) !in old(disk)
      ensures r == Err(WriteFailed) <==> !faults.readFails && Enrolled(old(disk), team, agentId) && faults.writeFails
    {
      var read := ReadTeamFile(team, faults);
      if read.Err? {
        return Err(read.error);
      }
      if read.value.None? {
        return Err(NoSuchTeam);
      }
      FindMeaning(read.value.value.members, ById(agentId), 0);
      r := EditAndMirror(team, read.value.value, ById(agentId), Commit(backend, paneId, sessionId), faults);
    }

    /** A missing team is an error; a missing member is not. */
    method SetMemberColor(team: string, agentId: string, color: string, faults: Faults)
      returns (r: Result<(), StoreError>)
      modifies this, active
      ensures Value() == Apply(old(Value()), EditMember(team, ById(agentId), SetColor(color)), faults)
      ensures r == if faults.readFails then Err(ReadFailed)
                   else if Names.Sanitize(team) !in old(disk) then Err(NoSuchTeam)
                   else if Enrolled(old(disk), team, agentId) && faults.writeFails then Err(WriteFailed)
                   else Ok(())
      ensures r.Ok? ==> (Value() == old(Value()) <==> !Enrolled(old(disk), team, agentId))
    {
      var read := ReadTeamFile(team, faults);
      if read.Err? {
        return Err(read.error);
      }
      if read.value.None? {
        return Err(NoSuchTeam);
      }
      FindMeaning(read.value.value.members, ById(agentId), 0);
      var edited := EditAndMirror(team, read.value.value, ById(agentId), SetColor(color), faults);
      r := if edited == Err(WriteFailed) then Err(WriteFailed) else Ok(());
    }

    /** A missing team and a missing member both count as done. */
    method EditByMemberName(team: string, memberName: string, edit: Edit, faults: Faults)
      returns (r: Result<(), StoreError>)
      modifies this, active
      ensures Value() == Apply(old(Value()), EditMember(team, ByName(memberName), edit), faults)
      ensures r.Err? <==> faults.readFails || (faults.writeFails && Named(old(disk), team, memberName))
    {
      var read := ReadTeamFile(team, faults);
      if read.Err? {
        return Err(read.error);
      }
      if read.value.None? {
        return Ok(());
      }
      FindMeaning(read.value.value.members, ByName(memberName), 0);
      var edited := EditAndMirror(team, read.value.value, ByName(memberName), edit, faults);
      r := if edited == Err(WriteFailed) then Err(WriteFailed) else Ok(());
    }

    method SetMemberModes(team: string, updates: seq<ModeUpdate>, faults: Faults) returns (r: Result<(), StoreError>)
      modifies this, active
      ensures Value() == Apply(old(Value()), SetModes(team, updates), faults)
      ensures r.Err? ==> Value() == old(Value())
      ensures r.Err? <==> faults.readFails || (faults.writeFails && Names.Sanitize(team) in old(disk)
                          && exists m :: m in old(disk)[Names.Sanitize(team)].members && Changes(updates, m))
    {
      var read := ReadTeamFile(team, faults);
      if read.Err? {
        return Err(read.error);
      }
      if read.value.None? {
        return Ok(());
      }
      var file := read.value.value;
      ChangedMeaning(file.members, |file.members|, updates);
      var members, changed := ApplyModes(file.members, updates);
      if changed != [] {
        var written := WriteTeamFile(team, file.(members := members), faults);
        if !written {
          return Err(WriteFailed);
        }
        MirrorUpsertAll(changed);
      }
      return Ok(());
    }

    method MirrorUpsertAll(changed: seq<Member>)
      modifies active
      ensures var before := old(Value());
              Value() == before.(active := MirrorWith(before.active, UpsertAll(MirrorMembers(before.active), changed)))
    {
      if active != null {
        ghost var was := active.file;
        for i := 0 to |changed|
          invariant active != null && active == old(active)
          invariant active.file == was.(members := UpsertAll(was.members, changed[..i]))
          invariant disk == old(disk) && writes == old(writes)
        {
          assert changed[..i + 1][..i] == changed[..i];
          active.UpsertMember(changed[i]);
        }
        assert changed[..|changed|] == changed;
      }
    }

    method RemoveMemberByAgentId(team: string, agentId: string, faults: Faults) returns (r: Result<bool, StoreError>)
      modifies this`disk, this`writes
      ensures r == if faults.readFails then Err(ReadFailed)
                   else if !Enrolled(old(disk), team, agentId) then Ok(false)
                   else if faults.writeFails then Err(WriteFailed)
                   else Ok(true)
      ensures r != Ok(true) ==> disk == old(disk) && writes == old(writes)
      ensures r == Ok(true) ==>
                var key := Names.Sanitize(team);
                && disk == old(disk)[key := old(disk)[key].(members := Without(old(disk)[key].members, agentId))]
                && writes == old(writes) + 1
    {
      var read := ReadTeamFile(team, faults);
      if read.Err? {
        return Err(read.error);
      }
      if read.value.None? {
        return Ok(false);
      }
      var file := read.value.value;
      var kept := Retain(file.members, agentId);
      if |kept| < |file.members| {
        var written := WriteTeamFile(team, file.(members := kept), faults);
        return if written then Ok(true) else Err(WriteFailed);
      }
      return Ok(false);
    }

    /** The mirror drops the id whether or not the file had it. */
    method RollbackMember(team: string, agentId: string, faults: Faults) returns (r: Result<bool, StoreError>)
      modifies this, active
      ensures Value() == Apply(old(Value()), Rollback(team, agentId), faults)
      ensures r.Err? ==> Value() == old(Value())
      ensures r == if faults.readFails then Err(ReadFailed)
                   else if !Enrolled(old(disk), team, agentId) then Ok(false)
                   else if faults.writeFails then Err(WriteFailed)
                   else Ok(true)
    {
      var key := Names.Sanitize(team);
      if key in disk {
        WithoutMeaning(disk[key].members, agentId);
      }
      r := RemoveMemberByAgentId(team, agentId, faults);
      if r.Ok? && active != null {
        var gone := active.RemoveMember(agentId);
      }
    }

    /** The teammate's own write: no manager is touched. */
    method SetMemberModeInTeamFile(team: string, memberName: string, mode: PermissionMode, faults: Faults)
      returns (r: Result<(), StoreError>)
      modifies this`disk, this`writes
      ensures Value() == Apply(old(Value()), TeammateMode(team, memberName, mode), faults)
      ensures Value().active == old(Value()).active
      ensures r.Err? <==> faults.readFails || (faults.writeFails && Named(old(disk), team, memberName))
    {
      var read := ReadTeamFile(team, faults);
      if read.Err? {
        return Err(read.error);
      }
      if read.value.None? {
        return Ok(());
      }
      var file := read.value.value;
      FindMeaning(file.members, ByName(memberName), 0);
      var at := FindMember(file.members, ByName(memberName));
      if at.Some? {
        var m := ApplyEdit(SetMode(mode), file.members[at.value]);
        var written := WriteTeamFile(team, file.(members := file.members[at.value := m]), faults);
        if !written {
          return Err(WriteFailed);
        }
      }
      return Ok(());
    }
  }

  /** The table the batch builds first: a later update of the same name replaces an earlier one. */
  method UpdateTable(updates: seq<ModeUpdate>) returns (table: map<string, PermissionMode>)
    ensures forall name :: Wanted(updates, name) == if name in table then Some(table[name]) else None
  {
    table := map[];
    for i := 0 to |updates|
      invariant forall name :: Wanted(updates[..i], name) == if name in table then Some(table[name]) else None
    {
      assert updates[..i + 1][..i] == updates[..i];
      table := table[updates[i].0 := updates[i].1];
    }
    assert updates[..|updates|] == updates;
  }

  /** The pass over the members, collecting the ones that change. */
  method ApplyModes(members: seq<Member>, updates: seq<ModeUpdate>) returns (edited: seq<Member>, changed: seq<Member>)
    ensures edited == Batch(members, updates)
    ensures changed == Changed(members, updates)
  {
    var table := UpdateTable(updates);
    edited, changed := members, [];
    for i := 0 to |members|
      invariant |edited| == |members|
      invariant forall j :: 0 <= j < i ==> edited[j] == WithMode(updates, members[j])
      invariant forall j :: i <= j < |members| ==> edited[j] == members[j]
      invariant changed == ChangedUpTo(members, i, updates)
    {
      var m := members[i];
      assert Wanted(updates, m.name) == if m.name in table then Some(table[m.name]) else None;
      if m.name in table && m.mode != Some(table[m.name]) {
        var updated := m.(mode := Some(table[m.name]));
        edited := edited[i := updated];
        changed := changed + [updated];
      }
    }
  }
}
