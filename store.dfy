/**
 * The teams table and its members as the submission endpoint changes them
 * (save_team: an upsert keyed by the unique team name) and as the
 * administration listing reads them (read_teams: newest first).
 */
module Store {
  import opened Wrappers
  import opened Json
  import opened Server

  /** A TeamMember row: the team's name and the member's values as submitted, neither stripped nor checked again. */
  datatype StoredMember = StoredMember(
    teamName: string, name: Value, isCaptain: Value, school: Value, department: Value,
    majorGrade: Value, phone: Value, email: Value, studentId: Value, role: Value, techStack: Value)

  /** The row save_team adds for one member object; a missing is_captain is False, any other missing value ''. */
  function StoredOf(teamName: string, m: Object): StoredMember {
    StoredMember(
      teamName, Get(m, "name", Str("")), Get(m, "is_captain", Bool(false)), Get(m, "school", Str("")),
      Get(m, "department", Str("")), Get(m, "major_grade", Str("")), Get(m, "phone", Str("")),
      Get(m, "email", Str("")), Get(m, "student_id", Str("")), Get(m, "role", Str("")),
      Get(m, "tech_stack", Str("")))
  }

  function StoredMembers(teamName: string, ms: seq<Object>): (r: seq<StoredMember>)
    ensures |r| == |ms|
  {
    seq(|ms|, i requires 0 <= i < |ms| => StoredOf(teamName, ms[i]))
  }

  /** A Team row with its members; id is the autoincrement key. */
  datatype TeamRecord = TeamRecord(id: nat, data: TeamData, members: seq<StoredMember>)

  /** team_name is unique (the `unique` column of the Team model). */
  predicate UniqueNames(teams: seq<TeamRecord>) {
    forall i, j :: 0 <= i < j < |teams| ==> teams[i].data.teamName != teams[j].data.teamName
  }

  /** Rows are kept in creation order, so ids increase along the table and stay below the next id. */
  predicate StoreInvariant(teams: seq<TeamRecord>, nextId: nat) {
    UniqueNames(teams) &&
    (forall i, j :: 0 <= i < j < |teams| ==> teams[i].id < teams[j].id) &&
    (forall i :: 0 <= i < |teams| ==> teams[i].id < nextId)
  }

  /** Team.query.filter_by(team_name=name).first(): the first row with that name. */
  function FindTeam(teams: seq<TeamRecord>, name: string): (r: Option<nat>)
    ensures r.None? <==> forall i :: 0 <= i < |teams| ==> teams[i].data.teamName != name
    ensures r.Some? ==> r.value < |teams| && teams[r.value].data.teamName == name &&
                        forall i :: 0 <= i < r.value ==> teams[i].data.teamName != name
  {
    if teams == [] then None
    else if teams[0].data.teamName == name then Some(0)
    else match FindTeam(teams[1..], name)
      case None => None
      case Some(k) => Some(k + 1)
  }

  /** The table after a save, the next id, and the id save_team returns. */
  datatype Saved = Saved(teams: seq<TeamRecord>, nextId: nat, id: nat)

  /**
   * save_team without failures: an existing team of that name keeps its id
   * and gets the new values and exactly the new members; otherwise a team
   * is created with the next id.
   */
  function Upsert(teams: seq<TeamRecord>, nextId: nat, data: TeamData, ms: seq<Object>): Saved {
    var stored := StoredMembers(data.teamName, ms);
    match FindTeam(teams, data.teamName)
    case Some(p) => Saved(teams[p := TeamRecord(teams[p].id, data, stored)], nextId, teams[p].id)
    case None => Saved(teams + [TeamRecord(nextId, data, stored)], nextId + 1, nextId)
  }

  /** A save keeps the names unique and the ids increasing. */
  lemma UpsertKeepsInvariant(teams: seq<TeamRecord>, nextId: nat, data: TeamData, ms: seq<Object>)
    requires StoreInvariant(teams, nextId)
    ensures var r := Upsert(teams, nextId, data, ms); StoreInvariant(r.teams, r.nextId)
  {
    var r := Upsert(teams, nextId, data, ms);
    var found := FindTeam(teams, data.teamName);
    if found.Some? {
      var p := found.value;
      assert forall i :: 0 <= i < |teams| && i != p ==> r.teams[i] == teams[i];
      assert r.teams[p].data.teamName == teams[p].data.teamName && r.teams[p].id == teams[p].id;
    } else {
      assert forall i :: 0 <= i < |teams| ==> r.teams[i] == teams[i];
    }
  }

  /**
   * After a save the table holds exactly one team of that name, with the
   * submitted values and exactly the submitted members; it kept its id if
   * it existed and took the next id otherwise.
   */
  lemma UpsertStores(teams: seq<TeamRecord>, nextId: nat, data: TeamData, ms: seq<Object>)
    requires StoreInvariant(teams, nextId)
    ensures var r := Upsert(teams, nextId, data, ms);
            FindTeam(r.teams, data.teamName).Some? &&
            r.teams[FindTeam(r.teams, data.teamName).value] == TeamRecord(r.id, data, StoredMembers(data.teamName, ms)) &&
            (forall i :: 0 <= i < |r.teams| && i != FindTeam(r.teams, data.teamName).value ==>
               r.teams[i].data.teamName != data.teamName)
    ensures var r := Upsert(teams, nextId, data, ms);
            match FindTeam(teams, data.teamName)
            case Some(p) => r.id == teams[p].id && |r.teams| == |teams| && r.nextId == nextId
            case None => r.id == nextId && |r.teams| == |teams| + 1 && r.nextId == nextId + 1
  {
    var r := Upsert(teams, nextId, data, ms);
    UpsertKeepsInvariant(teams, nextId, data, ms);
    var found := FindTeam(teams, data.teamName);
    if found.Some? {
      var p := found.value;
      assert r.teams[p].data.teamName == data.teamName;
      assert FindTeam(r.teams, data.teamName) == Some(p) by {
        assert forall i :: 0 <= i < p ==> r.teams[i] == teams[i];
      }
    } else {
      var p := |teams|;
      assert r.teams[p].data.teamName == data.teamName;
      assert FindTeam(r.teams, data.teamName) == Some(p) by {
        assert forall i :: 0 <= i < p ==> r.teams[i] == teams[i];
      }
    }
  }

  /** A save leaves every team of another name, and its position, as it was. */
  lemma UpsertLeavesOthers(teams: seq<TeamRecord>, nextId: nat, data: TeamData, ms: seq<Object>)
    ensures var r := Upsert(teams, nextId, data, ms);
            |teams| <= |r.teams| &&
            forall i :: 0 <= i < |teams| && teams[i].data.teamName != data.teamName ==> r.teams[i] == teams[i]
  {
  }

  /** The first row carrying a name is the one FindTeam returns. */
  lemma {:induction false} FindTeamAt(teams: seq<TeamRecord>, name: string, p: nat)
    requires p < |teams| && teams[p].data.teamName == name
    requires forall i :: 0 <= i < p ==> teams[i].data.teamName != name
    ensures FindTeam(teams, name) == Some(p)
  {
    if p > 0 {
      FindTeamAt(teams[1..], name, p - 1);
    }
  }

  /** Submitting the same team twice leaves the table, the next id and the answer as after the first time. */
  lemma UpsertIdempotent(teams: seq<TeamRecord>, nextId: nat, data: TeamData, ms: seq<Object>)
    ensures var r := Upsert(teams, nextId, data, ms);
            Upsert(r.teams, r.nextId, data, ms) == r
  {
    var r := Upsert(teams, nextId, data, ms);
    var found := FindTeam(teams, data.teamName);
    var p := if found.Some? then found.value else |teams|;
    assert r.teams[p].data.teamName == data.teamName;
    assert forall i :: 0 <= i < p ==> r.teams[i] == teams[i];
    FindTeamAt(r.teams, data.teamName, p);
    assert r.teams[p := TeamRecord(r.teams[p].id, data, StoredMembers(data.teamName, ms))] == r.teams;
  }

  /** The answer of the submission endpoint: 200 with the team id, 400 with the reason, or 500. */
  datatype Response = Created(teamId: nat) | Refused(reason: Rejection) | ServerError

  function StatusOf(r: Response): int {
    match r
    case Created(_) => 200
    case Refused(_) => 400
    case ServerError => 500
  }

  /** One member as the listing shows it: student_id and tech_stack fall back to '' when falsy. */
  datatype MemberView = MemberView(
    name: Value, isCaptain: Value, school: Value, department: Value, majorGrade: Value,
    phone: Value, email: Value, studentId: Value, role: Value, techStack: Value)

  /** One team as the listing shows it. */
  datatype TeamView = TeamView(id: nat, data: TeamData, members: seq<MemberView>)

  /** `value or ''` */
  function OrEmpty(v: Value): Value {
    if Truthy(v) then v else Str("")
  }

  function MemberViewOf(m: StoredMember): MemberView {
    MemberView(m.name, m.isCaptain, m.school, m.department, m.majorGrade, m.phone, m.email,
               OrEmpty(m.studentId), m.role, OrEmpty(m.techStack))
  }

  function MemberViews(ms: seq<StoredMember>): (r: seq<MemberView>)
    ensures |r| == |ms|
  {
    seq(|ms|, i requires 0 <= i < |ms| => MemberViewOf(ms[i]))
  }

  /** The team values are strings, so `repo_url or ''` and the other fallbacks leave them as stored. */
  function TeamViewOf(t: TeamRecord): TeamView {
    TeamView(t.id, t.data, MemberViews(t.members))
  }

  /** read_teams: every team, most recently created first. */
  function Listing(teams: seq<TeamRecord>): (r: seq<TeamView>)
    ensures |r| == |teams|
  {
    seq(|teams|, i requires 0 <= i < |teams| => TeamViewOf(teams[|teams| - 1 - i]))
  }

  /**
   * Every member the listing shows is the stored member at the same place of
   * its team, with its stored values, except that a falsy student_id or
   * tech_stack is shown as ''.
   */
  lemma ListingFallbacks(teams: seq<TeamRecord>, i: nat, j: nat)
    requires i < |teams| && j < |teams[|teams| - 1 - i].members|
    ensures var m, v := teams[|teams| - 1 - i].members[j], Listing(teams)[i].members;
      j < |v| &&
      v[j].name == m.name && v[j].isCaptain == m.isCaptain && v[j].school == m.school &&
      v[j].department == m.department && v[j].majorGrade == m.majorGrade &&
      v[j].phone == m.phone && v[j].email == m.email && v[j].role == m.role &&
      v[j].studentId == (if Truthy(m.studentId) then m.studentId else Str("")) &&
      v[j].techStack == (if Truthy(m.techStack) then m.techStack else Str(""))
  {
    var t := teams[|teams| - 1 - i];
    assert Listing(teams)[i] == TeamViewOf(t);
    assert Listing(teams)[i].members[j] == MemberViewOf(t.members[j]);
  }

  /** The listing shows each team once, with ids strictly decreasing: newest first. */
  lemma ListingNewestFirst(teams: seq<TeamRecord>, nextId: nat)
    requires StoreInvariant(teams, nextId)
    ensures var l := Listing(teams);
            (forall i, j :: 0 <= i < j < |l| ==> l[i].id > l[j].id) &&
            (forall i, j :: 0 <= i < j < |l| ==> l[i].data.teamName != l[j].data.teamName)
  {
    var l := Listing(teams);
    forall i, j | 0 <= i < j < |l| ensures l[i].id > l[j].id && l[i].data.teamName != l[j].data.teamName {
      assert l[i] == TeamViewOf(teams[|teams| - 1 - i]) && l[j] == TeamViewOf(teams[|teams| - 1 - j]);
    }
  }

  /** A newly created team heads the listing; an updated one keeps its place. */
  lemma UpsertListing(teams: seq<TeamRecord>, nextId: nat, data: TeamData, ms: seq<Object>)
    ensures var r := Upsert(teams, nextId, data, ms);
            var record := TeamRecord(r.id, data, StoredMembers(data.teamName, ms));
            match FindTeam(teams, data.teamName)
            case None => Listing(r.teams) == [TeamViewOf(record)] + Listing(teams)
            case Some(p) => Listing(r.teams) == Listing(teams)[|teams| - 1 - p := TeamViewOf(record)]
  {
    var r := Upsert(teams, nextId, data, ms);
    var record := TeamRecord(r.id, data, StoredMembers(data.teamName, ms));
    match FindTeam(teams, data.teamName)
    case None =>
      ListingAppend(teams, record);
    case Some(p) =>
      ListingUpdate(teams, p, record);
  }

  lemma ListingAppend(teams: seq<TeamRecord>, t: TeamRecord)
    ensures Listing(teams + [t]) == [TeamViewOf(t)] + Listing(teams)
  {
    var a, b := Listing(teams + [t]), [TeamViewOf(t)] + Listing(teams);
    assert |a| == |b|;
    forall i | 0 <= i < |a| ensures a[i] == b[i] {
      if i > 0 {
        assert (teams + [t])[|teams| - i] == teams[|teams| - 1 - (i - 1)];
      }
    }
  }

  lemma ListingUpdate(teams: seq<TeamRecord>, p: nat, t: TeamRecord)
    requires p < |teams|
    ensures Listing(teams[p := t]) == Listing(teams)[|teams| - 1 - p := TeamViewOf(t)]
  {
    var a, b := Listing(teams[p := t]), Listing(teams)[|teams| - 1 - p := TeamViewOf(t)];
    assert |a| == |b|;
    forall i | 0 <= i < |a| ensures a[i] == b[i] {
    }
  }

  /** The loop of save_team that adds one TeamMember row per member object. */
  method BuildMembers(teamName: string, ms: seq<Object>) returns (rows: seq<StoredMember>)
    ensures rows == StoredMembers(teamName, ms)
  {
    rows := [];
    var i := 0;
    while i < |ms|
      invariant 0 <= i <= |ms|
      invariant |rows| == i && forall j :: 0 <= j < i ==> rows[j] == StoredOf(teamName, ms[j])
    {
      rows := rows + [StoredOf(teamName, ms[i])];
      i := i + 1;
    }
  }

  /** The inner loop of read_teams over one team's members. */
  method ViewMembers(ms: seq<StoredMember>) returns (views: seq<MemberView>)
    ensures views == MemberViews(ms)
  {
    views := [];
    var i := 0;
    while i < |ms|
      invariant 0 <= i <= |ms|
      invariant |views| == i && forall j :: 0 <= j < i ==> views[j] == MemberViewOf(ms[j])
    {
      views := views + [MemberViewOf(ms[i])];
      i := i + 1;
    }
  }

  /** The outer loop of read_teams, over the teams ordered by creation time, newest first. */
  method ListTeams(teams: seq<TeamRecord>) returns (views: seq<TeamView>)
    ensures views == Listing(teams)
  {
    views := [];
    var i := |teams|;
    while i > 0
      invariant 0 <= i <= |teams|
      invariant |views| == |teams| - i
      invariant forall j :: 0 <= j < |views| ==> views[j] == TeamViewOf(teams[|teams| - 1 - j])
    {
      i := i - 1;
      var t := teams[i];
      var members := ViewMembers(t.members);
      views := views + [TeamView(t.id, t.data, members)];
    }
  }

  class TeamStore {
    var teams: seq<TeamRecord>
    var nextId: nat

    predicate Valid()
      reads this
    {
      StoreInvariant(teams, nextId)
    }

    /** An empty database; autoincrement keys start at 1. */
    constructor ()
      ensures Valid() && teams == [] && nextId == 1
    {
      teams := [];
      nextId := 1;
    }

    /**
     * save_team(team_data, members_data). dbFails stands for an exception
     * raised by the database: the session is rolled back, nothing changes
     * and (False, None) is returned.
     */
    method SaveTeam(data: TeamData, ms: seq<Object>, dbFails: bool) returns (success: bool, id: Option<nat>)
      requires Valid()
      modifies this
      ensures Valid()
      ensures dbFails ==> !success && id == None && teams == old(teams) && nextId == old(nextId)
      ensures !dbFails ==>
                var r := Upsert(old(teams), old(nextId), data, ms);
                success && id == Some(r.id) && teams == r.teams && nextId == r.nextId
    {
      if dbFails {
        return false, None;
      }
      UpsertKeepsInvariant(teams, nextId, data, ms);
      var existing := FindTeam(teams, data.teamName);
      var rows := BuildMembers(data.teamName, ms);
      if existing.Some? {
        var p := existing.value;
        var teamId := teams[p].id;
        teams := teams[p := TeamRecord(teamId, data, rows)];
        return true, Some(teamId);
      }
      var teamId := nextId;
      nextId := nextId + 1;
      teams := teams + [TeamRecord(teamId, data, rows)];
      return true, Some(teamId);
    }

    /**
     * POST /api/team/submit: a body that fails a check is refused with 400
     * and changes nothing; otherwise the team is saved and its id returned
     * with 200, or 500 when saving fails.
     */
    method Submit(req: Request, dbFails: bool) returns (resp: Response)
      requires Valid()
      modifies this
      ensures Valid()
      ensures Validate(req).Err? ==>
                resp == Refused(Validate(req).error) && teams == old(teams) && nextId == old(nextId)
      ensures Validate(req).Ok? && dbFails ==>
                resp == ServerError && teams == old(teams) && nextId == old(nextId)
      ensures Validate(req).Ok? && !dbFails ==>
                var r := Upsert(old(teams), old(nextId), Validate(req).value, req.members);
                resp == Created(r.id) && teams == r.teams && nextId == r.nextId
    {
      var verdict := CheckSubmission(req);
      if verdict.Err? {
        return Refused(verdict.error);
      }
      var success, teamId := SaveTeam(verdict.value, req.members, dbFails);
      if success && teamId.Some? {
        return Created(teamId.value);
      }
      return ServerError;
    }

    /**
     * GET /api/teams: the listing, newest first. A failing query is caught
     * and answered with the empty list; `dbFails` stands for that failure.
     */
    method ReadTeams(dbFails: bool) returns (views: seq<TeamView>)
      ensures dbFails ==> views == []
      ensures !dbFails ==> views == Listing(teams)
    {
      if dbFails {
        return [];
      }
      views := ListTeams(teams);
    }
  }
}
