/**
 * The submission endpoint's validation chain (POST /api/team/submit): the
 * team's required fields, the track, the three long texts, the member list,
 * the captain flag and each member's required fields, e-mail and phone, in
 * that order, the first failure deciding the 400 answer.
 */
module Server {
  import opened Wrappers
  import opened Text
  import opened Pattern
  import opened Json

  /** The JSON body: team_info (`{}` when absent) and members (`[]` when absent). */
  datatype Request = Request(teamInfo: Object, members: seq<Object>)

  /** The stripped team values handed to save_team. */
  datatype TeamData = TeamData(
    teamName: string, competitionTrack: string, projectName: string, repoUrl: string,
    costrictUid: string, projectIntro: string, techSolution: string, goalsAndOutlook: string)

  /** The three optional long texts, in the order they are checked. */
  datatype LongText = ProjectIntro | TechSolution | GoalsAndOutlook

  /** Why a member is refused: a required field is blank, the e-mail or the phone is malformed. */
  datatype MemberFault = MissingFields | BadEmail | BadPhone

  /** Every 400 answer of the endpoint; a member's number counts from 1. */
  datatype Rejection =
    | MissingTeamFields
    | UnknownTrack
    | BadLength(text: LongText)
    | NoMembers
    | NoCaptain
    | BadMember(number: nat, fault: MemberFault)

  /** str(obj.get(key, '')).strip() */
  function Field(o: Object, key: string): string {
    Trim(ToStr(Get(o, key, Str(""))))
  }

  const ValidTracks: seq<string> := ["技术挑战赛", "创新应用赛"]

  const LengthMin := 200
  const LengthMax := 500

  /** A long text is refused when it is non-empty and shorter than 200 or longer than 500 characters. */
  predicate OutOfRange(s: string) {
    s != "" && (|s| < LengthMin || |s| > LengthMax)
  }

  /** A member's stripped fields, as submit_team reads them before checking. */
  datatype MemberFields = MemberFields(
    name: string, school: string, department: string, majorGrade: string,
    phone: string, email: string, role: string)

  function MemberFieldsOf(m: Object): MemberFields {
    MemberFields(
      Field(m, "name"), Field(m, "school"), Field(m, "department"), Field(m, "major_grade"),
      Field(m, "phone"), Field(m, "email"), Field(m, "role"))
  }

  /** all([name, school, department, major_grade, phone, email, role]) */
  predicate AllPresent(f: MemberFields) {
    f.name != "" && f.school != "" && f.department != "" && f.majorGrade != "" &&
    f.phone != "" && f.email != "" && f.role != ""
  }

  /** The checks on one member, in order: required fields, then the e-mail pattern, then the phone pattern. */
  function FaultOf(f: MemberFields): Option<MemberFault> {
    if !AllPresent(f) then Some(MissingFields)
    else if !Matches(EmailPattern, f.email) then Some(BadEmail)
    else if !Matches(PhonePattern, f.phone) then Some(BadPhone)
    else None
  }

  /** member.get('is_captain', False), taken for its truth value. */
  predicate CaptainFlag(m: Object) {
    Truthy(Get(m, "is_captain", Bool(false)))
  }

  predicate AnyCaptain(ms: seq<Object>) {
    exists i :: 0 <= i < |ms| && CaptainFlag(ms[i])
  }

  /** The position and fault of the first member that fails its checks, if any. */
  function FirstFault(fs: seq<MemberFields>): (r: Option<(nat, MemberFault)>)
    ensures r.None? <==> forall i :: 0 <= i < |fs| ==> FaultOf(fs[i]).None?
    ensures r.Some? ==> r.value.0 < |fs| && FaultOf(fs[r.value.0]) == Some(r.value.1) &&
                        forall i :: 0 <= i < r.value.0 ==> FaultOf(fs[i]).None?
  {
    if fs == [] then None
    else match FaultOf(fs[0])
      case Some(f) => Some((0, f))
      case None =>
        assert forall i :: 1 <= i < |fs| ==> fs[i] == fs[1..][i - 1];
        match FirstFault(fs[1..])
        case None => None
        case Some(found) => Some((found.0 + 1, found.1))
  }

  /** The stripped team values: team_name, competition_track and the rest. */
  function TeamDataOf(t: Object): TeamData {
    TeamData(
      Field(t, "team_name"), Field(t, "competition_track"), Field(t, "project_name"),
      Field(t, "repo_url"), Field(t, "costrict_uid"), Field(t, "project_intro"),
      Field(t, "tech_solution"), Field(t, "goals_and_outlook"))
  }

  /** all([team_name, competition_track, project_name, costrict_uid]) */
  predicate TeamFieldsPresent(d: TeamData) {
    d.teamName != "" && d.competitionTrack != "" && d.projectName != "" && d.costrictUid != ""
  }

  /** The first failing team check, in the order submit_team runs them. */
  function TeamRejection(d: TeamData): Option<Rejection> {
    if !TeamFieldsPresent(d) then Some(MissingTeamFields)
    else if d.competitionTrack !in ValidTracks then Some(UnknownTrack)
    else if OutOfRange(d.projectIntro) then Some(BadLength(ProjectIntro))
    else if OutOfRange(d.techSolution) then Some(BadLength(TechSolution))
    else if OutOfRange(d.goalsAndOutlook) then Some(BadLength(GoalsAndOutlook))
    else None
  }

  /** The first failing check on the member list: empty, no captain, or the first bad member. */
  function MembersRejection(fs: seq<MemberFields>, hasCaptain: bool): Option<Rejection> {
    if |fs| == 0 then Some(NoMembers)
    else if !hasCaptain then Some(NoCaptain)
    else match FirstFault(fs)
      case Some(found) => Some(BadMember(found.0 + 1, found.1))
      case None => None
  }

  /** The stripped fields of every member, in order. */
  function ReadMembers(ms: seq<Object>): (fs: seq<MemberFields>)
    ensures |fs| == |ms|
  {
    if ms == [] then [] else [MemberFieldsOf(ms[0])] + ReadMembers(ms[1..])
  }

  lemma {:induction false} ReadMembersAt(ms: seq<Object>, i: nat)
    requires i < |ms|
    ensures ReadMembers(ms)[i] == MemberFieldsOf(ms[i])
  {
    if i > 0 {
      ReadMembersAt(ms[1..], i - 1);
    }
  }

  /** The endpoint's verdict on a body: the first failing check, or the team values to save. */
  function Validate(req: Request): Result<TeamData, Rejection> {
    var d := TeamDataOf(req.teamInfo);
    match TeamRejection(d)
    case Some(e) => Err(e)
    case None =>
      match MembersRejection(ReadMembers(req.members), AnyCaptain(req.members))
      case Some(e) => Err(e)
      case None => Ok(d)
  }

  /** The checks of one member as submit_team runs them. */
  method CheckMember(f: MemberFields) returns (fault: Option<MemberFault>)
    ensures fault == FaultOf(f)
  {
    var required := [f.name, f.school, f.department, f.majorGrade, f.phone, f.email, f.role];
    var present := true;
    var i := 0;
    while i < |required|
      invariant 0 <= i <= |required|
      invariant present <==> forall j :: 0 <= j < i ==> required[j] != ""
    {
      if required[i] == "" {
        present := false;
      }
      i := i + 1;
    }
    assert present <==> AllPresent(f) by {
      assert required[0] == f.name && required[1] == f.school && required[2] == f.department;
      assert required[3] == f.majorGrade && required[4] == f.phone && required[5] == f.email;
      assert required[6] == f.role;
    }
    if !present {
      return Some(MissingFields);
    }
    if !Matches(EmailPattern, f.email) {
      return Some(BadEmail);
    }
    if !Matches(PhonePattern, f.phone) {
      return Some(BadPhone);
    }
    return None;
  }

  /** The team checks of submit_team, with the loop over the three long texts. */
  method CheckTeam(d: TeamData) returns (e: Option<Rejection>)
    ensures e == TeamRejection(d)
  {
    if !TeamFieldsPresent(d) {
      return Some(MissingTeamFields);
    }
    if d.competitionTrack !in ValidTracks {
      return Some(UnknownTrack);
    }
    var texts := [(ProjectIntro, d.projectIntro), (TechSolution, d.techSolution), (GoalsAndOutlook, d.goalsAndOutlook)];
    var k := 0;
    while k < |texts|
      invariant 0 <= k <= |texts|
      invariant forall j :: 0 <= j < k ==> !OutOfRange(texts[j].1)
    {
      if OutOfRange(texts[k].1) {
        assert texts[k] == [(ProjectIntro, d.projectIntro), (TechSolution, d.techSolution),
                            (GoalsAndOutlook, d.goalsAndOutlook)][k];
        assert k > 0 ==> !OutOfRange(d.projectIntro) && (k > 1 ==> !OutOfRange(d.techSolution)) by {
          if k > 0 { assert texts[0].1 == d.projectIntro; }
          if k > 1 { assert texts[1].1 == d.techSolution; }
        }
        return Some(BadLength(texts[k].0));
      }
      k := k + 1;
    }
    assert texts[0].1 == d.projectIntro && texts[1].1 == d.techSolution && texts[2].1 == d.goalsAndOutlook;
    return None;
  }

  /** any(member.get('is_captain', False) for member in members_info) */
  method FindCaptainFlag(ms: seq<Object>) returns (found: bool)
    ensures found <==> AnyCaptain(ms)
  {
    found := false;
    var i := 0;
    while i < |ms|
      invariant 0 <= i <= |ms|
      invariant found <==> exists j :: 0 <= j < i && CaptainFlag(ms[j])
    {
      if CaptainFlag(ms[i]) {
        found := true;
      }
      i := i + 1;
    }
  }

  /** The member checks of submit_team: the list must be non-empty, have a captain, and each member is checked in turn. */
  method CheckMembers(fs: seq<MemberFields>, hasCaptain: bool) returns (e: Option<Rejection>)
    ensures e == MembersRejection(fs, hasCaptain)
  {
    if |fs| == 0 {
      return Some(NoMembers);
    }
    if !hasCaptain {
      return Some(NoCaptain);
    }
    var i := 0;
    while i < |fs|
      invariant 0 <= i <= |fs|
      invariant forall j :: 0 <= j < i ==> FaultOf(fs[j]).None?
    {
      var fault := CheckMember(fs[i]);
      if fault.Some? {
        return Some(BadMember(i + 1, fault.value));
      }
      i := i + 1;
    }
    return None;
  }

  /** submit_team up to the call of save_team: the team checks, then the member checks, each stopping at the first failure. */
  method CheckSubmission(req: Request) returns (r: Result<TeamData, Rejection>)
    ensures r == Validate(req)
  {
    var d := TeamDataOf(req.teamInfo);
    var e := CheckTeam(d);
    if e.Some? {
      return Err(e.value);
    }
    var hasCaptain := FindCaptainFlag(req.members);
    e := CheckMembers(ReadMembers(req.members), hasCaptain);
    if e.Some? {
      return Err(e.value);
    }
    return Ok(d);
  }

  /** A member that passes the checks, stated without the matcher. */
  predicate MemberAcceptable(f: MemberFields) {
    AllPresent(f) && EmailShape(f.email) && PhoneShape(f.phone)
  }

  /** What each member fault means in terms of the member's stripped fields. */
  lemma FaultMeaning(f: MemberFields)
    ensures FaultOf(f).None? <==> MemberAcceptable(f)
    ensures FaultOf(f) == Some(MissingFields) <==> !AllPresent(f)
    ensures FaultOf(f) == Some(BadEmail) <==> AllPresent(f) && !EmailShape(f.email)
    ensures FaultOf(f) == Some(BadPhone) <==> AllPresent(f) && EmailShape(f.email) && !PhoneShape(f.phone)
  {
    EmailPatternMeaning(f.email);
    PhonePatternMeaning(f.phone);
  }

  /** The team checks that come before the member list is looked at. */
  predicate TeamAcceptable(d: TeamData) {
    TeamFieldsPresent(d) && d.competitionTrack in ValidTracks &&
    !OutOfRange(d.projectIntro) && !OutOfRange(d.techSolution) && !OutOfRange(d.goalsAndOutlook)
  }

  /**
   * A body is accepted exactly when the team checks pass, there is a
   * member, some member's is_captain is truthy and every member's stripped
   * fields pass; the values saved are then the stripped team fields.
   */
  lemma ValidateAccepts(req: Request)
    ensures Validate(req).Ok? <==>
              TeamAcceptable(TeamDataOf(req.teamInfo)) && |req.members| > 0 && AnyCaptain(req.members) &&
              AllAcceptable(ReadMembers(req.members))
    ensures Validate(req).Ok? ==> Validate(req).value == TeamDataOf(req.teamInfo)
  {
    var d := TeamDataOf(req.teamInfo);
    var fs := ReadMembers(req.members);
    var c := AnyCaptain(req.members);
    assert Validate(req).Ok? <==> TeamAcceptable(d) && MembersRejection(fs, c).None?;
    MembersAllPass(fs, c);
    AllAcceptableMeaning(fs);
  }

  /** Every member of the list is acceptable. */
  predicate AllAcceptable(fs: seq<MemberFields>) {
    forall i :: 0 <= i < |fs| ==> MemberAcceptable(fs[i])
  }

  lemma AllAcceptableMeaning(fs: seq<MemberFields>)
    ensures AllAcceptable(fs) <==> forall i :: 0 <= i < |fs| ==> FaultOf(fs[i]).None?
  {
    forall i | 0 <= i < |fs| ensures FaultOf(fs[i]).None? <==> MemberAcceptable(fs[i]) {
      FaultMeaning(fs[i]);
    }
  }

  /** The member list passes exactly when it is non-empty, has a captain and no member has a fault. */
  lemma MembersAllPass(fs: seq<MemberFields>, hasCaptain: bool)
    ensures MembersRejection(fs, hasCaptain).None? <==>
              |fs| > 0 && hasCaptain && forall i :: 0 <= i < |fs| ==> FaultOf(fs[i]).None?
  {
  }

  /**
   * A member is reported only once the team checks, the member list and
   * the captain flag have passed, and the member reported is the first
   * that fails, with its own fault.
   */
  lemma ValidateReportsFirstBadMember(req: Request, n: nat, f: MemberFault)
    ensures Validate(req) == Err(BadMember(n, f)) <==>
              TeamAcceptable(TeamDataOf(req.teamInfo)) && AnyCaptain(req.members) &&
              1 <= n <= |req.members| && FaultOf(ReadMembers(req.members)[n - 1]) == Some(f) &&
              forall i :: 0 <= i < n - 1 ==> FaultOf(ReadMembers(req.members)[i]).None?
  {
    var d := TeamDataOf(req.teamInfo);
    var fs := ReadMembers(req.members);
    var c := AnyCaptain(req.members);
    assert Validate(req) == Err(BadMember(n, f)) <==>
           TeamAcceptable(d) && MembersRejection(fs, c) == Some(BadMember(n, f));
    FirstBadMemberReported(fs, c, n, f);
  }

  /** The member list is refused for member n exactly when member n is the first with a fault. */
  lemma FirstBadMemberReported(fs: seq<MemberFields>, hasCaptain: bool, n: nat, f: MemberFault)
    ensures MembersRejection(fs, hasCaptain) == Some(BadMember(n, f)) <==>
              hasCaptain && 1 <= n <= |fs| && FaultOf(fs[n - 1]) == Some(f) &&
              forall i :: 0 <= i < n - 1 ==> FaultOf(fs[i]).None?
  {
    if hasCaptain && 1 <= n <= |fs| && FaultOf(fs[n - 1]) == Some(f) &&
       (forall i :: 0 <= i < n - 1 ==> FaultOf(fs[i]).None?) {
      var found := FirstFault(fs);
      assert found.Some?;
      assert found.value.0 == n - 1;
    }
  }

  /** The captain is looked for only after the team checks pass and the list is non-empty. */
  lemma ValidateReportsNoCaptain(req: Request)
    ensures Validate(req) == Err(NoCaptain) <==>
              TeamAcceptable(TeamDataOf(req.teamInfo)) && |req.members| > 0 && !AnyCaptain(req.members)
  {
  }

  /** A team-level refusal comes from the team checks alone: the member checks never produce one. */
  lemma ValidateTeamStage(req: Request, e: Rejection)
    requires e.MissingTeamFields? || e.UnknownTrack? || e.BadLength?
    ensures Validate(req) == Err(e) <==> TeamRejection(TeamDataOf(req.teamInfo)) == Some(e)
  {
    var m := MembersRejection(ReadMembers(req.members), AnyCaptain(req.members));
    assert m.None? || m.value.NoMembers? || m.value.NoCaptain? || m.value.BadMember?;
  }

  /** A blank required team field is the first thing refused, whatever else the body holds. */
  lemma ValidateReportsMissingTeamFields(req: Request)
    ensures Validate(req) == Err(MissingTeamFields) <==> !TeamFieldsPresent(TeamDataOf(req.teamInfo))
  {
    ValidateTeamStage(req, MissingTeamFields);
  }

  /** An unknown track is refused exactly when the required fields are all present. */
  lemma ValidateReportsUnknownTrack(req: Request)
    ensures Validate(req) == Err(UnknownTrack) <==>
              TeamFieldsPresent(TeamDataOf(req.teamInfo)) && TeamDataOf(req.teamInfo).competitionTrack !in ValidTracks
  {
    ValidateTeamStage(req, UnknownTrack);
  }

  /** The long text named is the first of intro, solution and outlook out of range, once the fields and the track pass. */
  lemma ValidateReportsBadLength(req: Request)
    ensures var d := TeamDataOf(req.teamInfo);
            var before := TeamFieldsPresent(d) && d.competitionTrack in ValidTracks;
            (Validate(req) == Err(BadLength(ProjectIntro)) <==> before && OutOfRange(d.projectIntro)) &&
            (Validate(req) == Err(BadLength(TechSolution)) <==>
               before && !OutOfRange(d.projectIntro) && OutOfRange(d.techSolution)) &&
            (Validate(req) == Err(BadLength(GoalsAndOutlook)) <==>
               before && !OutOfRange(d.projectIntro) && !OutOfRange(d.techSolution) && OutOfRange(d.goalsAndOutlook))
  {
    ValidateTeamStage(req, BadLength(ProjectIntro));
    ValidateTeamStage(req, BadLength(TechSolution));
    ValidateTeamStage(req, BadLength(GoalsAndOutlook));
  }

  /** The team values saved are stripped (stripping them again changes nothing) and pass the team checks. */
  lemma SavedValuesStripped(req: Request)
    requires Validate(req).Ok?
    ensures var d := Validate(req).value;
            TeamAcceptable(d) &&
            Trim(d.teamName) == d.teamName && Trim(d.projectName) == d.projectName &&
            Trim(d.costrictUid) == d.costrictUid && Trim(d.repoUrl) == d.repoUrl
  {
    var t := req.teamInfo;
    TrimIdempotent(ToStr(Get(t, "team_name", Str(""))));
    TrimIdempotent(ToStr(Get(t, "project_name", Str(""))));
    TrimIdempotent(ToStr(Get(t, "costrict_uid", Str(""))));
    TrimIdempotent(ToStr(Get(t, "repo_url", Str(""))));
  }
}
