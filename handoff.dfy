/**
 * The hand-off from the page to the endpoint: the JSON body the submit
 * handler sends (JSON.stringify of what getFormData returns) and what
 * submit_team answers to it.
 */
module Handoff {
  import opened Wrappers
  import opened Json
  import opened Text
  import opened Pattern
  import opened Rules
  import opened Roster
  import opened Server

  /** team_info as the body carries it: eight string values. */
  function EncodeTeam(t: TeamInfo): Object {
    map[
      "team_name" := Str(t.teamName), "competition_track" := Str(t.competitionTrack),
      "project_name" := Str(t.projectName), "repo_url" := Str(t.repoUrl),
      "costrict_uid" := Str(t.costrictUid), "project_intro" := Str(t.projectIntro),
      "tech_solution" := Str(t.techSolution), "goals_and_outlook" := Str(t.goalsAndOutlook)]
  }

  /** One members element as the body carries it: eleven string values and no is_captain. */
  function EncodeMember(m: MemberInfo): Object {
    map[
      "name" := Str(m.name), "member_type" := Str(m.memberType), "school" := Str(m.school),
      "department" := Str(m.department), "major_grade" := Str(m.majorGrade), "phone" := Str(m.phone),
      "email" := Str(m.email), "student_id" := Str(m.studentId), "role" := Str(m.role),
      "tech_stack" := Str(m.techStack), "desc" := Str(m.desc)]
  }

  /** The body the page posts. */
  function Encode(d: FormData): Request {
    Request(EncodeTeam(d.teamInfo), seq(|d.members|, i requires 0 <= i < |d.members| => EncodeMember(d.members[i])))
  }

  /** No element of the body carries is_captain, so the endpoint finds no captain in any body the page posts. */
  lemma EncodedHasNoCaptain(d: FormData)
    ensures !AnyCaptain(Encode(d).members)
  {
    var ms := Encode(d).members;
    forall i | 0 <= i < |ms| ensures !CaptainFlag(ms[i]) {
      assert ms[i] == EncodeMember(d.members[i]);
    }
  }

  /**
   * The endpoint accepts no body the page posts: once the team checks pass
   * and there is a member it answers that the team has no captain.
   */
  lemma ClientRequestRefused(d: FormData)
    ensures Validate(Encode(d)).Err?
    ensures TeamAcceptable(TeamDataOf(EncodeTeam(d.teamInfo))) && |d.members| > 0 ==>
              Validate(Encode(d)) == Err(NoCaptain)
  {
    EncodedHasNoCaptain(d);
    ValidateAccepts(Encode(d));
    ValidateReportsNoCaptain(Encode(d));
  }

  /** The track select holds one of the two tracks. */
  predicate TrackChosen(team: map<string, string>) {
    ValueOf(team, "competition-track") in ValidTracks
  }

  /** The team values the endpoint hands to save_team for the page's team inputs: each trimmed, the track as selected. */
  function SavedTeam(team: map<string, string>): TeamData {
    TeamData(
      Trim(ValueOf(team, "team-name")), ValueOf(team, "competition-track"),
      Trim(ValueOf(team, "project-name")), Trim(ValueOf(team, "repo-url")),
      Trim(ValueOf(team, "costrict-uid")), Trim(ValueOf(team, "project-intro")),
      Trim(ValueOf(team, "tech-solution")), Trim(ValueOf(team, "goals-outlook")))
  }

  /** A value the page trimmed reads back unchanged once the endpoint strips it again. */
  lemma TrimmedFieldRead(o: Object, key: string, v: string)
    requires key in o && o[key] == Str(Trim(v))
    ensures Field(o, key) == Trim(v)
  {
    TrimIdempotent(v);
  }

  /** team_info carries each value under its key. */
  lemma EncodedTeamKeys(t: TeamInfo)
    ensures var o := EncodeTeam(t);
            "team_name" in o && o["team_name"] == Str(t.teamName) &&
            "competition_track" in o && o["competition_track"] == Str(t.competitionTrack) &&
            "project_name" in o && o["project_name"] == Str(t.projectName) &&
            "repo_url" in o && o["repo_url"] == Str(t.repoUrl) &&
            "costrict_uid" in o && o["costrict_uid"] == Str(t.costrictUid) &&
            "project_intro" in o && o["project_intro"] == Str(t.projectIntro) &&
            "tech_solution" in o && o["tech_solution"] == Str(t.techSolution) &&
            "goals_and_outlook" in o && o["goals_and_outlook"] == Str(t.goalsAndOutlook)
  {
  }

  /** Every value of team_info is its own trim. */
  predicate TrimmedInfo(t: TeamInfo) {
    Trim(t.teamName) == t.teamName && Trim(t.competitionTrack) == t.competitionTrack &&
    Trim(t.projectName) == t.projectName && Trim(t.repoUrl) == t.repoUrl &&
    Trim(t.costrictUid) == t.costrictUid && Trim(t.projectIntro) == t.projectIntro &&
    Trim(t.techSolution) == t.techSolution && Trim(t.goalsAndOutlook) == t.goalsAndOutlook
  }

  /** When nothing is left to strip, the endpoint reads team_info back value for value. */
  lemma TrimmedTeamRead(t: TeamInfo)
    requires TrimmedInfo(t)
    ensures TeamDataOf(EncodeTeam(t)) ==
            TeamData(t.teamName, t.competitionTrack, t.projectName, t.repoUrl,
                     t.costrictUid, t.projectIntro, t.techSolution, t.goalsAndOutlook)
  {
    EncodedTeamKeys(t);
  }

  /** Both tracks are their own trim. */
  lemma TracksTrimmed(track: string)
    requires track in ValidTracks
    ensures Trim(track) == track
  {
    assert track == ValidTracks[0] || track == ValidTracks[1];
    TrimOfTrimmed(track);
  }

  /** What the page sends as team_info is trimmed already, provided a track is chosen. */
  lemma TeamInfoTrimmed(team: map<string, string>)
    requires TrackChosen(team)
    ensures TrimmedInfo(TeamInfoOf(team))
  {
    TracksTrimmed(ValueOf(team, "competition-track"));
    TrimIdempotent(ValueOf(team, "team-name"));
    TrimIdempotent(ValueOf(team, "project-name"));
    TrimIdempotent(ValueOf(team, "repo-url"));
    TrimIdempotent(ValueOf(team, "costrict-uid"));
    TrimIdempotent(ValueOf(team, "project-intro"));
    TrimIdempotent(ValueOf(team, "tech-solution"));
    TrimIdempotent(ValueOf(team, "goals-outlook"));
  }

  /** The endpoint strips what the page already trimmed, which changes nothing; a valid track has no whitespace to strip. */
  lemma EncodedTeamRead(team: map<string, string>)
    requires TrackChosen(team)
    ensures TeamDataOf(EncodeTeam(TeamInfoOf(team))) == SavedTeam(team)
  {
    TeamInfoTrimmed(team);
    TrimmedTeamRead(TeamInfoOf(team));
  }

  /** An optional long text whose rule passes is blank or within the bounds once trimmed. */
  lemma OptionalEntryPasses(values: map<string, string>, entry: (string, Rule))
    requires entry.0 in values && entry.1.check == OptionalLength(TextMin, TextMax)
    requires EntryPasses(entry, values)
    ensures !OutOfRange(Trim(ValueOf(values, entry.0)))
  {
    TrimIdempotent(values[entry.0]);
  }

  /** A team part that passes the page's team rules, with a track chosen, passes the endpoint's team checks. */
  lemma ClientTeamAccepted(team: map<string, string>)
    requires TeamElementsPresent(team) && TrackChosen(team) && Passes(TeamRules, team)
    ensures TeamAcceptable(TeamDataOf(EncodeTeam(TeamInfoOf(team))))
  {
    EncodedTeamRead(team);
    PassesMeaning(TeamRules, team);
    RequiredEntryPasses(team, TeamRules[0]);
    RequiredEntryPasses(team, TeamRules[2]);
    RequiredEntryPasses(team, TeamRules[3]);
    OptionalEntryPasses(team, TeamRules[4]);
    OptionalEntryPasses(team, TeamRules[5]);
    OptionalEntryPasses(team, TeamRules[6]);
  }

  /** The endpoint strips what the page already trimmed: a member element reads back as the trimmed inputs. */
  lemma EncodedMemberRead(values: map<string, string>, memberType: string)
    ensures MemberFieldsOf(EncodeMember(MemberInfoOf(values, memberType))) ==
            MemberFields(
              Trim(ValueOf(values, "name")), Trim(ValueOf(values, "school")), Trim(ValueOf(values, "department")),
              Trim(ValueOf(values, "major-grade")), Trim(ValueOf(values, "phone")), Trim(ValueOf(values, "email")),
              Trim(ValueOf(values, "role")))
  {
    var o := EncodeMember(MemberInfoOf(values, memberType));
    TrimmedFieldRead(o, "name", ValueOf(values, "name"));
    TrimmedFieldRead(o, "school", ValueOf(values, "school"));
    TrimmedFieldRead(o, "department", ValueOf(values, "department"));
    TrimmedFieldRead(o, "major_grade", ValueOf(values, "major-grade"));
    TrimmedFieldRead(o, "phone", ValueOf(values, "phone"));
    TrimmedFieldRead(o, "email", ValueOf(values, "email"));
    TrimmedFieldRead(o, "role", ValueOf(values, "role"));
  }

  /** A pattern with at least one piece matches no empty value. */
  lemma MatchedNotEmpty(p: seq<Piece>, v: string)
    requires |p| > 0 && Matches(p, v)
    ensures v != ""
  {
  }

  /** A required member rule that passes leaves something once trimmed. */
  lemma RequiredEntryPasses(values: map<string, string>, entry: (string, Rule))
    requires entry.0 in values && entry.1.check.MinTrimmed? && entry.1.check.n >= 1
    requires EntryPasses(entry, values)
    ensures Trim(ValueOf(values, entry.0)) != ""
  {
    TrimOfTrimmed("");
  }

  /** What the corrected member rules demand of an entry with all its inputs, field by field. */
  lemma CorrectedRulesRead(values: map<string, string>)
    requires MemberInputs <= values.Keys && Passes(CorrectedMemberRules, values)
    ensures Trim(ValueOf(values, "name")) != "" && Trim(ValueOf(values, "school")) != ""
    ensures Trim(ValueOf(values, "department")) != "" && Trim(ValueOf(values, "major-grade")) != ""
    ensures Trim(ValueOf(values, "role")) != ""
    ensures Matches(PhonePattern, Trim(ValueOf(values, "phone")))
    ensures Matches(EmailPattern, Trim(ValueOf(values, "email")))
  {
    PassesMeaning(CorrectedMemberRules, values);
    RequiredEntryPasses(values, CorrectedMemberRules[0]);
    RequiredEntryPasses(values, CorrectedMemberRules[1]);
    RequiredEntryPasses(values, CorrectedMemberRules[2]);
    RequiredEntryPasses(values, CorrectedMemberRules[3]);
    RequiredEntryPasses(values, CorrectedMemberRules[6]);
    assert EntryPasses(CorrectedMemberRules[4], values) && EntryPasses(CorrectedMemberRules[5], values);
  }

  /** The checks on one member pass when every required field is there and both patterns match. */
  lemma NoFault(f: MemberFields)
    requires f.name != "" && f.school != "" && f.department != "" && f.majorGrade != "" && f.role != ""
    requires Matches(PhonePattern, f.phone) && Matches(EmailPattern, f.email)
    ensures FaultOf(f) == None
  {
    MatchedNotEmpty(PhonePattern, f.phone);
    MatchedNotEmpty(EmailPattern, f.email);
  }

  /**
   * A member entry that passes the member rules with the major rule keyed
   * by its input's id passes the endpoint's checks on one member.
   */
  lemma ClientMemberAccepted(values: map<string, string>, memberType: string)
    requires MemberInputs <= values.Keys && Passes(CorrectedMemberRules, values)
    ensures FaultOf(MemberFieldsOf(EncodeMember(MemberInfoOf(values, memberType)))) == None
  {
    EncodedMemberRead(values, memberType);
    CorrectedRulesRead(values);
    NoFault(MemberFieldsOf(EncodeMember(MemberInfoOf(values, memberType))));
  }

  /** The element for a row with is_captain added, true exactly for the captain's row. */
  function EncodeMemberWithCaptain(m: MemberInfo): Object {
    EncodeMember(m)["is_captain" := Bool(m.memberType == CaptainType)]
  }

  /** The body with each element carrying is_captain. */
  function EncodeWithCaptain(d: FormData): Request {
    Request(EncodeTeam(d.teamInfo),
            seq(|d.members|, i requires 0 <= i < |d.members| => EncodeMemberWithCaptain(d.members[i])))
  }

  /** With is_captain sent, the endpoint finds a captain exactly when some row is typed 队长, and reads every other field as before. */
  lemma CaptainFlagSent(d: FormData)
    ensures AnyCaptain(EncodeWithCaptain(d).members) <==>
              exists i :: 0 <= i < |d.members| && d.members[i].memberType == CaptainType
    ensures forall i :: 0 <= i < |d.members| ==>
              MemberFieldsOf(EncodeWithCaptain(d).members[i]) == MemberFieldsOf(EncodeMember(d.members[i]))
  {
    var ms := EncodeWithCaptain(d).members;
    forall i | 0 <= i < |d.members|
      ensures CaptainFlag(ms[i]) <==> d.members[i].memberType == CaptainType
      ensures MemberFieldsOf(ms[i]) == MemberFieldsOf(EncodeMember(d.members[i]))
    {
      assert ms[i] == EncodeMemberWithCaptain(d.members[i]);
    }
  }

  /** Adding is_captain leaves the fields the endpoint checks as they were. */
  lemma CaptainKeyIgnored(m: MemberInfo)
    ensures MemberFieldsOf(EncodeMemberWithCaptain(m)) == MemberFieldsOf(EncodeMember(m))
  {
    var o, o' := EncodeMember(m), EncodeMemberWithCaptain(m);
    assert forall k :: k != "is_captain" ==> Get(o', k, Str("")) == Get(o, k, Str(""));
  }

  /** Element j of the body is row j encoded. */
  lemma EncodedRowAt(d: FormData, j: nat)
    requires j < |d.members|
    ensures |EncodeWithCaptain(d).members| == |d.members|
    ensures EncodeWithCaptain(d).members[j] == EncodeMemberWithCaptain(d.members[j])
  {
  }

  /** Row j of the form data is member row j. */
  lemma FormRowAt(team: map<string, string>, ms: seq<MemberEntry>, advisor: Option<AdvisorEntry>, j: nat)
    requires j < |ms|
    ensures j < |FormDataOf(team, ms, advisor).members|
    ensures FormDataOf(team, ms, advisor).members[j] == MemberRow(ms, j)
  {
  }

  /** Row j of a roster that passes the corrected member rules reads back without a fault. */
  lemma MemberRowAccepted(team: map<string, string>, ms: seq<MemberEntry>, advisor: Option<AdvisorEntry>, j: nat)
    requires j < |ms| && MemberElementsPresent(ms) && ReachablePass(CorrectedMemberRules, ms)
    ensures var req := EncodeWithCaptain(FormDataOf(team, ms, advisor));
            j < |req.members| && FaultOf(ReadMembers(req.members)[j]) == None
  {
    var d := FormDataOf(team, ms, advisor);
    FormRowAt(team, ms, advisor, j);
    EncodedRowAt(d, j);
    var p := FirstPos(ms, ms[j].index).value;
    assert FirstPos(ms, ms[p].index) == Some(p);
    var row := MemberRow(ms, j);
    ClientMemberAccepted(ms[p].values, row.memberType);
    CaptainKeyIgnored(row);
    ReadMembersAt(EncodeWithCaptain(d).members, j);
  }

  /** A roster with a captain yields a body in which the endpoint finds one. */
  lemma CaptainFound(team: map<string, string>, ms: seq<MemberEntry>, advisor: Option<AdvisorEntry>)
    requires HasCaptain(ms)
    ensures AnyCaptain(EncodeWithCaptain(FormDataOf(team, ms, advisor)).members)
  {
    var d := FormDataOf(team, ms, advisor);
    FormDataLayout(team, ms, advisor);
    var j :| 0 <= j < |ms| && ms[j].captain;
    assert d.members[j].memberType == CaptainType;
    CaptainFlagSent(d);
  }

  /**
   * As written, every form the page lets through (team rules, reachable
   * members, a captain, the advisor, the headcount) is refused by the
   * endpoint because it finds no captain.
   */
  lemma ClientFormRefused(team: map<string, string>, ms: seq<MemberEntry>, advisor: Option<AdvisorEntry>)
    requires TeamElementsPresent(team) && TrackChosen(team)
    requires FormPasses(team, ms, advisor)
    ensures Validate(Encode(FormDataOf(team, ms, advisor))) == Err(NoCaptain)
  {
    var d := FormDataOf(team, ms, advisor);
    ClientTeamAccepted(team);
    assert |d.members| > 0;
    ClientRequestRefused(d);
  }

  /**
   * With is_captain sent and the major rule keyed by its input, a form
   * without an advisor that the page lets through is accepted, and the
   * endpoint saves the page's trimmed team values.
   */
  lemma CorrectedFormAccepted(team: map<string, string>, ms: seq<MemberEntry>)
    requires TeamElementsPresent(team) && TrackChosen(team) && MemberElementsPresent(ms)
    requires FormPassesWith(CorrectedMemberRules, team, ms, None)
    ensures Validate(EncodeWithCaptain(FormDataOf(team, ms, None))) == Ok(SavedTeam(team))
  {
    var req := EncodeWithCaptain(FormDataOf(team, ms, None));
    var fs := ReadMembers(req.members);
    ClientTeamAccepted(team);
    EncodedTeamRead(team);
    CaptainFound(team, ms, None);
    forall j | 0 <= j < |fs| ensures FaultOf(fs[j]).None? {
      MemberRowAccepted(team, ms, None, j);
    }
    MembersAllPass(fs, true);
  }

  /** An element whose major_grade is blank lacks a required field, whether or not it carries is_captain. */
  lemma BlankMajorRejected(m: MemberInfo)
    requires m.majorGrade == ""
    ensures FaultOf(MemberFieldsOf(EncodeMember(m))) == Some(MissingFields)
    ensures FaultOf(MemberFieldsOf(EncodeMemberWithCaptain(m))) == Some(MissingFields)
  {
    var o := EncodeMember(m);
    assert o["major_grade"] == Str("");
    TrimOfTrimmed("");
    var f := MemberFieldsOf(o);
    assert f.majorGrade == "";
    assert !AllPresent(f);
    CaptainKeyIgnored(m);
  }

  /** The advisor's element always reads back with a blank major_grade: a missing required field. */
  lemma AdvisorRowRejected(a: AdvisorEntry)
    ensures FaultOf(MemberFieldsOf(EncodeMember(AdvisorRow(a)))) == Some(MissingFields)
    ensures FaultOf(MemberFieldsOf(EncodeMemberWithCaptain(AdvisorRow(a)))) == Some(MissingFields)
  {
    var row := AdvisorRow(a);
    assert row.majorGrade == "";
    BlankMajorRejected(row);
  }

  /** The advisor's element comes after the members' and reads back with a missing required field. */
  lemma AdvisorElementRejected(team: map<string, string>, ms: seq<MemberEntry>, a: AdvisorEntry)
    ensures var req := EncodeWithCaptain(FormDataOf(team, ms, Some(a)));
            |req.members| == |ms| + 1 && FaultOf(ReadMembers(req.members)[|ms|]) == Some(MissingFields)
  {
    var d := FormDataOf(team, ms, Some(a));
    assert |d.members| == |ms| + 1 && d.members[|ms|] == AdvisorRow(a);
    EncodedRowAt(d, |ms|);
    ReadMembersAt(EncodeWithCaptain(d).members, |ms|);
    AdvisorRowRejected(a);
  }

  /**
   * Even with is_captain sent, a form with an advisor is refused: the
   * members pass, and the advisor's element, numbered after them, lacks
   * a required field.
   */
  lemma AdvisorFormRefused(team: map<string, string>, ms: seq<MemberEntry>, a: AdvisorEntry)
    requires TeamElementsPresent(team) && TrackChosen(team) && MemberElementsPresent(ms)
    requires FormPassesWith(CorrectedMemberRules, team, ms, Some(a))
    ensures Validate(EncodeWithCaptain(FormDataOf(team, ms, Some(a)))) == Err(BadMember(|ms| + 1, MissingFields))
  {
    var d := FormDataOf(team, ms, Some(a));
    var req := EncodeWithCaptain(d);
    var fs := ReadMembers(req.members);
    ClientTeamAccepted(team);
    CaptainFound(team, ms, Some(a));
    forall j | 0 <= j < |ms| ensures FaultOf(fs[j]).None? {
      MemberRowAccepted(team, ms, Some(a), j);
    }
    AdvisorElementRejected(team, ms, a);
    FirstBadMemberReported(fs, true, |ms| + 1, MissingFields);
  }

  /**
   * On every page the handlers can reach, a form that validateForm accepts
   * with a track chosen is refused by the endpoint for lack of a captain.
   */
  lemma PageFormRefused(page: RegistrationPage)
    requires page.Valid() && TrackChosen(page.team)
    requires FormPasses(page.team, page.members, page.advisor)
    ensures Validate(Encode(FormDataOf(page.team, page.members, page.advisor))) == Err(NoCaptain)
  {
    ClientFormRefused(page.team, page.members, page.advisor);
  }

  /** On a reachable page without an advisor, the corrected page and payload get the team saved as entered. */
  lemma PageCorrectedFormAccepted(page: RegistrationPage)
    requires page.Valid() && TrackChosen(page.team) && page.advisor.None?
    requires FormPassesWith(CorrectedMemberRules, page.team, page.members, None)
    ensures Validate(EncodeWithCaptain(FormDataOf(page.team, page.members, None))) == Ok(SavedTeam(page.team))
  {
    CorrectedFormAccepted(page.team, page.members);
  }
}
