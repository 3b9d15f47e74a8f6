/**
 * The registration page's roster: the team fields, the member entries in
 * document order (each carrying its data-member-index), the optional
 * advisor, the globals memberCount and advisorCount, and the toasts shown.
 * Every handler of the page that changes the roster is a method of
 * RegistrationPage; getElementById / querySelector on an index is modelled
 * by FirstPos, the first entry in document order carrying that index.
 */
module Roster {
  import opened Wrappers
  import opened Text
  import opened Rules

  /** The input elements of a member entry, by the stem of their id (`member-<stem>-<index>`). */
  const MemberInputs: set<string> :=
    {"name", "school", "department", "major-grade", "phone", "email", "student-id", "role", "tech-stack"}

  /** The member inputs that have an `-error` element beside them. */
  const MemberErrorSlots: set<string> :=
    {"name", "school", "department", "major-grade", "phone", "email", "role"}

  /** The inputs of the advisor entry (`advisor-<stem>-0`); each has an `-error` element. */
  const AdvisorInputs: set<string> := {"name", "phone", "email", "school", "department", "intro"}

  /** The team inputs, by element id. */
  const TeamInputs: set<string> :=
    {"team-name", "competition-track", "project-name", "repo-url", "costrict-uid",
     "project-intro", "tech-solution", "goals-outlook"}

  /** The team fields with a validator and an `<id>-error` element. */
  const TeamErrorSlots: set<string> :=
    {"team-name", "competition-track", "project-name", "costrict-uid",
     "project-intro", "tech-solution", "goals-outlook"}

  /**
   * One `.member-item`: its data-member-index, the number in its title, its
   * inputs and error texts, its captain box, whether its content is shown,
   * and whether its title still holds the `.toggle-btn` fold button.
   */
  datatype MemberEntry = MemberEntry(
    index: int,
    title: nat,
    values: map<string, string>,
    errors: map<string, string>,
    captain: bool,
    expanded: bool,
    foldable: bool)

  /** The single `.advisor-item`, whose data-advisor-index is always 0. */
  datatype AdvisorEntry = AdvisorEntry(values: map<string, string>, errors: map<string, string>, expanded: bool)

  /** The error toasts the roster handlers and the form check show. */
  datatype Notice = MemberLimit | AdvisorLimit | KeepOneMember | CaptainRequired | HeadcountLimit

  const MaxMembers := 5
  const MaxHeadcount := 6

  function Blank(keys: set<string>): map<string, string> {
    map k | k in keys :: ""
  }

  /** A freshly added member: empty inputs and errors, box unchecked, expanded, with its fold button. */
  function NewMember(index: int, title: nat): MemberEntry {
    MemberEntry(index, title, Blank(MemberInputs), Blank(MemberErrorSlots), false, true, true)
  }

  /** The first position in document order whose entry carries index idx, as getElementById and querySelector find it. */
  function FirstPos(ms: seq<MemberEntry>, idx: int): (r: Option<nat>)
    ensures r.None? <==> forall j :: 0 <= j < |ms| ==> ms[j].index != idx
    ensures r.Some? ==> r.value < |ms| && ms[r.value].index == idx &&
                        forall j :: 0 <= j < r.value ==> ms[j].index != idx
  {
    if ms == [] then None
    else if ms[0].index == idx then Some(0)
    else match FirstPos(ms[1..], idx)
      case None => None
      case Some(k) => Some(k + 1)
  }

  /** Entry j is the one a lookup by its own index reaches. */
  predicate IsFirst(ms: seq<MemberEntry>, j: nat) {
    j < |ms| && FirstPos(ms, ms[j].index) == Some(j)
  }

  /** Every team input the page reads exists. */
  predicate TeamElementsPresent(team: map<string, string>) {
    TeamInputs <= team.Keys
  }

  /** Every member entry has all its inputs. */
  predicate MemberElementsPresent(ms: seq<MemberEntry>) {
    forall j :: 0 <= j < |ms| ==> MemberInputs <= ms[j].values.Keys
  }

  predicate AtMostOneCaptain(ms: seq<MemberEntry>) {
    forall i, j :: 0 <= i < |ms| && 0 <= j < |ms| && ms[i].captain && ms[j].captain ==> i == j
  }

  predicate HasCaptain(ms: seq<MemberEntry>) {
    exists i :: 0 <= i < |ms| && ms[i].captain
  }

  /** The entries after `.member-item` p is removed, each title rewritten to its new position. */
  function RemoveAt(ms: seq<MemberEntry>, p: nat): (r: seq<MemberEntry>)
    requires p < |ms|
  {
    Renumbered(ms[..p] + ms[p + 1..])
  }

  /**
   * Each entry's title set to its position, counted from 1. The title is
   * rewritten as plain text, which drops the fold button it held.
   */
  function Renumbered(ms: seq<MemberEntry>): (r: seq<MemberEntry>) {
    seq(|ms|, i requires 0 <= i < |ms| => ms[i].(title := i + 1, foldable := false))
  }

  /** Some entry carrying idx still has a fold button with that data-index to click. */
  predicate FoldButton(ms: seq<MemberEntry>, idx: int) {
    exists j :: 0 <= j < |ms| && ms[j].index == idx && ms[j].foldable
  }

  /** A change event on the captain box of entry pos: the box has flipped, and a checked box clears every other one. */
  function AfterCaptainClick(ms: seq<MemberEntry>, pos: nat): (r: seq<MemberEntry>)
    requires pos < |ms|
  {
    var checked := !ms[pos].captain;
    seq(|ms|, i requires 0 <= i < |ms| =>
      if i == pos then ms[i].(captain := checked)
      else if checked then ms[i].(captain := false)
      else ms[i])
  }

  /** A member entry after a rule table has run over its inputs and error elements. */
  function CheckedMember(rules: RuleTable, m: MemberEntry): MemberEntry {
    m.(errors := ErrorsAfter(rules, m.values, m.errors))
  }

  /** The roster after validateForm: every entry that a lookup by its index reaches is validated; a later entry sharing an index is not. */
  function CheckedMembers(rules: RuleTable, ms: seq<MemberEntry>): (r: seq<MemberEntry>) {
    seq(|ms|, j requires 0 <= j < |ms| => if IsFirst(ms, j) then CheckedMember(rules, ms[j]) else ms[j])
  }

  /** Every entry that a lookup by its index reaches passes the rules. */
  predicate ReachablePass(rules: RuleTable, ms: seq<MemberEntry>) {
    forall j :: 0 <= j < |ms| && IsFirst(ms, j) ==> Passes(rules, ms[j].values)
  }

  function CheckedAdvisor(a: AdvisorEntry): AdvisorEntry {
    a.(errors := ErrorsAfter(AdvisorRules, a.values, a.errors))
  }

  /** What validateForm answers for a roster: team rules, every reachable member, a captain, the advisor, the headcount. */
  predicate FormPasses(team: map<string, string>, ms: seq<MemberEntry>, advisor: Option<AdvisorEntry>) {
    FormPassesWith(MemberRules, team, ms, advisor)
  }

  /** FormPasses with the member rules taken from the table given. */
  predicate FormPassesWith(memberRules: RuleTable, team: map<string, string>, ms: seq<MemberEntry>, advisor: Option<AdvisorEntry>) {
    Passes(TeamRules, team) &&
    ReachablePass(memberRules, ms) &&
    HasCaptain(ms) &&
    (advisor.Some? ==> Passes(AdvisorRules, advisor.value.values)) &&
    |ms| + (if advisor.Some? then 1 else 0) <= MaxHeadcount
  }

  /** The value of an input element; an element the entry does not have reads as empty. */
  function ValueOf(values: map<string, string>, key: string): string {
    if key in values then values[key] else ""
  }

  /** The entry whose inputs getElementById reaches for the index of entry j. */
  function Reached(ms: seq<MemberEntry>, j: nat): (e: MemberEntry)
    requires j < |ms|
    ensures e.index == ms[j].index
  {
    ms[FirstPos(ms, ms[j].index).value]
  }

  const CaptainType := "队长"
  const MemberType := "队员"
  const AdvisorType := "指导老师"

  /** team_info as getFormData builds it: every value trimmed except the track's. */
  datatype TeamInfo = TeamInfo(
    teamName: string, competitionTrack: string, projectName: string, repoUrl: string,
    costrictUid: string, projectIntro: string, techSolution: string, goalsAndOutlook: string)

  /** One element of the members array getFormData builds. */
  datatype MemberInfo = MemberInfo(
    name: string, memberType: string, school: string, department: string, majorGrade: string,
    phone: string, email: string, studentId: string, role: string, techStack: string, desc: string)

  /** The body of the submission: team_info and members. */
  datatype FormData = FormData(teamInfo: TeamInfo, members: seq<MemberInfo>)

  function TeamInfoOf(team: map<string, string>): TeamInfo {
    TeamInfo(
      Trim(ValueOf(team, "team-name")), ValueOf(team, "competition-track"),
      Trim(ValueOf(team, "project-name")), Trim(ValueOf(team, "repo-url")),
      Trim(ValueOf(team, "costrict-uid")), Trim(ValueOf(team, "project-intro")),
      Trim(ValueOf(team, "tech-solution")), Trim(ValueOf(team, "goals-outlook")))
  }

  /** The trimmed member inputs of an entry, with the member type given and an empty desc. */
  function MemberInfoOf(values: map<string, string>, memberType: string): MemberInfo {
    MemberInfo(
      Trim(ValueOf(values, "name")), memberType, Trim(ValueOf(values, "school")),
      Trim(ValueOf(values, "department")), Trim(ValueOf(values, "major-grade")),
      Trim(ValueOf(values, "phone")), Trim(ValueOf(values, "email")),
      Trim(ValueOf(values, "student-id")), Trim(ValueOf(values, "role")),
      Trim(ValueOf(values, "tech-stack")), "")
  }

  /** The row of `.member-item` j: its own captain box decides the type, the inputs come from the entry its index reaches. */
  function MemberRow(ms: seq<MemberEntry>, j: nat): MemberInfo
    requires j < |ms|
  {
    MemberInfoOf(Reached(ms, j).values, if ms[j].captain then CaptainType else MemberType)
  }

  /** The advisor's row: role and type 指导老师, no major, student id or tech stack, the introduction as desc. */
  function AdvisorRow(a: AdvisorEntry): MemberInfo {
    MemberInfo(
      Trim(ValueOf(a.values, "name")), AdvisorType, Trim(ValueOf(a.values, "school")),
      Trim(ValueOf(a.values, "department")), "", Trim(ValueOf(a.values, "phone")),
      Trim(ValueOf(a.values, "email")), "", AdvisorType, "", Trim(ValueOf(a.values, "intro")))
  }

  /** What getFormData returns for a page: the team, one row per member item in document order, then the advisor. */
  function FormDataOf(team: map<string, string>, ms: seq<MemberEntry>, advisor: Option<AdvisorEntry>): FormData {
    FormData(
      TeamInfoOf(team),
      seq(|ms|, j requires 0 <= j < |ms| => MemberRow(ms, j)) +
      (if advisor.Some? then [AdvisorRow(advisor.value)] else []))
  }

  class RegistrationPage {
    var team: map<string, string>
    var teamErrors: map<string, string>
    var members: seq<MemberEntry>
    var advisor: Option<AdvisorEntry>
    var memberCount: int
    var advisorCount: int
    var notices: seq<Notice>

    predicate Valid()
      reads this
    {
      1 <= |members| <= MaxMembers && memberCount == |members| &&
      (forall i :: 0 <= i < |members| ==> members[i].title == i + 1) &&
      AtMostOneCaptain(members) &&
      advisorCount == (if advisor.Some? then 1 else 0) &&
      TeamElementsPresent(team) && MemberElementsPresent(members)
    }

    /** The page as loaded: one member with index 0, expanded, its box as the page's markup sets it; no advisor. */
    constructor (captainChecked: bool)
      ensures Valid()
      ensures team == Blank(TeamInputs) && teamErrors == Blank(TeamErrorSlots)
      ensures members == [NewMember(0, 1).(captain := captainChecked)]
      ensures advisor == None && memberCount == 1 && advisorCount == 0 && notices == []
      ensures !Passes(TeamRules, team) && !Passes(MemberRules, members[0].values)
    {
      team := Blank(TeamInputs);
      teamErrors := Blank(TeamErrorSlots);
      members := [NewMember(0, 1).(captain := captainChecked)];
      advisor := None;
      memberCount := 1;
      advisorCount := 0;
      notices := [];
      LoadedPageFails();
    }

    /**
     * addMember: refused with a toast when five `.member-item`s exist;
     * otherwise memberCount grows and one entry with index memberCount - 1
     * is appended, titled memberCount, expanded.
     */
    method AddMember()
      requires Valid()
      modifies this
      ensures Valid()
      ensures old(|members|) >= MaxMembers ==>
                members == old(members) && memberCount == old(memberCount) && notices == old(notices) + [MemberLimit]
      ensures old(|members|) < MaxMembers ==>
                memberCount == old(memberCount) + 1 &&
                members == old(members) + [NewMember(memberCount - 1, memberCount)] &&
                notices == old(notices)
      ensures team == old(team) && teamErrors == old(teamErrors)
      ensures advisor == old(advisor) && advisorCount == old(advisorCount)
    {
      if |members| >= MaxMembers {
        notices := notices + [MemberLimit];
        return;
      }
      memberCount := memberCount + 1;
      var memberIndex := memberCount - 1;
      members := members + [NewMember(memberIndex, memberCount)];
    }

    /**
     * removeMember(index): refused with a toast while memberCount <= 1;
     * otherwise the first entry carrying index (if any) is removed, the
     * titles are renumbered 1..n and memberCount drops by one.
     */
    method RemoveMember(index: int)
      requires Valid()
      modifies this
      ensures Valid()
      ensures old(memberCount) <= 1 ==>
                members == old(members) && memberCount == old(memberCount) && notices == old(notices) + [KeepOneMember]
      ensures old(memberCount) > 1 && FirstPos(old(members), index).None? ==>
                members == old(members) && memberCount == old(memberCount) && notices == old(notices)
      ensures old(memberCount) > 1 && FirstPos(old(members), index).Some? ==>
                members == RemoveAt(old(members), FirstPos(old(members), index).value) &&
                memberCount == old(memberCount) - 1 && notices == old(notices)
      ensures team == old(team) && teamErrors == old(teamErrors)
      ensures advisor == old(advisor) && advisorCount == old(advisorCount)
    {
      if memberCount <= 1 {
        notices := notices + [KeepOneMember];
        return;
      }
      var found := FirstPos(members, index);
      if found.Some? {
        var p := found.value;
        RemoveAtValid(members, p);
        members := RenumberTitles(members[..p] + members[p + 1..]);
        memberCount := memberCount - 1;
      }
    }

    /** The change handler of the captain box of entry pos. */
    method ClickCaptain(pos: nat)
      requires Valid() && pos < |members|
      modifies this
      ensures Valid()
      ensures members == AfterCaptainClick(old(members), pos)
      ensures team == old(team) && teamErrors == old(teamErrors) && advisor == old(advisor)
      ensures memberCount == old(memberCount) && advisorCount == old(advisorCount) && notices == old(notices)
    {
      ghost var ms := members;
      members := members[pos := members[pos].(captain := !members[pos].captain)];
      if members[pos].captain {
        var i := 0;
        while i < |members|
          invariant 0 <= i <= |members| == |ms|
          invariant team == old(team) && teamErrors == old(teamErrors) && advisor == old(advisor)
          invariant memberCount == old(memberCount) && advisorCount == old(advisorCount) && notices == old(notices)
          invariant members[pos] == ms[pos].(captain := true)
          invariant forall j :: 0 <= j < |ms| && j != pos ==>
                      members[j] == if j < i then ms[j].(captain := false) else ms[j]
        {
          if i != pos {
            members := members[i := members[i].(captain := false)];
          }
          i := i + 1;
        }
      }
      AfterCaptainClickKeepsOne(ms, pos);
    }

    /**
     * A click on a fold button carrying index, which calls
     * toggleMember(index): the content of the first entry carrying index is
     * shown or hidden, whichever entry's button was clicked. With no button
     * left for index there is nothing to click, and nothing changes.
     */
    method ToggleMember(index: int)
      requires Valid()
      modifies this
      ensures Valid()
      ensures !FoldButton(old(members), index) ==> members == old(members)
      ensures FoldButton(old(members), index) ==>
                FirstPos(old(members), index).Some? &&
                var p := FirstPos(old(members), index).value;
                members == old(members)[p := old(members)[p].(expanded := !old(members)[p].expanded)]
      ensures team == old(team) && teamErrors == old(teamErrors) && advisor == old(advisor)
      ensures memberCount == old(memberCount) && advisorCount == old(advisorCount) && notices == old(notices)
    {
      if !FoldButton(members, index) {
        return;
      }
      var found := FirstPos(members, index);
      if found.Some? {
        var p := found.value;
        members := members[p := members[p].(expanded := !members[p].expanded)];
      }
    }

    /** addAdvisor: refused with a toast when advisorCount >= 1; otherwise an empty, expanded advisor entry appears. */
    method AddAdvisor()
      requires Valid()
      modifies this
      ensures Valid()
      ensures old(advisorCount) >= 1 ==> advisor == old(advisor) && advisorCount == old(advisorCount) && notices == old(notices) + [AdvisorLimit]
      ensures old(advisorCount) < 1 ==>
                advisor == Some(AdvisorEntry(Blank(AdvisorInputs), Blank(AdvisorInputs), true)) &&
                advisorCount == 1 && notices == old(notices)
      ensures team == old(team) && teamErrors == old(teamErrors)
      ensures members == old(members) && memberCount == old(memberCount)
    {
      if advisorCount >= 1 {
        notices := notices + [AdvisorLimit];
        return;
      }
      advisorCount := advisorCount + 1;
      advisor := Some(AdvisorEntry(Blank(AdvisorInputs), Blank(AdvisorInputs), true));
    }

    /** removeAdvisor(index): only the entry with data-advisor-index 0 exists; removing it resets advisorCount to 0. */
    method RemoveAdvisor(index: int)
      requires Valid()
      modifies this
      ensures Valid()
      ensures index == 0 && old(advisor).Some? ==> advisor == None && advisorCount == 0
      ensures !(index == 0 && old(advisor).Some?) ==> advisor == old(advisor) && advisorCount == old(advisorCount)
      ensures team == old(team) && teamErrors == old(teamErrors) && members == old(members)
      ensures memberCount == old(memberCount) && notices == old(notices)
    {
      if index == 0 && advisor.Some? {
        advisor := None;
        advisorCount := 0;
      }
    }

    /** toggleAdvisor(index): the advisor content is shown or hidden; any other index reaches no element. */
    method ToggleAdvisor(index: int)
      requires Valid()
      modifies this
      ensures Valid()
      ensures index == 0 && old(advisor).Some? ==>
                advisor == Some(old(advisor).value.(expanded := !old(advisor).value.expanded))
      ensures !(index == 0 && old(advisor).Some?) ==> advisor == old(advisor)
      ensures team == old(team) && teamErrors == old(teamErrors) && members == old(members)
      ensures memberCount == old(memberCount) && advisorCount == old(advisorCount) && notices == old(notices)
    {
      if index == 0 && advisor.Some? {
        var a := advisor.value;
        advisor := Some(a.(expanded := !a.expanded));
      }
    }

    /**
     * validateField(fieldName, value): a name without a rule is valid and
     * touches nothing; otherwise the verdict of the rule on value as given
     * (not trimmed) is returned and written to the field's error element.
     */
    method ValidateField(fieldName: string, value: string) returns (ok: bool)
      requires Valid()
      modifies this
      ensures Valid()
      ensures Lookup(TeamRules, fieldName).None? ==> ok && teamErrors == old(teamErrors)
      ensures Lookup(TeamRules, fieldName).Some? ==>
                var rule := Lookup(TeamRules, fieldName).value;
                (ok <==> Accepts(rule.check, value)) &&
                teamErrors == if fieldName in old(teamErrors) then old(teamErrors)[fieldName := if ok then "" else rule.message]
                              else old(teamErrors)
      ensures team == old(team) && members == old(members) && advisor == old(advisor)
      ensures memberCount == old(memberCount) && advisorCount == old(advisorCount) && notices == old(notices)
    {
      var found := Lookup(TeamRules, fieldName);
      if found.None? {
        return true;
      }
      var rule := found.value;
      ok := Accepts(rule.check, value);
      if fieldName in teamErrors {
        teamErrors := teamErrors[fieldName := if ok then "" else rule.message];
      }
    }

    /**
     * validateMember(index): with no entry carrying index the member counts
     * as valid; otherwise the member rules run over the first such entry
     * (only rules whose `member-<field>-<index>` element exists).
     */
    method ValidateMember(index: int) returns (ok: bool)
      requires Valid()
      modifies this
      ensures Valid()
      ensures FirstPos(old(members), index).None? ==> ok && members == old(members)
      ensures FirstPos(old(members), index).Some? ==>
                var p := FirstPos(old(members), index).value;
                (ok <==> Passes(MemberRules, old(members)[p].values)) &&
                members == old(members)[p := CheckedMember(MemberRules, old(members)[p])]
      ensures team == old(team) && teamErrors == old(teamErrors) && advisor == old(advisor)
      ensures memberCount == old(memberCount) && advisorCount == old(advisorCount) && notices == old(notices)
    {
      var found := FirstPos(members, index);
      if found.None? {
        return true;
      }
      var p := found.value;
      var m;
      ok, m := CheckMember(MemberRules, members[p]);
      ReplaceEntry(members, p, m);
      members := members[p := m];
    }

    /** validateAdvisor(index): the advisor rules over advisor-<field>-0; any other index reaches no element and counts as valid. */
    method ValidateAdvisor(index: int) returns (ok: bool)
      requires Valid()
      modifies this
      ensures Valid()
      ensures index == 0 && old(advisor).Some? ==>
                (ok <==> Passes(AdvisorRules, old(advisor).value.values)) &&
                advisor == Some(CheckedAdvisor(old(advisor).value))
      ensures !(index == 0 && old(advisor).Some?) ==> ok && advisor == old(advisor)
      ensures team == old(team) && teamErrors == old(teamErrors) && members == old(members)
      ensures memberCount == old(memberCount) && advisorCount == old(advisorCount) && notices == old(notices)
    {
      if !(index == 0 && advisor.Some?) {
        return true;
      }
      var a;
      ok, a := CheckAdvisor(advisor.value);
      advisor := Some(a);
    }

    /** The user edits a team input: an input event runs validateField on the new value for the fields that have a rule. */
    method EnterTeamValue(id: string, value: string)
      requires Valid()
      modifies this
      ensures Valid()
      ensures id in old(team) ==> team == old(team)[id := value]
      ensures id !in old(team) ==> team == old(team)
      ensures id in old(team) && Lookup(TeamRules, id).Some? && id in old(teamErrors) ==>
                teamErrors == old(teamErrors)[id := if Accepts(Lookup(TeamRules, id).value.check, value) then ""
                                                   else Lookup(TeamRules, id).value.message]
      ensures !(id in old(team) && Lookup(TeamRules, id).Some? && id in old(teamErrors)) ==> teamErrors == old(teamErrors)
      ensures members == old(members) && advisor == old(advisor)
      ensures memberCount == old(memberCount) && advisorCount == old(advisorCount) && notices == old(notices)
    {
      if id in team {
        team := team[id := value];
        var _ := ValidateField(id, value);
      }
    }

    /** The user edits an input of the entry at position pos of the document. */
    method EnterMemberValue(pos: nat, stem: string, value: string)
      requires Valid() && pos < |members|
      modifies this
      ensures Valid()
      ensures stem in old(members)[pos].values ==>
                members == old(members)[pos := old(members)[pos].(values := old(members)[pos].values[stem := value])]
      ensures stem !in old(members)[pos].values ==> members == old(members)
      ensures team == old(team) && teamErrors == old(teamErrors) && advisor == old(advisor)
      ensures memberCount == old(memberCount) && advisorCount == old(advisorCount) && notices == old(notices)
    {
      if stem in members[pos].values {
        var m := members[pos].(values := members[pos].values[stem := value]);
        ReplaceEntry(members, pos, m);
        members := members[pos := m];
      }
    }

    /** The user edits an input of the advisor entry. */
    method EnterAdvisorValue(stem: string, value: string)
      requires Valid()
      modifies this
      ensures Valid()
      ensures old(advisor).Some? && stem in old(advisor).value.values ==>
                advisor == Some(old(advisor).value.(values := old(advisor).value.values[stem := value]))
      ensures !(old(advisor).Some? && stem in old(advisor).value.values) ==> advisor == old(advisor)
      ensures team == old(team) && teamErrors == old(teamErrors) && members == old(members)
      ensures memberCount == old(memberCount) && advisorCount == old(advisorCount) && notices == old(notices)
    {
      if advisor.Some? && stem in advisor.value.values {
        var a := advisor.value;
        advisor := Some(a.(values := a.values[stem := value]));
      }
    }

    /**
     * getFormData: the team values, then for each `.member-item` in
     * document order a row typed by its own captain box and filled from the
     * inputs getElementById reaches for its index, then the advisor's row.
     */
    method GetFormData() returns (data: FormData)
      ensures data == FormDataOf(team, members, advisor)
    {
      var rows := MemberRows(members);
      if advisor.Some? {
        rows := rows + [AdvisorRow(advisor.value)];
      }
      data := FormData(TeamInfoOf(team), rows);
    }

    /**
     * validateForm: every check runs, none short-circuits: the team rules
     * on the trimmed values, validateMember for each entry's index, the
     * captain boxes, the advisor, and the headcount.
     */
    method ValidateForm() returns (ok: bool)
      requires Valid()
      modifies this
      ensures Valid()
      ensures ok <==> FormPasses(old(team), old(members), old(advisor))
      ensures teamErrors == ErrorsAfter(TeamRules, old(team), old(teamErrors))
      ensures members == CheckedMembers(MemberRules, old(members))
      ensures advisor == if old(advisor).Some? then Some(CheckedAdvisor(old(advisor).value)) else None
      ensures notices == old(notices) + if HasCaptain(old(members)) then [] else [CaptainRequired]
      ensures team == old(team) && memberCount == old(memberCount) && advisorCount == old(advisorCount)
    {
      var ms := members;
      var shown, checked, checkedAdvisor, raised;
      ok, shown, checked, checkedAdvisor, raised := CheckForm(team, teamErrors, ms, advisor);
      CheckedMembersShape(MemberRules, ms);
      teamErrors, members, advisor, notices := shown, checked, checkedAdvisor, notices + raised;
    }
  }

  /**
   * The body of validateForm over the roster's values: the team rules, the
   * member loop, the captain loop, the advisor and the headcount, each run
   * whatever the earlier ones found. `raised` holds the toasts it shows.
   */
  method CheckForm(team: map<string, string>, teamErrors: map<string, string>,
                   ms: seq<MemberEntry>, advisor: Option<AdvisorEntry>)
    returns (ok: bool, shown: map<string, string>, checked: seq<MemberEntry>,
             checkedAdvisor: Option<AdvisorEntry>, raised: seq<Notice>)
    requires 1 <= |ms| <= MaxMembers
    ensures ok <==> FormPasses(team, ms, advisor)
    ensures shown == ErrorsAfter(TeamRules, team, teamErrors)
    ensures checked == CheckedMembers(MemberRules, ms)
    ensures checkedAdvisor == if advisor.Some? then Some(CheckedAdvisor(advisor.value)) else None
    ensures raised == if HasCaptain(ms) then [] else [CaptainRequired]
  {
    var teamOk;
    teamOk, shown := ApplyRules(TeamRules, team, teamErrors);
    ok := teamOk;

    var membersOk, counted;
    membersOk, counted, checked := CheckAllMembers(MemberRules, ms);
    ok := ok && membersOk;

    raised := [];
    var hasCaptain := FindCaptain(checked);
    CheckedMembersCaptains(MemberRules, ms);
    if !hasCaptain {
      raised := raised + [CaptainRequired];
      ok := false;
    }

    var advisorsCounted := 0;
    checkedAdvisor := advisor;
    if advisor.Some? {
      advisorsCounted := advisorsCounted + 1;
      var advisorOk, a := CheckAdvisor(advisor.value);
      checkedAdvisor := Some(a);
      if !advisorOk {
        ok := false;
      }
    }

    var total := counted + advisorsCounted;
    if total > MaxHeadcount {
      raised := raised + [HeadcountLimit];
      ok := false;
    }
  }

  /** The member loop of getFormData: one row per `.member-item`, in document order. */
  method MemberRows(ms: seq<MemberEntry>) returns (rows: seq<MemberInfo>)
    ensures rows == seq(|ms|, j requires 0 <= j < |ms| => MemberRow(ms, j))
  {
    rows := [];
    var i := 0;
    while i < |ms|
      invariant 0 <= i <= |ms|
      invariant |rows| == i && forall j :: 0 <= j < i ==> rows[j] == MemberRow(ms, j)
    {
      var row := RowOf(ms, i);
      rows := rows + [row];
      i := i + 1;
    }
  }

  /** One pass of the member loop: the type from the entry's own box, the inputs from the entry its index reaches. */
  method RowOf(ms: seq<MemberEntry>, i: nat) returns (row: MemberInfo)
    requires i < |ms|
    ensures row == MemberRow(ms, i)
  {
    var memberType := MemberType;
    if ms[i].captain {
      memberType := CaptainType;
    }
    var reached := Reached(ms, i);
    row := MemberInfoOf(reached.values, memberType);
  }

  /** The loop of validateMember over one entry's inputs and error elements. */
  method CheckMember(rules: RuleTable, m: MemberEntry) returns (ok: bool, checked: MemberEntry)
    ensures ok <==> Passes(rules, m.values)
    ensures checked == CheckedMember(rules, m)
  {
    var shown;
    ok, shown := ApplyRules(rules, m.values, m.errors);
    checked := m.(errors := shown);
  }

  /** The loop of validateAdvisor over the advisor's inputs and error elements. */
  method CheckAdvisor(a: AdvisorEntry) returns (ok: bool, checked: AdvisorEntry)
    ensures ok <==> Passes(AdvisorRules, a.values)
    ensures checked == CheckedAdvisor(a)
  {
    var shown;
    ok, shown := ApplyRules(AdvisorRules, a.values, a.errors);
    checked := a.(errors := shown);
  }

  /**
   * The member loop of validateForm: for each `.member-item` in document
   * order, validateMember on its index, which reaches the first entry
   * carrying that index; every item is counted.
   */
  method CheckAllMembers(rules: RuleTable, ms: seq<MemberEntry>) returns (ok: bool, counted: nat, checked: seq<MemberEntry>)
    ensures ok <==> ReachablePass(rules, ms)
    ensures counted == |ms|
    ensures checked == CheckedMembers(rules, ms)
  {
    ok, counted, checked := true, 0, ms;
    var i := 0;
    while i < |ms|
      invariant 0 <= i <= |ms| && counted == i
      invariant checked == CheckedUpTo(rules, ms, i)
      invariant ok <==> PassUpTo(rules, ms, i)
    {
      var memberIndex := ms[i].index;
      CheckedUpToIndices(rules, ms, i, memberIndex);
      var p := FirstPos(checked, memberIndex).value;
      counted := counted + 1;
      var memberOk, m := CheckMember(rules, checked[p]);
      if !memberOk {
        ok := false;
      }
      CheckedUpToStep(rules, ms, i, p);
      PassUpToStep(rules, ms, i, p);
      checked := checked[p := m];
      i := i + 1;
    }
    assert CheckedUpTo(rules, ms, |ms|) == CheckedMembers(rules, ms);
  }

  /** The roster once the member loop of validateForm has handled the first i items. */
  function CheckedUpTo(rules: RuleTable, ms: seq<MemberEntry>, i: nat): (r: seq<MemberEntry>) {
    seq(|ms|, j requires 0 <= j < |ms| => if j < i && IsFirst(ms, j) then CheckedMember(rules, ms[j]) else ms[j])
  }

  /** Every entry among the first i that a lookup reaches passes the member rules. */
  predicate PassUpTo(rules: RuleTable, ms: seq<MemberEntry>, i: nat) {
    forall j :: 0 <= j < i && j < |ms| && IsFirst(ms, j) ==> Passes(rules, ms[j].values)
  }

  /** Checking error texts leaves the indices, so a lookup by index finds the same entry. */
  lemma CheckedUpToIndices(rules: RuleTable, ms: seq<MemberEntry>, i: nat, idx: int)
    requires i < |ms| && idx == ms[i].index
    ensures FirstPos(CheckedUpTo(rules, ms, i), idx) == FirstPos(ms, idx)
    ensures FirstPos(ms, idx).Some? && FirstPos(ms, idx).value <= i
  {
    FirstPosSameIndices(CheckedUpTo(rules, ms, i), ms, idx);
  }

  /**
   * Item i of the member loop validates the first entry p carrying its
   * index: p == i when item i is that entry, and otherwise p < i was
   * validated already and validating it again changes nothing.
   */
  lemma CheckedUpToStep(rules: RuleTable, ms: seq<MemberEntry>, i: nat, p: nat)
    requires i < |ms| && FirstPos(ms, ms[i].index) == Some(p)
    ensures var c := CheckedUpTo(rules, ms, i);
            p <= i && CheckedUpTo(rules, ms, i + 1) == c[p := CheckedMember(rules, c[p])]
  {
    var c := CheckedUpTo(rules, ms, i);
    var d := CheckedUpTo(rules, ms, i + 1);
    assert p == i <==> IsFirst(ms, i);
    if p < i {
      assert IsFirst(ms, p);
      CheckedMemberIdempotent(rules, ms[p]);
    }
    forall j | 0 <= j < |ms| ensures d[j] == c[p := CheckedMember(rules, c[p])][j] {
      if j != p && j != i {
        assert d[j] == c[j];
      }
    }
  }

  lemma PassUpToStep(rules: RuleTable, ms: seq<MemberEntry>, i: nat, p: nat)
    requires i < |ms| && FirstPos(ms, ms[i].index) == Some(p)
    ensures PassUpTo(rules, ms, i + 1) <==> PassUpTo(rules, ms, i) && Passes(rules, ms[p].values)
  {
    assert p == i <==> IsFirst(ms, i);
    if p < i {
      assert IsFirst(ms, p);
    }
  }

  /** A page as loaded, with every input empty, fails the team rules and the member rules. */
  lemma LoadedPageFails()
    ensures !Passes(TeamRules, Blank(TeamInputs))
    ensures !Passes(MemberRules, Blank(MemberInputs))
  {
    assert Trim("") == "";
    PassesMeaning(TeamRules, Blank(TeamInputs));
    assert !EntryPasses(TeamRules[0], Blank(TeamInputs));
    PassesMeaning(MemberRules, Blank(MemberInputs));
    assert !EntryPasses(MemberRules[0], Blank(MemberInputs));
  }

  lemma CheckedMemberIdempotent(rules: RuleTable, m: MemberEntry)
    ensures CheckedMember(rules, CheckedMember(rules, m)) == CheckedMember(rules, m)
  {
    ErrorsAfterIdempotent(rules, m.values, m.errors);
  }


  /** The captain loop of validateForm: is any box checked? */
  method FindCaptain(ms: seq<MemberEntry>) returns (found: bool)
    ensures found <==> HasCaptain(ms)
  {
    found := false;
    var i := 0;
    while i < |ms|
      invariant 0 <= i <= |ms|
      invariant found <==> exists j :: 0 <= j < i && ms[j].captain
    {
      if ms[i].captain {
        found := true;
      }
      i := i + 1;
    }
  }

  /** The loop of removeMember that rewrites every remaining title to `成员 i+1`. */
  method RenumberTitles(ms: seq<MemberEntry>) returns (r: seq<MemberEntry>)
    ensures r == Renumbered(ms)
  {
    r := ms;
    var i := 0;
    while i < |r|
      invariant 0 <= i <= |r| == |ms|
      invariant forall j :: 0 <= j < i ==> r[j] == ms[j].(title := j + 1, foldable := false)
      invariant forall j :: i <= j < |r| ==> r[j] == ms[j]
    {
      r := r[i := r[i].(title := i + 1, foldable := false)];
      i := i + 1;
    }
  }

  /** Checking the members changes only error texts, so a valid roster stays valid. */
  lemma CheckedMembersShape(rules: RuleTable, ms: seq<MemberEntry>)
    requires forall i :: 0 <= i < |ms| ==> ms[i].title == i + 1
    requires AtMostOneCaptain(ms)
    requires MemberElementsPresent(ms)
    ensures var r := CheckedMembers(rules, ms);
            |r| == |ms| &&
            (forall i :: 0 <= i < |r| ==> r[i].title == i + 1) && AtMostOneCaptain(r) &&
            MemberElementsPresent(r)
  {
    var r := CheckedMembers(rules, ms);
    assert forall i :: 0 <= i < |r| ==> r[i].title == ms[i].title && r[i].captain == ms[i].captain &&
                                        r[i].values == ms[i].values;
  }

  /** Removing an entry of a valid roster keeps the titles 1..n, the input keys and the single captain. */
  lemma RemoveAtValid(ms: seq<MemberEntry>, p: nat)
    requires p < |ms|
    requires AtMostOneCaptain(ms)
    requires MemberElementsPresent(ms)
    ensures var r := RemoveAt(ms, p);
            (forall i :: 0 <= i < |r| ==> r[i].title == i + 1) && AtMostOneCaptain(r) &&
            MemberElementsPresent(r)
  {
    var r := RemoveAt(ms, p);
    forall i | 0 <= i < |r| ensures MemberInputs <= r[i].values.Keys {
      var i' := if i < p then i else i + 1;
      assert r[i].values == ms[i'].values;
    }
    forall i, j | 0 <= i < |r| && 0 <= j < |r| && r[i].captain && r[j].captain
      ensures i == j
    {
      var i' := if i < p then i else i + 1;
      var j' := if j < p then j else j + 1;
      assert r[i].captain == ms[i'].captain && r[j].captain == ms[j'].captain;
    }
  }

  /**
   * After a removal no entry keeps its fold button: every later click on a
   * fold button comes from an entry added since, and the entries the removal
   * left can be shown or hidden only through such an entry sharing their index.
   */
  lemma RemovalDropsFoldButtons(ms: seq<MemberEntry>, p: nat, idx: int)
    requires p < |ms|
    ensures !FoldButton(RemoveAt(ms, p), idx)
    ensures FoldButton(RemoveAt(ms, p) + [NewMember(idx, |ms|)], idx)
  {
    var r := RemoveAt(ms, p);
    assert forall j :: 0 <= j < |r| ==> !r[j].foldable;
    var added := r + [NewMember(idx, |ms|)];
    assert added[|r|].index == idx && added[|r|].foldable;
  }

  /** Replacing an entry by one with the same title, captain box and input keys keeps a roster's shape. */
  lemma ReplaceEntry(ms: seq<MemberEntry>, p: nat, m: MemberEntry)
    requires p < |ms| && m.title == ms[p].title && m.captain == ms[p].captain
    requires forall i :: 0 <= i < |ms| ==> ms[i].title == i + 1
    requires AtMostOneCaptain(ms)
    ensures var r := ms[p := m];
            (forall i :: 0 <= i < |r| ==> r[i].title == i + 1) && AtMostOneCaptain(r)
  {
  }

  lemma AfterCaptainClickKeepsOne(ms: seq<MemberEntry>, pos: nat)
    requires pos < |ms| && AtMostOneCaptain(ms)
    ensures AtMostOneCaptain(AfterCaptainClick(ms, pos))
  {
  }

  /** FirstPos reads nothing but the indices. */
  lemma {:induction false} FirstPosSameIndices(a: seq<MemberEntry>, b: seq<MemberEntry>, idx: int)
    requires |a| == |b| && forall j :: 0 <= j < |a| ==> a[j].index == b[j].index
    ensures FirstPos(a, idx) == FirstPos(b, idx)
  {
    if a != [] {
      FirstPosSameIndices(a[1..], b[1..], idx);
    }
  }

  lemma CheckedMembersCaptains(rules: RuleTable, ms: seq<MemberEntry>)
    ensures HasCaptain(CheckedMembers(rules, ms)) <==> HasCaptain(ms)
  {
    var r := CheckedMembers(rules, ms);
    if HasCaptain(ms) {
      var i :| 0 <= i < |ms| && ms[i].captain;
      assert r[i].captain;
    }
  }

  /**
   * The shape of the members array getFormData sends: one row per member
   * item, typed 队长 exactly when its own box is checked and 队员
   * otherwise, then the advisor's row, typed and roled 指导老师, with no
   * major, student id or tech stack and the introduction as desc.
   */
  lemma FormDataLayout(team: map<string, string>, ms: seq<MemberEntry>, advisor: Option<AdvisorEntry>)
    ensures var rows := FormDataOf(team, ms, advisor).members;
            |rows| == |ms| + (if advisor.Some? then 1 else 0) &&
            (forall j :: 0 <= j < |ms| ==>
               (rows[j].memberType == CaptainType <==> ms[j].captain) &&
               (rows[j].memberType == MemberType <==> !ms[j].captain) &&
               rows[j].desc == "") &&
            (advisor.Some? ==>
               var a := rows[|ms|];
               a.memberType == AdvisorType && a.role == AdvisorType &&
               a.majorGrade == "" && a.studentId == "" && a.techStack == "" &&
               a.desc == Trim(ValueOf(advisor.value.values, "intro")))
  {
    var rows := FormDataOf(team, ms, advisor).members;
    forall j | 0 <= j < |ms|
      ensures (rows[j].memberType == CaptainType <==> ms[j].captain) &&
              (rows[j].memberType == MemberType <==> !ms[j].captain) && rows[j].desc == ""
    {
      assert rows[j] == MemberRow(ms, j);
    }
  }

  /**
   * Row j carries the inputs of the first entry sharing its index: only
   * its type is its own. An entry that is the first with its index sends
   * its own inputs.
   */
  lemma FormDataFollowsReached(team: map<string, string>, ms: seq<MemberEntry>, advisor: Option<AdvisorEntry>, j: nat)
    requires j < |ms|
    ensures FirstPos(ms, ms[j].index).Some?
    ensures var rows := FormDataOf(team, ms, advisor).members;
            var p := FirstPos(ms, ms[j].index).value;
            p <= j && rows[j] == rows[p].(memberType := rows[j].memberType)
    ensures IsFirst(ms, j) ==>
              FormDataOf(team, ms, advisor).members[j] ==
              MemberInfoOf(ms[j].values, FormDataOf(team, ms, advisor).members[j].memberType)
  {
    var rows := FormDataOf(team, ms, advisor).members;
    var p := FirstPos(ms, ms[j].index).value;
    assert rows[j] == MemberRow(ms, j) && rows[p] == MemberRow(ms, p);
    assert FirstPos(ms, ms[p].index) == Some(p);
  }

  /**
   * addMember after a removal reuses an index: load the page, add two
   * members, remove the second, add one. The new entry carries the same
   * index as the one before it, lookups by that index never reach it, and
   * getFormData sends the earlier entry's inputs twice.
   */
  method IndexCollision() returns (page: RegistrationPage)
    ensures page.Valid() && |page.members| == 3
    ensures page.members[1].index == 2 && page.members[2].index == 2
    ensures !IsFirst(page.members, 2)
    ensures MemberRow(page.members, 2) == MemberRow(page.members, 1)
  {
    page := new RegistrationPage(true);
    page.AddMember();
    page.AddMember();
    assert FirstPos(page.members, 1) == Some(1);
    page.RemoveMember(1);
    page.AddMember();
    assert FirstPos(page.members, 2) == Some(1);
  }

  /** No two entries carry the same data-member-index. */
  predicate DistinctIndices(ms: seq<MemberEntry>) {
    forall i, j :: 0 <= i < j < |ms| ==> ms[i].index != ms[j].index
  }

  /** An index above every index in use: what addMember should give a new entry. */
  function FreshIndex(ms: seq<MemberEntry>): (r: int)
    ensures forall j :: 0 <= j < |ms| ==> ms[j].index < r
  {
    if ms == [] then 0
    else
      var rest := FreshIndex(ms[1..]);
      assert forall j :: 1 <= j < |ms| ==> ms[j] == ms[1..][j - 1];
      if ms[0].index < rest then rest else ms[0].index + 1
  }

  /** Adding an entry with a fresh index keeps the indices distinct. */
  lemma FreshIndexKeepsDistinct(ms: seq<MemberEntry>)
    requires DistinctIndices(ms)
    ensures DistinctIndices(ms + [NewMember(FreshIndex(ms), |ms| + 1)])
  {
    var n := NewMember(FreshIndex(ms), |ms| + 1);
    var r := ms + [n];
    assert n.index == FreshIndex(ms);
    forall i, j | 0 <= i < j < |r| ensures r[i].index != r[j].index {
      assert r[i] == ms[i];
      if j == |ms| {
        assert r[j] == n;
      } else {
        assert r[j] == ms[j];
      }
    }
  }

  /** Removing an entry keeps the indices distinct. */
  lemma RemoveKeepsDistinct(ms: seq<MemberEntry>, p: nat)
    requires DistinctIndices(ms) && p < |ms|
    ensures DistinctIndices(RemoveAt(ms, p))
  {
    var r := RemoveAt(ms, p);
    forall i, j | 0 <= i < j < |r| ensures r[i].index != r[j].index {
      var i' := if i < p then i else i + 1;
      var j' := if j < p then j else j + 1;
      assert r[i].index == ms[i'].index && r[j].index == ms[j'].index;
    }
  }

  /** With distinct indices every entry is the one its index reaches, so getFormData sends each entry's own inputs. */
  lemma DistinctIndicesReachSelf(team: map<string, string>, ms: seq<MemberEntry>, advisor: Option<AdvisorEntry>, j: nat)
    requires DistinctIndices(ms) && j < |ms|
    ensures IsFirst(ms, j)
    ensures FormDataOf(team, ms, advisor).members[j] ==
            MemberInfoOf(ms[j].values, FormDataOf(team, ms, advisor).members[j].memberType)
  {
    FormDataFollowsReached(team, ms, advisor, j);
  }
}
