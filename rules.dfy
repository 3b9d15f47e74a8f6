/**
 * The client's declarative validator tables (validationRules,
 * memberValidationRules, advisorValidationRules): each entry pairs a field
 * name with what its validator tests and the message shown when it fails.
 */
module Rules {
  import opened Wrappers
  import opened Text
  import opened Pattern

  /** What a validator function tests of the value it is given. */
  datatype Check =
    | MinTrimmed(n: nat)               // value.trim().length is at least n
    | NonEmpty                         // value !== ''
    | OptionalLength(lo: nat, hi: nat) // blank, or lo <= value.length <= hi
    | Regex(p: seq<Piece>)             // the anchored pattern matches value

  datatype Rule = Rule(check: Check, message: string)

  /** A rule table in declaration order, keyed by field name. */
  type RuleTable = seq<(string, Rule)>

  predicate Accepts(c: Check, v: string) {
    match c
    case MinTrimmed(n) => |Trim(v)| >= n
    case NonEmpty => v != ""
    case OptionalLength(lo, hi) => Trim(v) == "" || lo <= |v| <= hi
    case Regex(p) => Matches(p, v)
  }

  const TextMin := 200
  const TextMax := 500

  const TeamRules: RuleTable := [
    ("team-name", Rule(MinTrimmed(1), "请填写团队名称")),
    ("competition-track", Rule(NonEmpty, "请选择参赛赛道")),
    ("project-name", Rule(MinTrimmed(1), "请填写作品名称")),
    ("costrict-uid", Rule(MinTrimmed(1), "请填写CoStrict 用户ID")),
    ("project-intro", Rule(OptionalLength(TextMin, TextMax), "项目简介长度必须在200-500字之间")),
    ("tech-solution", Rule(OptionalLength(TextMin, TextMax), "技术方案长度必须在200-500字之间")),
    ("goals-outlook", Rule(OptionalLength(TextMin, TextMax), "目标与展望长度必须在200-500字之间"))
  ]

  const MemberRules: RuleTable := [
    ("name", Rule(MinTrimmed(2), "姓名至少需要2个字符")),
    ("school", Rule(MinTrimmed(1), "请填写学校/单位")),
    ("department", Rule(MinTrimmed(1), "请填写学院/系别")),
    ("major_grade", Rule(MinTrimmed(1), "请填写专业与年级")),
    ("phone", Rule(Regex(PhonePattern), "请输入有效的11位手机号")),
    ("email", Rule(Regex(EmailPattern), "请输入有效的邮箱地址")),
    ("role", Rule(MinTrimmed(1), "请填写项目角色"))
  ]

  const AdvisorRules: RuleTable := [
    ("name", Rule(MinTrimmed(2), "姓名至少需要2个字符")),
    ("phone", Rule(Regex(PhonePattern), "请输入有效的11位手机号")),
    ("email", Rule(Regex(EmailPattern), "请输入有效的邮箱地址")),
    ("school", Rule(MinTrimmed(1), "请填写学校")),
    ("department", Rule(MinTrimmed(1), "请填写学院"))
  ]

  /** table[name]: the rule of the last entry with that name, if any (a later key overrides an earlier one). */
  function Lookup(t: RuleTable, name: string): (r: Option<Rule>)
    ensures r.None? <==> forall i :: 0 <= i < |t| ==> t[i].0 != name
    ensures r.Some? ==> (name, r.value) in t
  {
    if t == [] then None
    else if t[|t| - 1].0 == name then Some(t[|t| - 1].1)
    else Lookup(t[..|t| - 1], name)
  }

  /**
   * Every rule whose field has an input element accepts that input's trimmed
   * value; `values` maps the input elements present to their contents.
   */
  predicate Passes(t: RuleTable, values: map<string, string>) {
    t == [] || (Passes(t[..|t| - 1], values) && EntryPasses(t[|t| - 1], values))
  }

  /** One rule passes when its field has no input element or the trimmed input satisfies it. */
  predicate EntryPasses(entry: (string, Rule), values: map<string, string>) {
    entry.0 in values ==> Accepts(entry.1.check, Trim(values[entry.0]))
  }

  /** What an error slot shows once the rules have run: its rule's message, cleared, or untouched. */
  function SlotAfter(t: RuleTable, values: map<string, string>, shown: string, name: string): string {
    match Lookup(t, name)
    case None => shown
    case Some(r) =>
      if name !in values then shown
      else if Accepts(r.check, Trim(values[name])) then ""
      else r.message
  }

  /** The error slots after running the rules of t in order over the input values. */
  function ErrorsAfter(t: RuleTable, values: map<string, string>, errors: map<string, string>): map<string, string> {
    if t == [] then errors
    else
      var before := ErrorsAfter(t[..|t| - 1], values, errors);
      var (name, rule) := t[|t| - 1];
      if name in values && name in before then
        before[name := if Accepts(rule.check, Trim(values[name])) then "" else rule.message]
      else before
  }

  /**
   * The loop of validateMember / validateAdvisor / validateForm over a rule
   * table: for each field whose input exists, run the validator on the
   * trimmed value, write or clear its error slot, and remember any failure.
   */
  method ApplyRules(t: RuleTable, values: map<string, string>, errors: map<string, string>)
    returns (ok: bool, shown: map<string, string>)
    ensures ok <==> Passes(t, values)
    ensures shown == ErrorsAfter(t, values, errors)
  {
    ok, shown := true, errors;
    var i := 0;
    while i < |t|
      invariant 0 <= i <= |t|
      invariant ok <==> Passes(t[..i], values)
      invariant shown == ErrorsAfter(t[..i], values, errors)
    {
      var name, rule := t[i].0, t[i].1;
      assert t[..i + 1][..i] == t[..i];
      if name in values {
        var verdict := Accepts(rule.check, Trim(values[name]));
        if !verdict {
          ok := false;
        }
        if name in shown {
          shown := shown[name := if verdict then "" else rule.message];
        }
      }
      i := i + 1;
    }
    assert t[..|t|] == t;
  }

  /** The form passes exactly when every rule whose field has an input element accepts it. */
  lemma {:induction false} PassesMeaning(t: RuleTable, values: map<string, string>)
    ensures Passes(t, values) <==> forall i :: 0 <= i < |t| ==> EntryPasses(t[i], values)
  {
    if t != [] {
      var u := t[..|t| - 1];
      PassesMeaning(u, values);
      assert forall i :: 0 <= i < |u| ==> u[i] == t[i];
    }
  }

  lemma SlotStep(t: RuleTable, i: nat, values: map<string, string>, shown: string, name: string)
    requires i < |t|
    ensures SlotAfter(t[..i + 1], values, shown, name) ==
            if name != t[i].0 || name !in values then SlotAfter(t[..i], values, shown, name)
            else if Accepts(t[i].1.check, Trim(values[name])) then ""
            else t[i].1.message
  {
    assert t[..i + 1][..i] == t[..i];
    assert t[..i + 1][i] == t[i];
  }

  /**
   * After the rules have run, every error slot (and only those) shows what
   * the last rule for its field decided: its message if the trimmed input
   * fails it, nothing if it passes, and what it showed before when the
   * field has no rule or no input.
   */
  lemma {:induction false} ErrorsAfterSlots(t: RuleTable, values: map<string, string>, errors: map<string, string>)
    ensures ErrorsAfter(t, values, errors).Keys == errors.Keys
    ensures forall name :: name in errors ==> ErrorsAfter(t, values, errors)[name] == SlotAfter(t, values, errors[name], name)
  {
    if t != [] {
      var i := |t| - 1;
      assert t[..i + 1] == t;
      ErrorsAfterSlots(t[..i], values, errors);
      forall n | n in errors
        ensures ErrorsAfter(t, values, errors)[n] == SlotAfter(t, values, errors[n], n)
      {
        SlotStep(t, i, values, errors[n], n);
      }
    }
  }

  /** The last entry with a given name is the one a lookup finds. */
  lemma {:induction false} LookupAt(t: RuleTable, i: nat)
    requires i < |t|
    requires forall j :: i < j < |t| ==> t[j].0 != t[i].0
    ensures Lookup(t, t[i].0) == Some(t[i].1)
  {
    if i < |t| - 1 {
      assert t[..|t| - 1][i] == t[i];
      LookupAt(t[..|t| - 1], i);
    }
  }

  /** Running the rules twice leaves the error slots as running them once. */
  lemma ErrorsAfterIdempotent(t: RuleTable, values: map<string, string>, errors: map<string, string>)
    ensures ErrorsAfter(t, values, ErrorsAfter(t, values, errors)) == ErrorsAfter(t, values, errors)
  {
    var once := ErrorsAfter(t, values, errors);
    ErrorsAfterSlots(t, values, errors);
    ErrorsAfterSlots(t, values, once);
  }

  /**
   * The three optional long texts accept a whitespace-only value and
   * otherwise exactly the values of 200 to 500 characters.
   */
  lemma OptionalTextRules(name: string, v: string)
    requires name == "project-intro" || name == "tech-solution" || name == "goals-outlook"
    ensures Lookup(TeamRules, name).Some?
    ensures Accepts(Lookup(TeamRules, name).value.check, v) <==> AllSpace(v) || 200 <= |v| <= 500
  {
    if name == "project-intro" { LookupAt(TeamRules, 4); }
    else if name == "tech-solution" { LookupAt(TeamRules, 5); }
    else { LookupAt(TeamRules, 6); }
    TrimEmptyIffBlank(v);
  }

  /** The required team texts accept exactly the values with a non-whitespace character; the track select only rejects ''. */
  lemma RequiredTeamRules(name: string, v: string)
    requires name == "team-name" || name == "project-name" || name == "costrict-uid"
    ensures Lookup(TeamRules, name).Some?
    ensures Accepts(Lookup(TeamRules, name).value.check, v) <==> !AllSpace(v)
    ensures Lookup(TeamRules, "competition-track").Some?
    ensures Accepts(Lookup(TeamRules, "competition-track").value.check, v) <==> v != ""
  {
    if name == "team-name" { LookupAt(TeamRules, 0); }
    else if name == "project-name" { LookupAt(TeamRules, 2); }
    else { LookupAt(TeamRules, 3); }
    LookupAt(TeamRules, 1);
    TrimEmptyIffBlank(v);
  }

  /** A member's or advisor's name needs at least two characters once trimmed. */
  lemma NameRules(v: string)
    ensures Lookup(MemberRules, "name") == Lookup(AdvisorRules, "name")
    ensures Lookup(MemberRules, "name").Some?
    ensures Accepts(Lookup(MemberRules, "name").value.check, v) <==> |Trim(v)| >= 2
  {
    LookupAt(MemberRules, 0);
    LookupAt(AdvisorRules, 0);
  }

  /** The member and advisor phone rules are the same and accept exactly PhoneShape. */
  lemma PhoneRules(v: string)
    ensures Lookup(MemberRules, "phone") == Lookup(AdvisorRules, "phone")
    ensures Lookup(MemberRules, "phone").Some?
    ensures Accepts(Lookup(MemberRules, "phone").value.check, v) <==> PhoneShape(v)
  {
    LookupAt(MemberRules, 4);
    LookupAt(AdvisorRules, 1);
    PhonePatternMeaning(v);
  }

  /** The member and advisor e-mail rules are the same and accept exactly EmailShape. */
  lemma EmailRules(v: string)
    ensures Lookup(MemberRules, "email") == Lookup(AdvisorRules, "email")
    ensures Lookup(MemberRules, "email").Some?
    ensures Accepts(Lookup(MemberRules, "email").value.check, v) <==> EmailShape(v)
  {
    LookupAt(MemberRules, 5);
    LookupAt(AdvisorRules, 2);
    EmailPatternMeaning(v);
  }

  /** A rule table without an entry for field k neither reads nor depends on k's value. */
  lemma {:induction false} PassesIgnoresUnruled(t: RuleTable, values: map<string, string>, k: string, v: string)
    requires forall i :: 0 <= i < |t| ==> t[i].0 != k
    ensures Passes(t, values[k := v]) <==> Passes(t, values)
  {
    if t != [] {
      PassesIgnoresUnruled(t[..|t| - 1], values, k, v);
    }
  }

  /**
   * The member table keys the major rule `major_grade` while the input is
   * `member-major-grade-<index>`: no rule reaches that input, a member
   * passes whatever its major says, and its error element is never written.
   */
  lemma MajorGradeNeverChecked(values: map<string, string>, errors: map<string, string>, v: string)
    ensures Lookup(MemberRules, "major-grade").None?
    ensures Passes(MemberRules, values["major-grade" := v]) <==> Passes(MemberRules, values)
    ensures ErrorsAfter(MemberRules, values, errors).Keys == errors.Keys
    ensures "major-grade" in errors ==> ErrorsAfter(MemberRules, values, errors)["major-grade"] == errors["major-grade"]
  {
    PassesIgnoresUnruled(MemberRules, values, "major-grade", v);
    ErrorsAfterSlots(MemberRules, values, errors);
  }

  /** The member table with the major rule keyed by the input's id. */
  const CorrectedMemberRules: RuleTable := MemberRules[3 := ("major-grade", MemberRules[3].1)]

  /** With the corrected key a member whose major is blank is refused, and the error element shows the message. */
  lemma CorrectedMajorGradeRequired(values: map<string, string>, errors: map<string, string>)
    requires "major-grade" in values && AllSpace(values["major-grade"])
    ensures !Passes(CorrectedMemberRules, values)
    ensures ErrorsAfter(CorrectedMemberRules, values, errors).Keys == errors.Keys
    ensures "major-grade" in errors ==> ErrorsAfter(CorrectedMemberRules, values, errors)["major-grade"] == "请填写专业与年级"
  {
    PassesMeaning(CorrectedMemberRules, values);
    TrimEmptyIffBlank(values["major-grade"]);
    assert Trim(Trim(values["major-grade"])) == [];
    assert !EntryPasses(CorrectedMemberRules[3], values);
    ErrorsAfterSlots(CorrectedMemberRules, values, errors);
    LookupAt(CorrectedMemberRules, 3);
  }
}
