# Team registration: the page roster, the submission checks and the team store

This project models the core of the competition registration system in Dafny
and proves properties of it. The model has three parts.

- **The registration page** (`web/static/script.js`). Its mutable state is a
  class, `Roster.RegistrationPage`. The class holds:
  - the team inputs and their error texts;
  - the `.member-item` entries in document order, each with its
    `data-member-index`, its title number, its inputs and error texts, its
    captain box and whether it is expanded;
  - the optional advisor entry;
  - the globals `memberCount` and `advisorCount`;
  - the error toasts shown so far.

  Each handler that changes the roster is a method of the class:
  - adding and removing members and the advisor;
  - the captain-box change handler;
  - folding and unfolding entries;
  - `validateField`, `validateMember`, `validateAdvisor` and `validateForm`;
  - `getFormData`.

  `getElementById` and `querySelector` on an index reach the *first* entry
  in document order that carries the index. The model states this as
  `Roster.FirstPos`. The three validator tables are values in `Rules`. Each
  validator is described by the check it performs (`Rules.Check`).
- **The submission endpoint** (`server.py`, `submit_team`). `Server.Validate`
  states the validation chain as a function from the request body to
  either the team data to save or the first reason for refusal.
  `Server.CheckSubmission` is the handler's loop-based form, proved equal to
  it. `Store.TeamStore` is the database. Its `SaveTeam` is the `save_team`
  upsert keyed by the unique team name. Its `Submit` is the whole handler
  (status 200, 400 or 500). Its `ReadTeams` is the `read_teams` projection.
- **The handoff** (`Handoff`). These lemmas connect what the page sends to
  what the server does with it. They show three things:
  - A form the page accepts is always refused by the server, because the
    page never sends `is_captain`.
  - With the flag sent and `major-grade` checked, such a form without an
    advisor is saved exactly as entered, trimmed.
  - A form with an advisor is refused, because the advisor row's
    `major_grade` is always empty.

Supporting modules:

- `Text` models the whitespace trim (`String.prototype.trim`, `str.strip`).
- `Pattern` models the two anchored regular expressions as sequences of
  character-class pieces. It proves what the phone and email patterns accept.
- `Json` models the JSON values the handler reads.
- `Wrappers` provides `Option` and `Result`.

The page and the server are modelled as the code is written. The corrected
definitions under "## Findings" (`Rules.CorrectedMemberRules`,
`Handoff.EncodeWithCaptain`, `Roster.FreshIndex`) sit beside the as-written
ones. Only the lemmas that state the intended behaviour use them.

## Model

| member | source | states |
|---|---|---|
| Text.TrimStartMeaning | web/static/script.js:620 | trimming the start drops a prefix of whitespace and leaves a result that is empty or starts with a non-space |
| Text.TrimEndMeaning | web/static/script.js:620 | trimming the end drops a suffix of whitespace and leaves a result that is empty or ends with a non-space |
| Text.TrimMeaning | server.py:240-243 | `trim()` / `strip()` returns an infix of the input with only whitespace around it, and its result neither starts nor ends with whitespace |
| Text.TrimEmptyIffBlank | web/static/script.js:62-75 | a value trims to the empty string exactly when it is all whitespace (the `value.trim().length > 0` checks) |
| Text.TrimIdempotent | server.py:240-243 | stripping an already stripped value changes nothing |
| Text.TrimOfTrimmed | server.py:240-243 | a value with no whitespace at either end is its own trim |
| Pattern.Repeat | web/static/script.js:79 | `\d{9}` unfolds to exactly nine single-digit pieces |
| Pattern.OnceOnlyMatches | web/static/script.js:79 | a pattern of single-character pieces matches exactly the strings of its length whose characters are in the pieces' classes |
| Pattern.PhonePatternMeaning | web/static/script.js:77-83 | `^1[3-9]\d{9}$` matches exactly the 11-character strings that start with 1, then 3-9, then nine digits |
| Pattern.OneOrMoreElim | web/static/script.js:86 | a match of `X+` followed by a rest splits into a non-empty run of X and a match of the rest |
| Pattern.OneOrMoreIntro | web/static/script.js:86 | a non-empty run of X followed by a match of the rest is a match of `X+` and the rest |
| Pattern.OneOrMoreAlone | web/static/script.js:86 | `X+` alone matches exactly the non-empty strings of X |
| Pattern.DomainPatternMeaning | web/static/script.js:86 | `[^\s@]+\.[^\s@]+$` matches exactly the strings free of whitespace and `@` that have a dot with characters on both sides |
| Pattern.EmailPatternMeaning | web/static/script.js:84-90 | the email pattern matches exactly the strings with one `@`, a non-empty local part and a domain with an inner dot, all free of whitespace |
| Pattern.EmailMatchHasShape | server.py:303-304 | every string the email pattern matches has that shape |
| Pattern.EmailShapeMatches | server.py:303-304 | every string of that shape is matched by the email pattern |
| Rules.Lookup | web/static/script.js:129-130 | looking a field up in a rule table finds none exactly when no entry names it, and otherwise an entry of the table |
| Rules.ApplyRules | web/static/script.js:502-517 | running a table over an entry returns true exactly when every rule whose input exists passes, and leaves each error element with the verdict of the last rule for its field |
| Rules.PassesMeaning | web/static/script.js:502-517 | a table passes exactly when each of its entries passes |
| Rules.ErrorsAfterSlots | web/static/script.js:502-515 | running the rules keeps the set of error elements, and each one's text is decided by the rules for its field alone |
| Rules.ErrorsAfterIdempotent | web/static/script.js:502-515 | running the rules twice on the same values shows the same errors as running them once |
| Rules.OptionalTextRules | web/static/script.js:36-56 | the intro, solution and outlook rules accept a blank value or one of 200 to 500 characters |
| Rules.RequiredTeamRules | web/static/script.js:19-35 | team name, project name and CoStrict uid must be non-blank; the track must be non-empty |
| Rules.NameRules | web/static/script.js:61-64 | members and advisors share the name rule: at least two characters after trimming |
| Rules.PhoneRules | web/static/script.js:77-83 | members and advisors share the phone rule, which accepts exactly the 11-digit mainland numbers |
| Rules.EmailRules | web/static/script.js:84-90 | members and advisors share the email rule, which accepts exactly the addresses of the email shape |
| Rules.PassesIgnoresUnruled | web/static/script.js:502-504 | a table without an entry for a field neither reads nor depends on that field's value |
| Rules.MajorGradeNeverChecked | web/static/script.js:73-76 | the member table names `major_grade`, so the `major-grade` input is never looked up: its value changes no verdict and its error text is never touched |
| Rules.CorrectedMajorGradeRequired | web/static/script.js:73-76 | with the key spelt `major-grade`, a blank major and grade fails the member check and shows the rule's message |
| Roster.FirstPos | web/static/script.js:475 | the entry reached by an index is the first one in document order that carries it, and there is none exactly when no entry carries it |
| Roster.Reached | web/static/script.js:645-654 | the inputs read for an entry come from an entry with the same index |
| Roster.RegistrationPage.constructor | web/static/script.js:15-16 | the page loads with one member titled 1 (the captain box as the markup sets it), no advisor, `memberCount` 1, `advisorCount` 0 and blank fields, so the team and member rules fail on it |
| Roster.LoadedPageFails | web/static/script.js:19-64 | blank team inputs fail the team rules and a blank member entry fails the member rules, because the names are required |
| Roster.RegistrationPage.AddMember | web/static/script.js:165-176 | with five entries it only shows the limit toast; otherwise it increments `memberCount` and appends an empty, unchecked, expanded entry with its fold button, whose index is the new count minus one and whose title is the new count |
| Roster.RegistrationPage.RemoveMember | web/static/script.js:469-488 | with `memberCount` at most 1 it only shows a toast; an index no entry carries changes nothing; otherwise the first entry with that index goes, the titles are renumbered and `memberCount` drops by one |
| Roster.RegistrationPage.ClickCaptain | web/static/script.js:295-313 | checking a box unchecks every other one; unchecking leaves the rest; at most one captain remains |
| Roster.RegistrationPage.ToggleMember | web/static/script.js:455-467 | a click on a fold button with that index flips whether the first entry with the index is shown, and nothing else; with no fold button left for the index nothing changes |
| Roster.RegistrationPage.AddAdvisor | web/static/script.js:322-333 | with an advisor present only the limit toast is shown; otherwise an empty advisor with index 0 is added and `advisorCount` becomes 1 |
| Roster.RegistrationPage.RemoveAdvisor | web/static/script.js:443-453 | index 0 with an advisor present removes it and zeroes `advisorCount`; anything else changes nothing |
| Roster.RegistrationPage.ToggleAdvisor | web/static/script.js:429-441 | flips whether the advisor is shown when index 0 reaches it, and nothing else |
| Roster.RegistrationPage.ValidateField | web/static/script.js:128-146 | a field without a rule is valid and touches nothing; otherwise the verdict is the rule's on the untrimmed value, written to the field's error element |
| Roster.RegistrationPage.ValidateMember | web/static/script.js:491-518 | an index no entry carries is valid; otherwise the member rules run over the first entry with that index, which alone gets the error texts |
| Roster.RegistrationPage.ValidateAdvisor | web/static/script.js:521-548 | index 0 with an advisor runs the advisor rules and writes their errors; anything else is valid and changes nothing |
| Roster.RegistrationPage.EnterTeamValue | web/static/script.js:858-874 | typing into a team input stores the value and, for a field with a rule, re-runs `validateField` on it |
| Roster.RegistrationPage.EnterMemberValue | web/static/script.js:645-654 | typing into a member input changes that input of that entry only |
| Roster.RegistrationPage.EnterAdvisorValue | web/static/script.js:666-676 | typing into an advisor input changes that input only |
| Roster.RegistrationPage.GetFormData | web/static/script.js:617-684 | the payload is the trimmed team values, a row per entry in document order typed by its own captain box and filled from the entry its index reaches, then the advisor row |
| Roster.RegistrationPage.ValidateForm | web/static/script.js:551-614 | the verdict is true exactly when the team, member and advisor rules all pass and some box is checked; every check runs and writes its errors; the headcount toast is never raised |
| Roster.CheckForm | web/static/script.js:551-614 | the loop form of `validateForm` computes the verdict, the error texts and the toasts that `FormPasses`, `ErrorsAfter` and `CheckedMembers` specify |
| Roster.MemberRows | web/static/script.js:631-657 | the member loop of `getFormData` yields one row per entry, each read through the entry its index reaches |
| Roster.CheckMember | web/static/script.js:502-517 | the member rules' verdict on an entry and the entry with its error texts updated |
| Roster.CheckAdvisor | web/static/script.js:532-547 | the advisor rules' verdict and the advisor with its error texts updated |
| Roster.CheckAllMembers | web/static/script.js:566-577 | walking the entries counts all of them and is true exactly when the entry each index reaches passes; duplicate indices re-check the same entry |
| Roster.CheckedMemberIdempotent | web/static/script.js:491-518 | validating a member twice shows the same errors as validating it once |
| Roster.FindCaptain | web/static/script.js:580-585 | the captain loop finds a checked box exactly when some entry is the captain |
| Roster.RenumberTitles | web/static/script.js:479-485 | renumbering gives each entry its position plus one as title, and rewriting the title as text drops the fold button it held (script.js:182) |
| Roster.RemovalDropsFoldButtons | web/static/script.js:479-485 | after a removal no entry has a fold button left for any index; an entry added afterwards brings a button for its own index |
| Roster.CheckedMembersShape | web/static/script.js:565-577 | checking the members keeps their number, titles and captain boxes |
| Roster.RemoveAtValid | web/static/script.js:475-486 | removing an entry and renumbering keeps the titles consecutive and at most one captain |
| Roster.ReplaceEntry | web/static/script.js:503-513 | updating one entry's inputs or errors keeps the titles and the single captain |
| Roster.AfterCaptainClickKeepsOne | web/static/script.js:295-313 | the captain handler never leaves two boxes checked |
| Roster.FirstPosSameIndices | web/static/script.js:475 | lookups by index depend only on the entries' indices |
| Roster.CheckedMembersCaptains | web/static/script.js:580-585 | validation does not change whether a captain is chosen |
| Roster.FormDataLayout | web/static/script.js:631-684 | the payload holds one row per entry, then one for the advisor if there is one; a row is the captain's exactly when its box is checked, and the advisor row is typed as the advisor |
| Roster.FormDataFollowsReached | web/static/script.js:645-654 | each row carries the inputs of the first entry with its index, and an entry that is first with its index sends its own inputs |
| Roster.IndexCollision | web/static/script.js:173-174 | add two members, remove the second, add one: two entries now carry index 2, the last is never reached, and the payload repeats the earlier entry's inputs |
| Roster.FreshIndex | web/static/script.js:173-174 | an index above every index in use |
| Roster.FreshIndexKeepsDistinct | web/static/script.js:173-174 | appending an entry with a fresh index keeps all indices distinct |
| Roster.RemoveKeepsDistinct | web/static/script.js:475-477 | removing an entry keeps indices distinct |
| Roster.DistinctIndicesReachSelf | web/static/script.js:645-654 | with distinct indices each entry sends its own inputs |
| Server.FirstFault | server.py:287-316 | the first member with a fault and that fault, or none exactly when every member passes |
| Server.ReadMembers | server.py:287-294 | one set of stripped fields per member object |
| Server.ReadMembersAt | server.py:288-294 | the fields read for member i are those of member object i |
| Server.CheckMember | server.py:288-316 | the member loop body reports missing fields first, then a bad email, then a bad phone |
| Server.CheckTeam | server.py:240-269 | the team checks, in order: required fields, track, the three text lengths |
| Server.FindCaptainFlag | server.py:279 | true exactly when some member object has a truthy `is_captain` |
| Server.CheckMembers | server.py:272-316 | no members, no captain, then the first faulty member, in that order |
| Server.CheckSubmission | server.py:229-330 | the handler's checks, run in sequence, give the result `Validate` specifies |
| Server.FaultMeaning | server.py:296-316 | a member passes exactly when all seven fields are non-empty, the email has the email shape and the phone the phone shape; each fault is named by which of these fails first |
| Server.ValidateAccepts | server.py:239-316 | a request is accepted exactly when the team passes, there is at least one member, one has the captain flag and every member passes; what is saved is the team read from the request |
| Server.AllAcceptableMeaning | server.py:287-316 | every member passes exactly when none has a fault |
| Server.MembersAllPass | server.py:272-316 | the member checks pass exactly when the list is non-empty, a captain is flagged and no member has a fault |
| Server.ValidateReportsFirstBadMember | server.py:287-316 | member n is reported with fault f exactly when the team and captain checks pass, n is the 1-based number of the first faulty member and f is its fault |
| Server.FirstBadMemberReported | server.py:287-316 | the member checks report member n with fault f exactly when a captain is flagged and member n is the first with a fault |
| Server.ValidateTeamStage | server.py:239-269 | a team-stage reason (missing fields, unknown track, a bad length) is reported exactly when the team checks give that reason |
| Server.ValidateReportsMissingTeamFields | server.py:240-249 | a request is refused for missing team fields exactly when one of the four required team values is empty after stripping |
| Server.ValidateReportsUnknownTrack | server.py:251-257 | a request is refused for its track exactly when the four required values are present and the track is neither valid name |
| Server.ValidateReportsBadLength | server.py:259-269 | a length refusal names the first of intro, solution and outlook, in that order, that is non-empty and outside 200 to 500 characters, once the fields and track pass |
| Server.ValidateReportsNoCaptain | server.py:278-284 | a request is refused for lack of a captain exactly when its team passes, it has members and none is flagged |
| Server.SavedValuesStripped | server.py:319-328 | the saved team passes the team checks, and its name, project name, uid and repository link are already stripped |
| Store.FindTeam | server.py:136 | the first row with the name, or none exactly when no row has it |
| Store.UpsertKeepsInvariant | server.py:135-212 | a save keeps the names unique and the ids increasing and below the next id |
| Store.UpsertStores | server.py:138-212 | afterwards exactly one row has the name, and it holds the returned id, the data and the members as sent; a known name keeps its id and the table size, a new name gets the next id and one more row |
| Store.UpsertLeavesOthers | server.py:138-173 | a save changes no row with another name |
| Store.FindTeamAt | server.py:136 | a row with the name and none before it is the one found |
| Store.UpsertIdempotent | server.py:138-173 | saving the same submission twice gives the same table and returns the same id |
| Store.ListingFallbacks | server.py:109-122 | each member the listing shows is the stored member at the same place with its stored values, except that a falsy student_id or tech_stack reads as `''` |
| Store.ListingNewestFirst | server.py:90 | the listing shows the teams newest first (ids strictly decreasing) and each name once |
| Store.UpsertListing | server.py:90-125 | after a save, a new team heads the listing, and an updated team's view is replaced in place |
| Store.ListingAppend | server.py:90-125 | a row appended to the table heads the listing |
| Store.ListingUpdate | server.py:90-125 | replacing a row replaces its view at the mirrored position |
| Store.BuildMembers | server.py:192-209 | the member loop of `save_team` builds one row per member object, in order |
| Store.ViewMembers | server.py:109-122 | the member loop of `read_teams` builds one view per stored member, in the order the team's member rows are held |
| Store.ListTeams | server.py:92-124 | the team loop of `read_teams` builds the listing, newest first |
| Store.TeamStore.constructor | server.py:23-43 | the table starts empty; the first id is 1, which assumes the autoincrement key of server.py:26 starts at 1 |
| Store.TeamStore.SaveTeam | server.py:130-216 | a database failure leaves the table unchanged and returns `(False, None)`; otherwise the table becomes the upsert and the saved row's id is returned |
| Store.TeamStore.Submit | server.py:229-349 | a refused request is answered 400 and changes nothing; an accepted one is saved and answered 200 with the team id, or 500 with nothing changed when the database fails |
| Store.TeamStore.ReadTeams | server.py:87-128 | a failing query answers the empty list; otherwise the answer is the listing of the current table |
| Handoff.EncodedHasNoCaptain | web/static/script.js:644-656 | no member object the page sends has an `is_captain` key, so none is flagged |
| Handoff.ClientRequestRefused | server.py:278-284 | every request the page sends is refused, and one whose team passes and which has members is refused for lack of a captain |
| Handoff.TrimmedFieldRead | server.py:240 | the server reads an already trimmed string back unchanged |
| Handoff.EncodedTeamKeys | web/static/script.js:619-628 | the team object the page sends has the eight team keys with their values |
| Handoff.TrimmedTeamRead | server.py:240-262 | the server reads a team of trimmed values back unchanged |
| Handoff.TracksTrimmed | server.py:252 | both valid track names are their own trim |
| Handoff.TeamInfoTrimmed | web/static/script.js:619-628 | every team value the page sends is trimmed when the chosen track is valid |
| Handoff.EncodedTeamRead | server.py:319-328 | the team the server would save is the one the page entered, trimmed |
| Handoff.OptionalEntryPasses | server.py:264-265 | a text the page's length rule accepts is not out of range for the server |
| Handoff.ClientTeamAccepted | server.py:239-269 | a team the page's rules accept, with a valid track chosen, passes the server's team checks |
| Handoff.EncodedMemberRead | server.py:288-294 | the server reads each member field as the trimmed value the page entered |
| Handoff.MatchedNotEmpty | web/static/script.js:77-90 | a value the phone or email pattern matches is not empty |
| Handoff.RequiredEntryPasses | web/static/script.js:61-76 | a value a required rule accepts is non-blank |
| Handoff.CorrectedRulesRead | web/static/script.js:60-95 | a member the corrected rules accept has every required field non-blank and a phone and an email that match |
| Handoff.NoFault | server.py:296-316 | non-empty fields with a matching phone and email give no fault |
| Handoff.ClientMemberAccepted | server.py:287-316 | a member the corrected page rules accept passes the server's member checks |
| Handoff.CaptainFlagSent | server.py:279 | with the flag sent, a captain is found exactly when some row is typed as the captain |
| Handoff.CaptainKeyIgnored | server.py:288-294 | the extra `is_captain` key does not change the fields the server checks |
| Handoff.EncodedRowAt | web/static/script.js:644-656 | the request has one member object per row, each row's own encoding |
| Handoff.FormRowAt | web/static/script.js:644-656 | row j of the payload is entry j's row |
| Handoff.MemberRowAccepted | server.py:287-316 | every member row of a form the corrected rules accept passes the server's member checks |
| Handoff.CaptainFound | server.py:279 | with the flag sent, a form with a checked box has a flagged captain |
| Handoff.ClientFormRefused | web/static/script.js:639-656 | every form the page accepts is refused by the server for lack of a captain |
| Handoff.CorrectedFormAccepted | server.py:229-328 | with the flag sent and the corrected rules, an accepted form without an advisor is saved exactly as entered, trimmed |
| Handoff.BlankMajorRejected | server.py:291-300 | a row with an empty major and grade is refused for missing fields |
| Handoff.AdvisorRowRejected | web/static/script.js:665-677 | the advisor row always has an empty major and grade, so the server always refuses it |
| Handoff.AdvisorElementRejected | server.py:287-300 | the advisor row is reported as member number (members + 1) when every member before it passes |
| Handoff.AdvisorFormRefused | web/static/script.js:670 | a form with an advisor is refused even with the flag sent and the corrected rules, for the advisor's missing fields |
| Handoff.PageFormRefused | web/static/script.js:551-684 | on every page state the handlers can reach, a form that `validateForm` accepts with a track chosen is refused for lack of a captain |
| Handoff.PageCorrectedFormAccepted | server.py:229-328 | on every reachable page state without an advisor, the corrected form is saved exactly as entered |

## Left out

- Character encoding is not modelled. Lengths are sequence lengths. JavaScript counts UTF-16 code units and Python counts code points, so the 200 to 500 character bounds agree only on the Basic Multilingual Plane.
- Whitespace is one set for both languages: the ECMAScript WhiteSpace and LineTerminator characters. Python's `str.strip`, `\s` and `\d` accept a slightly different Unicode set.
- Rendering is not modelled. This covers the toasts' texts and timing, CSS classes, the fold buttons' labels and the member name shown in an entry's title. Two display facts are modelled: whether an entry's content is shown (`expanded`), and whether its title still holds its fold button (`foldable`). The renumbering in `removeMember` also drops the name display span from every title; that is rendering too.
- `submitForm`, `fetch`, the offline fallback, the success page, the deadline fetch and the agreement checkbox are left out. They are I/O around `validateForm` and `getFormData`. `Handoff` connects those two functions to the server directly.
- The server's message texts are a `Server.Rejection` datatype that records the field or the 1-based member number. The Chinese strings are not modelled. The page's rule messages are kept as strings.
- `Json.Value` holds only strings and booleans. JSON `null`, numbers, arrays and objects as field values are not modelled. The server does not refuse them: `str()` turns them into text. A `null` team name is saved as `None`. A number such as 13800138000 passes the phone pattern as its digits.
- A `team_info` or a `members` entry that is not an object is not modelled. Calling `.get` on it raises, and the outer `except` answers 500.
- The database is a sequence of team records in creation order. Unique names make this the name-keyed map, and the sequence also gives `read_teams` its order. The listing assumes that creation time orders the rows. Two teams created in the same instant are ordered by insertion.
- Store.ViewMembers, Store.TeamStore.ReadTeams: the `members` relationship has no `order_by` (server.py:43). The order in which a team's members are listed is therefore not fixed by the code. The model lists them in insertion order.
- Store.TeamStore.SaveTeam: `dbFails` stands for any database exception. The model does not capture concurrent submissions, the unique-name constraint racing between two requests, timestamps, member row ids, or the ORM's coercion of a non-boolean `is_captain`. `dbFails` leaves `nextId` unchanged. This assumes the default SQLite database (server.py:18), where a rolled-back insert uses up no id. A `DATABASE_URL` naming a database with sequences (PostgreSQL `SERIAL`, for one) uses up an id on a failed insert, and the next team's id skips it.
- `index.html` is not part of this model. The model assumes the set of inputs and error elements of each entry. The initial captain box is a constructor parameter. The entry present at load is assumed to hold its fold button in its title, as the entries `addMember` creates do. An input that does not exist reads as `""` (`Roster.ValueOf`).
- Roster.RegistrationPage.ValidateMember: the early exit when `member-name-<index>` is missing is taken only when no entry carries the index. Every entry is assumed to have its name input.
- Roster.RegistrationPage.EnterMemberValue: the blur and input listeners that `DOMContentLoaded` attaches to the entries present at load (script.js:990-1007) are not modelled. An entry's error texts change only through `ValidateMember` and `ValidateForm`.
- Roster.RegistrationPage.EnterAdvisorValue: the advisor listeners attached at load (script.js:1047-1064) are not modelled, for the same reason.
- Handoff.AdvisorFormRefused: no corrected server definition exists for the advisor row. The code does not show whether the advisor should skip `major_grade` on the server or send a value, so only the as-written behaviour is proved.

## Findings

| source | as written | input that shows it | evidently intended | confidence | as-written member | corrected member |
|---|---|---|---|---|---|---|
| web/static/script.js:639-656 | the page types the captain's row as `member_type` 队长 but never sends `is_captain`, which is the only flag `submit_team` looks for (server.py:279) | any form the page accepts, e.g. one member with the box checked | the captain's row carries `is_captain: true`, so a form the page accepts reaches `save_team` | not executed | Handoff.ClientFormRefused | Handoff.CorrectedFormAccepted |
| web/static/script.js:73 | the member rule is keyed `major_grade`, but the input's id is `member-major-grade-<index>`, so the rule never finds its element and a blank major passes the page | a member with every field valid and the major and grade left blank | the rule is keyed `major-grade` and a blank major is refused on the page, as the server refuses it | not executed | Rules.MajorGradeNeverChecked | Rules.CorrectedMajorGradeRequired |
| web/static/script.js:173-174 | a new entry's index is `memberCount - 1`, and `removeMember` lowers `memberCount`, so adding after a removal reuses the index of an entry still on the page | load, add, add, remove the second entry, add | every entry gets an index no other entry carries | not executed | Roster.IndexCollision | Roster.FreshIndexKeepsDistinct |
